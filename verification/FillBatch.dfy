/** Batches on the client: replies matched with selections, plans with buffers, and
    one replacement for plans the server no longer has. */
module Batches {
  import opened Words

  /** A resolved selection. Request 0 carries its data with it. */
  datatype Plan = Plan(requestId: nat, totalBytes: nat, inlineData: seq<byte>) {
    /** No request to fetch: the data came with the plan. */
    predicate IsInline() { requestId == 0 }

    /** What a plan is checked for when it arrives. */
    ghost predicate Checked() {
      requestId == 0 ==> |inlineData| == totalBytes
    }
  }

  datatype Failure = BadRequest | Protocol | Gone | Other(error: string)

  type Prepared = Result<Plan, Failure>

  /** Selections that are not refused before they are sent. */
  ghost function Asked(local: seq<Option<Failure>>, k: nat): nat
    requires k <= |local|
  {
    if k == 0 then 0 else Asked(local, k - 1) + if local[k - 1].None? then 1 else 0
  }

  /** Put each reply with the selection it answers: replies come in the order of
      the selections that were sent, the others have their own refusal. */
  method MergeReplies(local: seq<Option<Failure>>, replies: seq<Prepared>)
    returns (merged: Result<seq<Prepared>, Failure>)
    ensures merged.Ok? <==> Asked(local, |local|) <= |replies|
    ensures merged.Err? ==> merged.error == Protocol
    ensures merged.Ok? ==> |merged.value| == |local|
    ensures merged.Ok? ==> forall i :: 0 <= i < |local| ==> Answers(local, replies, merged.value, i)
  {
    var results: seq<Prepared> := [];
    var next: nat := 0;
    for i := 0 to |local|
      invariant |results| == i && next == Asked(local, i) <= |replies|
      invariant forall k :: 0 <= k < i ==> Answers(local, replies, results, k)
    {
      ghost var before := results;
      AskedGrows(local, i + 1, |local|);
      if local[i].Some? {
        results := results + [Err(local[i].value)];
      } else {
        if next == |replies| {
          return Err(Protocol);
        }
        results := results + [replies[next]];
        next := next + 1;
      }
      forall k | 0 <= k < i ensures Answers(local, replies, results, k) {
        assert Answers(local, replies, before, k);
      }
    }
    merged := Ok(results);
  }

  lemma {:induction false} AskedGrows(local: seq<Option<Failure>>, j: nat, k: nat)
    requires j <= k <= |local|
    ensures Asked(local, j) <= Asked(local, k)
    decreases k
  {
    if j < k {
      AskedGrows(local, j, k - 1);
    }
  }

  /** Result `i` is the selection's own refusal, or the reply to it. */
  ghost predicate Answers(local: seq<Option<Failure>>, replies: seq<Prepared>, results: seq<Prepared>, i: nat)
    requires i < |local| && i < |results|
  {
    if local[i].Some? then results[i] == Err(local[i].value)
    else Asked(local, i) < |replies| && results[i] == replies[Asked(local, i)]
  }

  /** A part of a fetch: the plan, and which buffer it fills. */
  datatype Part = Part(plan: Plan, dst: nat)

  /** Plans still to be fetched, by position in the batch. */
  ghost predicate Remote(remote: seq<(nat, Plan)>, n: nat) {
    && (forall k :: 0 <= k < |remote| ==> remote[k].0 < n && remote[k].1.requestId != 0)
    && (forall j, k :: 0 <= j < k < |remote| ==> remote[j].0 < remote[k].0)
  }

  /** The parts a fetch of those plans asks for. */
  ghost function PartsOf(remote: seq<(nat, Plan)>): seq<Part> {
    seq(|remote|, k requires 0 <= k < |remote| => Part(remote[k].1, remote[k].0))
  }

  /** The plans of a batch that did not bring their data. */
  ghost function LeftOf(plans: seq<Plan>): seq<(nat, Plan)> {
    if plans == [] then []
    else
      var i := |plans| - 1;
      LeftOf(plans[..i]) + if plans[i].requestId == 0 then [] else [(i, plans[i])]
  }

  /** Pair every plan left with its own buffer, walking the buffers once. */
  method PairUp(remote: seq<(nat, Plan)>, n: nat) returns (parts: seq<Part>)
    requires Remote(remote, n)
    ensures parts == PartsOf(remote)
  {
    parts := [];
    for i := 0 to n
      invariant |parts| <= |remote|
      invariant forall k :: 0 <= k < |parts| ==> parts[k] == Part(remote[k].1, remote[k].0) && remote[k].0 < i
      invariant |parts| < |remote| ==> remote[|parts|].0 >= i
    {
      if |parts| < |remote| && remote[|parts|].0 == i {
        parts := parts + [Part(remote[|parts|].1, i)];
      }
    }
  }

  /** The world a batch meets: what a fetch of some parts comes to, what preparing
      again answers, and the stream behind each request. */
  datatype World = World(
    fetch: (nat, seq<Part>) -> Option<Failure>,
    prepare: seq<nat> -> Result<seq<Prepared>, Failure>,
    stream: Plan -> seq<byte>)
  {
    ghost predicate Valid() {
      && (forall p :: |stream(p)| == p.totalBytes)
      && (forall at :: prepare(at).Ok? ==>
            |prepare(at).value| == |at|
            && forall k :: 0 <= k < |at| && prepare(at).value[k].Ok? ==> prepare(at).value[k].value.Checked())
    }

    /** What a buffer filled from a plan holds. */
    function Contents(p: Plan): seq<byte> {
      if p.requestId == 0 then p.inlineData else stream(p)
    }
  }

  function Positions(remote: seq<(nat, Plan)>): (at: seq<nat>)
    ensures |at| == |remote|
  {
    seq(|remote|, k requires 0 <= k < |remote| => remote[k].0)
  }

  /** Which plan each buffer is filled from in the end: its own, or, once, the one
      that replaced it. */
  ghost predicate Used(w: World, plans: seq<Plan>, used: seq<Plan>, dsts: seq<seq<byte>>) {
    && |used| == |plans| == |dsts|
    && forall i :: 0 <= i < |plans| ==> FilledFrom(w, plans[i], used[i], dsts[i])
  }

  ghost predicate FilledFrom(w: World, plan: Plan, used: Plan, dst: seq<byte>) {
    && used.totalBytes == plan.totalBytes && (plan.requestId == 0 ==> used == plan)
    && dst == w.Contents(used)
  }

  /** The buffers not waiting for a fetch are filled, and the others wait for the
      plan they will be filled from. */
  ghost predicate Progress(w: World, plans: seq<Plan>, used: seq<Plan>, dsts: seq<seq<byte>>,
      remote: seq<(nat, Plan)>) {
    && |used| == |plans| == |dsts| && Remote(remote, |plans|)
    && (forall i :: 0 <= i < |plans| ==> Waits(remote, i, used[i]) || FilledFrom(w, plans[i], used[i], dsts[i]))
    && (forall k :: 0 <= k < |remote| && remote[k].0 < |plans| ==>
          var i := remote[k].0;
          used[i] == remote[k].1 && used[i].totalBytes == plans[i].totalBytes && plans[i].requestId != 0)
  }

  ghost predicate Waits(remote: seq<(nat, Plan)>, i: nat, plan: Plan) {
    exists k :: 0 <= k < |remote| && remote[k] == (i, plan)
  }

  /** Write what a successful fetch brought into the buffers. */
  method Deliver(w: World, plans: seq<Plan>, ghost used: seq<Plan>, dsts: seq<seq<byte>>, remote: seq<(nat, Plan)>)
    returns (filled: seq<seq<byte>>)
    requires w.Valid() && Progress(w, plans, used, dsts, remote)
    ensures Used(w, plans, used, filled)
  {
    filled := dsts;
    var left := remote;
    while left != []
      invariant Progress(w, plans, used, filled, left)
      decreases |left|
    {
      var (at, plan) := left[0];
      Next(w, plans, used, filled, left, w.stream(plan));
      filled := filled[at := w.stream(plan)];
      left := left[1..];
    }
  }

  lemma Next(w: World, plans: seq<Plan>, used: seq<Plan>, dsts: seq<seq<byte>>, remote: seq<(nat, Plan)>,
      bytes: seq<byte>)
    requires Progress(w, plans, used, dsts, remote) && remote != [] && bytes == w.Contents(remote[0].1)
    ensures remote[0].0 < |dsts| && Progress(w, plans, used, dsts[remote[0].0 := bytes], remote[1..])
  {
    var rest := remote[1..];
    forall i | 0 <= i < |plans|
      ensures Waits(rest, i, used[i]) || FilledFrom(w, plans[i], used[i], dsts[remote[0].0 := bytes][i])
    {
      if i != remote[0].0 && Waits(remote, i, used[i]) {
        var k :| 0 <= k < |remote| && remote[k] == (i, used[i]);
        assert rest[k - 1] == (i, used[i]);
      }
    }
  }

  /** Fill the buffers of inline plans, and list the others. */
  method Start(w: World, plans: seq<Plan>) returns (dsts: seq<seq<byte>>, remote: seq<(nat, Plan)>)
    ensures Progress(w, plans, plans, dsts, remote) && remote == LeftOf(plans)
  {
    hide Progress, LeftOf;
    dsts, remote := [], [];
    NothingStarted(w);
    assert plans[..0] == [];
    for i := 0 to |plans|
      invariant Progress(w, plans[..i], plans[..i], dsts, remote) && remote == LeftOf(plans[..i])
    {
      StartNext(w, plans, i, dsts, remote);
      if plans[i].IsInline() {
        dsts := dsts + [plans[i].inlineData];
      } else {
        dsts, remote := dsts + [[]], remote + [(i, plans[i])];
      }
    }
    assert plans[..|plans|] == plans;
  }

  lemma NothingStarted(w: World)
    ensures Progress(w, [], [], [], []) && LeftOf([]) == []
  {
  }

  lemma StartNext(w: World, plans: seq<Plan>, i: nat, dsts: seq<seq<byte>>, remote: seq<(nat, Plan)>)
    requires i < |plans| && Progress(w, plans[..i], plans[..i], dsts, remote) && remote == LeftOf(plans[..i])
    ensures var inline := plans[i].IsInline();
      var more := if inline then remote else remote + [(i, plans[i])];
      && Progress(w, plans[..i + 1], plans[..i + 1], dsts + [if inline then plans[i].inlineData else []], more)
      && more == LeftOf(plans[..i + 1])
  {
    hide Progress, World.Contents;
    LeftNext(plans, i);
    OneStarted(w, plans[..i], plans[i], dsts, remote);
    assert plans[..i + 1] == plans[..i] + [plans[i]];
  }

  lemma LeftNext(plans: seq<Plan>, i: nat)
    requires i < |plans|
    ensures LeftOf(plans[..i + 1]) == LeftOf(plans[..i]) + if plans[i].IsInline() then [] else [(i, plans[i])]
  {
    assert plans[..i + 1][..i] == plans[..i];
  }

  lemma OneStarted(w: World, before: seq<Plan>, plan: Plan, dsts: seq<seq<byte>>, remote: seq<(nat, Plan)>)
    requires Progress(w, before, before, dsts, remote)
    ensures var more := before + [plan];
      if plan.IsInline() then Progress(w, more, more, dsts + [plan.inlineData], remote)
      else Progress(w, more, more, dsts + [[]], remote + [(|before|, plan)])
  {
    hide Waits, World.Contents;
    InlineContents(w, plan);
    var more := before + [plan];
    if plan.IsInline() {
      forall i | 0 <= i < |more|
        ensures Waits(remote, i, more[i]) || FilledFrom(w, more[i], more[i], (dsts + [plan.inlineData])[i])
      {
        if i < |before| {
          assert Waits(remote, i, before[i]) || FilledFrom(w, before[i], before[i], dsts[i]);
        }
      }
    } else {
      OneWaits(w, before, plan, dsts, remote);
    }
  }

  lemma OneWaits(w: World, before: seq<Plan>, plan: Plan, dsts: seq<seq<byte>>, remote: seq<(nat, Plan)>)
    requires Progress(w, before, before, dsts, remote) && !plan.IsInline()
    ensures Progress(w, before + [plan], before + [plan], dsts + [[]], remote + [(|before|, plan)])
  {
    hide Waits, FilledFrom;
    var more, left := before + [plan], remote + [(|before|, plan)];
    WaitsMore(remote, (|before|, plan));
    forall i | 0 <= i < |more| ensures Waits(left, i, more[i]) || FilledFrom(w, more[i], more[i], (dsts + [[]])[i]) {
      if i < |before| {
        assert Waits(remote, i, before[i]) || FilledFrom(w, before[i], before[i], dsts[i]);
      }
    }
  }

  lemma InlineContents(w: World, plan: Plan)
    ensures plan.IsInline() ==> w.Contents(plan) == plan.inlineData
  {
  }

  lemma WaitsMore(remote: seq<(nat, Plan)>, last: (nat, Plan))
    ensures Waits(remote + [last], last.0, last.1)
    ensures forall i: nat, p :: Waits(remote, i, p) ==> Waits(remote + [last], i, p)
  {
    var more := remote + [last];
    assert more[|remote|] == last;
    forall i: nat, p | Waits(remote, i, p) ensures Waits(more, i, p) {
      var k :| 0 <= k < |remote| && remote[k] == (i, p);
      assert more[k] == (i, p);
    }
  }

  ghost predicate Replaces(gone: Plan, again: Prepared) {
    again.Ok? && again.value.totalBytes == gone.totalBytes
  }

  /** Why plans cannot all be replaced: the first that was refused, or changed its size. */
  ghost function Misfit(remote: seq<(nat, Plan)>, again: seq<Prepared>): Option<Failure>
    requires |again| == |remote|
  {
    if remote == [] then None
    else
      var k := |remote| - 1;
      var before := Misfit(remote[..k], again[..k]);
      if before.Some? || Replaces(remote[k].1, again[k]) then before
      else Some(if again[k].Err? then again[k].error else BadRequest)
  }

  /** Replacements that did not bring their data. */
  ghost function StillLeft(remote: seq<(nat, Plan)>, again: seq<Prepared>): seq<(nat, Plan)>
    requires |again| == |remote|
  {
    if remote == [] then []
    else
      var k := |remote| - 1;
      StillLeft(remote[..k], again[..k])
      + if again[k].Err? || again[k].value.requestId == 0 then [] else [(remote[k].0, again[k].value)]
  }

  lemma OneReplaced(remote: seq<(nat, Plan)>, again: seq<Prepared>, k: nat)
    requires k < |remote| == |again|
    ensures Misfit(remote[..k + 1], again[..k + 1])
         == if Misfit(remote[..k], again[..k]).Some? || Replaces(remote[k].1, again[k])
            then Misfit(remote[..k], again[..k])
            else Some(if again[k].Err? then again[k].error else BadRequest)
    ensures StillLeft(remote[..k + 1], again[..k + 1]) == StillLeft(remote[..k], again[..k])
         + if again[k].Err? || again[k].value.IsInline() then [] else [(remote[k].0, again[k].value)]
  {
    assert remote[..k + 1][..k] == remote[..k] && again[..k + 1][..k] == again[..k];
  }

  lemma {:induction false} MisfitStays(remote: seq<(nat, Plan)>, again: seq<Prepared>, k: nat)
    requires k <= |remote| == |again| && Misfit(remote[..k], again[..k]).Some?
    ensures Misfit(remote, again) == Misfit(remote[..k], again[..k])
    decreases |remote| - k
  {
    if k == |remote| {
      assert remote[..k] == remote && again[..k] == again;
    } else {
      OneReplaced(remote, again, k);
      MisfitStays(remote, again, k + 1);
    }
  }

  /** Swap each plan that has gone for its replacement, in order. A replacement of
      another size does not fit the buffer, and one that brought its data fills it. */
  method Replace(w: World, plans: seq<Plan>, ghost used: seq<Plan>, dsts: seq<seq<byte>>, remote: seq<(nat, Plan)>,
      again: seq<Prepared>)
    returns (replaced: Result<(seq<seq<byte>>, seq<(nat, Plan)>), Failure>, ghost used': seq<Plan>)
    requires Progress(w, plans, used, dsts, remote) && |again| == |remote|
    ensures Misfit(remote, again).Some? ==> replaced == Err(Misfit(remote, again).value)
    ensures Misfit(remote, again).None? ==> replaced.Ok? && replaced.value.1 == StillLeft(remote, again)
    ensures replaced.Ok? ==> Progress(w, plans, used', replaced.value.0, replaced.value.1)
  {
    hide Progress, Misfit, StillLeft;
    var filled, still := dsts, [];
    used' := used;
    assert [] + remote[0..] == remote;
    NoneReplaced(remote, again);
    for k := 0 to |remote|
      invariant Progress(w, plans, used', filled, still + remote[k..])
      invariant Misfit(remote[..k], again[..k]).None? && still == StillLeft(remote[..k], again[..k])
    {
      var i, old' := remote[k].0, remote[k].1;
      assert remote[k..] == [remote[k]] + remote[k + 1..];
      OneReplaced(remote, again, k);
      if again[k].Err? {
        MisfitStays(remote, again, k + 1);
        return Err(again[k].error), used';
      }
      var new' := again[k].value;
      if new'.totalBytes != old'.totalBytes {
        MisfitStays(remote, again, k + 1);
        return Err(BadRequest), used';
      }
      ReplaceOne(w, plans, used', filled, still, remote[k], remote[k + 1..], new');
      used' := used'[i := new'];
      if new'.IsInline() {
        filled := filled[i := new'.inlineData];
      } else {
        still := still + [(i, new')];
      }
    }
    assert still + remote[|remote|..] == still;
    assert remote[..|remote|] == remote && again[..|remote|] == again;
    replaced := Ok((filled, still));
  }

  lemma NoneReplaced(remote: seq<(nat, Plan)>, again: seq<Prepared>)
    requires |again| == |remote|
    ensures Misfit(remote[..0], again[..0]) == None && StillLeft(remote[..0], again[..0]) == []
  {
  }

  lemma ReplaceOne(w: World, plans: seq<Plan>, used: seq<Plan>, dsts: seq<seq<byte>>, before: seq<(nat, Plan)>,
      one: (nat, Plan), after: seq<(nat, Plan)>, plan: Plan)
    requires Progress(w, plans, used, dsts, before + ([one] + after)) && plan.totalBytes == one.1.totalBytes
    ensures one.0 < |plans| == |used| == |dsts|
    ensures plan.IsInline() ==>
      Progress(w, plans, used[one.0 := plan], dsts[one.0 := plan.inlineData], before + after)
    ensures !plan.IsInline() ==>
      Progress(w, plans, used[one.0 := plan], dsts, before + [(one.0, plan)] + after)
  {
    var was := before + ([one] + after);
    assert was[|before|] == one;
    OthersWait(plans, used, before, one, after, plan);
    var used' := used[one.0 := plan];
    if plan.IsInline() {
      var now := before + after;
      forall k | 0 <= k < |now| ensures now[k] == was[if k < |before| then k else k + 1] {
      }
    } else {
      var now := before + [(one.0, plan)] + after;
      assert now[|before|] == (one.0, plan);
      forall k | 0 <= k < |now| && k != |before| ensures now[k] == was[k] {
      }
    }
  }

  /** Taking one entry out, or changing its plan, leaves the others waiting. */
  lemma OthersWait(plans: seq<Plan>, used: seq<Plan>, before: seq<(nat, Plan)>, one: (nat, Plan),
      after: seq<(nat, Plan)>, plan: Plan)
    ensures forall i, p :: Waits(before + ([one] + after), i, p) && i != one.0 ==>
      Waits(before + after, i, p) && Waits(before + [(one.0, plan)] + after, i, p)
    ensures Waits(before + [(one.0, plan)] + after, one.0, plan)
  {
    var was, less, same := before + ([one] + after), before + after, before + [(one.0, plan)] + after;
    assert same[|before|] == (one.0, plan);
    forall i, p | Waits(was, i, p) && i != one.0 ensures Waits(less, i, p) && Waits(same, i, p) {
      var k :| 0 <= k < |was| && was[k] == (i, p);
      assert k != |before|;
      assert less[if k < |before| then k else k - 1] == (i, p) && same[k] == (i, p);
    }
  }

  /** What was prepared is what was asked for, and each buffer has its plan's size. */
  ghost predicate Sized(plans: seq<Plan>, selections: nat, sizes: seq<nat>) {
    |plans| == selections && |plans| == |sizes| && forall i :: 0 <= i < |plans| ==> plans[i].totalBytes == sizes[i]
  }

  /** What asking for the plans of a batch comes to, if any have to be asked for. */
  ghost function FirstFetch(w: World, plans: seq<Plan>): Option<Failure> {
    if LeftOf(plans) == [] then None else w.fetch(0, PartsOf(LeftOf(plans)))
  }

  /** What it comes to once a plan was gone: all are prepared again, and what did not
      bring its data is fetched. */
  ghost function SecondFetch(w: World, plans: seq<Plan>): Option<Failure>
    requires w.Valid()
  {
    var remote := LeftOf(plans);
    var again := w.prepare(Positions(remote));
    if again.Err? then Some(again.error)
    else if Misfit(remote, again.value).Some? then Misfit(remote, again.value)
    else
      var left := StillLeft(remote, again.value);
      if left == [] then None else w.fetch(1, PartsOf(left))
  }

  /** The plans were replaced, and these are left to fetch. */
  ghost predicate SecondLeaves(w: World, plans: seq<Plan>, left: seq<(nat, Plan)>)
    requires w.Valid()
  {
    var again := w.prepare(Positions(LeftOf(plans)));
    && again.Ok? && Misfit(LeftOf(plans), again.value).None?
    && left == StillLeft(LeftOf(plans), again.value)
  }

  /** The whole batch: inline plans, then one fetch of the others, and one more of
      their replacements if the first came back with a plan gone. */
  method FillBatch(w: World, plans: seq<Plan>, selections: nat, sizes: seq<nat>)
    returns (filled: Result<seq<seq<byte>>, Failure>, fetches: nat, ghost used: seq<Plan>)
    requires w.Valid() && forall p :: p in plans ==> p.Checked()
    ensures fetches <= 2 && (LeftOf(plans) == [] ==> fetches == 0)
    ensures !Sized(plans, selections, sizes) ==> filled == Err(BadRequest)
    ensures Sized(plans, selections, sizes) ==>
      var first := FirstFetch(w, plans);
      && (first.None? ==> filled.Ok? && used == plans)
      && (first == Some(Gone) ==>
            var second := SecondFetch(w, plans);
            if second.None? then filled.Ok? else filled == Err(second.value))
      && (first.Some? && first.value != Gone ==> filled == Err(first.value))
    ensures filled.Ok? ==> Sized(plans, selections, sizes) && Used(w, plans, used, filled.value)
  {
    fetches, used := 0, plans;
    if |plans| != selections || |plans| != |sizes| || exists i :: 0 <= i < |plans| && plans[i].totalBytes != sizes[i] {
      return Err(BadRequest), fetches, used;
    }
    var dsts: seq<seq<byte>>, remote: seq<(nat, Plan)>;
    dsts, remote := Start(w, plans);
    var retries: nat := 0;
    while remote != []
      invariant Progress(w, plans, used, dsts, remote)
      invariant retries <= 1 && fetches == retries
      invariant retries == 0 ==> used == plans && remote == LeftOf(plans)
      invariant retries == 1 ==> FirstFetch(w, plans) == Some(Gone) && SecondLeaves(w, plans, remote)
      decreases 1 - retries
    {
      var parts := PairUp(remote, |dsts|);
      var failed := w.fetch(fetches, parts);
      fetches := fetches + 1;
      if failed.None? {
        var all := Deliver(w, plans, used, dsts, remote);
        return Ok(all), fetches, used;
      }
      if failed.value != Gone || retries > 0 {
        return Err(failed.value), fetches, used;
      }
      retries := 1;
      var again := w.prepare(Positions(remote));
      if again.Err? {
        return Err(again.error), fetches, used;
      }
      var replaced: Result<(seq<seq<byte>>, seq<(nat, Plan)>), Failure>;
      replaced, used := Replace(w, plans, used, dsts, remote, again.value);
      if replaced.Err? {
        return Err(replaced.error), fetches, used;
      }
      dsts, remote := replaced.value.0, replaced.value.1;
    }
    assert forall i :: 0 <= i < |plans| ==> !Waits(remote, i, used[i]);
    filled := Ok(dsts);
  }
}
