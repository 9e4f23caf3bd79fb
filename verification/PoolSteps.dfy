/** Every step of the pool keeps the invariant. */
module PoolSteps {
  import opened Words
  import opened Pool
  import opened PoolSafety

  lemma IdsConcat(a: seq<Chunk>, b: seq<Chunk>)
    ensures IdsOf(a + b) == IdsOf(a) + IdsOf(b)
    ensures multiset(IdsOf(a + b)) == multiset(IdsOf(a)) + multiset(IdsOf(b))
  {
    assert IdsOf(a + b) == IdsOf(a) + IdsOf(b);
  }

  lemma IdsOne(chunk: Chunk)
    ensures multiset(IdsOf([chunk])) == multiset{chunk.id}
  {
    assert IdsOf([chunk]) == [chunk.id];
  }

  lemma NoIds()
    ensures multiset(IdsOf([])) == multiset{} && multiset(FlightIds([])) == multiset{}
  {
  }

  lemma FlightConcat(a: seq<InFlight>, b: seq<InFlight>)
    ensures multiset(FlightIds(a + b)) == multiset(FlightIds(a)) + multiset(FlightIds(b))
  {
    assert FlightIds(a + b) == FlightIds(a) + FlightIds(b);
  }

  lemma FlightOne(f: InFlight)
    ensures multiset(FlightIds([f])) == multiset{f.chunk.id}
  {
    assert FlightIds([f]) == [f.chunk.id];
  }

  /** A thread's chunks are chunks of the batch. */
  lemma HeldIsChunk(c: Config, s: State, i: nat, id: nat)
    requires Conserved(c, s) && i < |s.threads| && id in HeldIds(s.threads[i])
    ensures id < |c.chunks|
  {
    hide HeldIds, IdsOf;
    HeldMember(s.threads, i);
    AllOnce(|c.chunks|);
    assert Held(s.threads)[id] >= HeldIds(s.threads[i])[id];
    assert All(|c.chunks|)[id] >= Held(s.threads)[id];
  }

  lemma {:induction false} TakenBesideFlown(threads: seq<Thread>, i: nat)
    requires i < |threads|
    ensures multiset(IdsOf(threads[i].taken)) + Flown(threads) <= Held(threads)
    decreases |threads|
  {
    hide IdsOf, FlightIds;
    var init, last := threads[..|threads| - 1], threads[|threads| - 1];
    FlownHeld(init);
    if i < |threads| - 1 {
      TakenBesideFlown(init, i);
    }
  }

  /** A chunk taken off the queue can always be claimed: nobody holds it, and no
      other chunk overlaps it. */
  lemma ClaimNeverFails(c: Config, s: State, i: nat)
    requires Inv(c, s) && i < |s.threads| && s.threads[i].taken != []
    ensures s.threads[i].taken[0].id < |c.chunks|
    ensures Claimable(c, s.claimed, s.threads[i].taken[0].id)
  {
    hide Shaped, News, AllTried, BuffersSized;
    var taken := s.threads[i].taken;
    var id := taken[0].id;
    assert IdsOf(taken)[0] == id;
    assert id in multiset(IdsOf(taken));
    HeldIsChunk(c, s, i, id);
    TakenBesideFlown(s.threads, i);
    NotTwice(c, s, multiset(IdsOf(taken)), s.claimed, id);
  }

  lemma NotTwice(c: Config, s: State, mine: multiset<nat>, claimed: multiset<nat>, id: nat)
    requires Conserved(c, s) && mine + claimed <= Held(s.threads) && id in mine
    ensures id !in claimed
  {
    AllOnce(|c.chunks|);
    assert (mine + claimed)[id] <= Held(s.threads)[id] <= All(|c.chunks|)[id];
  }

  /** The thread moves on and nothing else changes. */
  lemma QuietLocal(c: Config, s: State, i: nat, pc: Pc, conn: bool, noise: nat)
    requires Inv(c, s) && i < |s.threads| && !s.threads[i].pc.Notifying?
    requires var t := s.threads[i]; var t' := t.(pc := pc, conn := conn);
      && Placed(t', pc) && Counted(t) && Counted(t')
      && (WillFail(t) ==> WillFail(t')) && (pc == Asleep ==> !News(s))
    ensures Local(c, s, i, Put(s, i, s.threads[i].(pc := pc, conn := conn)).(noise := noise))
  {
    hide IdsOf, FlightIds, FlightShaped, AllTried, HeldIds, WillFail, Placed, Counted;
    var s' := Put(s, i, s.threads[i].(pc := pc, conn := conn)).(noise := noise);
    assert News(s') == News(s);
    SameHeld(s.threads[i], pc, conn);
  }

  lemma SameHeld(t: Thread, pc: Pc, conn: bool)
    ensures HeldIds(t.(pc := pc, conn := conn)) == HeldIds(t)
  {
  }

  predicate IsQuiet(a: Action) {
    a.Spawn? || a.SpawnFails? || a.Go? || a.Reconnect? || a.Wake? || a.StartReading? || a.Break? || a.Refuse?
    || a.Idle? || a.Recovered? || a.Cleared?
  }

  lemma QuietStep(c: Config, s: State, i: nat, a: Action)
    requires Inv(c, s) && Enabled(c, s, i, a) && IsQuiet(a)
    ensures |After(c, s, i, a).threads| == |s.threads| && Local(c, s, i, After(c, s, i, a))
  {
    hide Inv, Local;
    var t := s.threads[i];
    assert Shaped(c, t) by {
      ShapedAt(c, s, i);
    }
    match a {
      case Spawn => QuietLocal(c, s, i, Top, t.conn, s.noise);
      case SpawnFails => QuietLocal(c, s, i, Leaving, t.conn, s.noise);
      case Go => QuietLocal(c, s, i, if t.conn then Check else if s.error then Leaving else Reconnecting, t.conn,
          s.noise);
      case Reconnect(ok) => QuietLocal(c, s, i, if ok then Check else Leaving, ok || t.conn, s.noise);
      case Wake => QuietLocal(c, s, i, Check, t.conn, s.noise - 1);
      case StartReading => QuietLocal(c, s, i, Reading, t.conn, s.noise);
      case Break => QuietLocal(c, s, i, Recovering(false), false, s.noise);
      case Refuse => QuietLocal(c, s, i, Clearing, false, s.noise);
      case Idle => QuietLocal(c, s, i, Top, t.conn, s.noise - 1);
      case Recovered => QuietLocal(c, s, i, if t.pc.exhausted then Failing else Top, t.conn, s.noise);
      case Cleared => QuietLocal(c, s, i, Failing, t.conn, s.noise);
    }
  }

  lemma ShapedAt(c: Config, s: State, i: nat)
    requires Inv(c, s) && i < |s.threads|
    ensures Shaped(c, s.threads[i])
  {
  }

  lemma TakeLocal(c: Config, s: State, i: nat)
    requires Inv(c, s) && i < |s.threads| && s.threads[i].pc == Check
    requires s.threads[i].flight != [] || Room(c, s, s.threads[i]) > 0
    ensures Local(c, s, i, ToppedUp(c, s, i))
  {
    hide IdsOf, FlightIds, FlightShaped, HeldIds, AllTried, Placed;
    var t := s.threads[i];
    var room := Room(c, s, t);
    CheckHolds(t);
    TakenIds(t, s.queue, room);
    TriedParts(c, s.queue, room);
  }

  lemma CheckHolds(t: Thread)
    requires Placed(t, t.pc) && t.pc == Check
    ensures t.conn && t.taken == [] && t.hand == None
    ensures forall q :: (t.flight != [] || q != []) ==> Placed(t.(pc := Sending, taken := q), Sending)
  {
  }

  /** Taking chunks off the front of the queue moves them. */
  lemma TakenIds(t: Thread, queue: seq<Chunk>, room: nat)
    requires room <= |queue| && t.taken == []
    ensures multiset(IdsOf(queue)) + HeldIds(t)
         == multiset(IdsOf(queue[room..])) + HeldIds(t.(pc := Sending, taken := queue[..room]))
  {
    hide IdsOf, FlightIds;
    assert queue == queue[..room] + queue[room..];
    IdsConcat(queue[..room], queue[room..]);
    NoIds();
  }

  lemma TriedParts(c: Config, chunks: seq<Chunk>, room: nat)
    requires AllTried(c, chunks) && room <= |chunks|
    ensures AllTried(c, chunks[..room]) && AllTried(c, chunks[room..])
  {
    assert forall k :: 0 <= k < |chunks| - room ==> chunks[room..][k] == chunks[room + k];
  }

  lemma {:induction false} TwoCounted(threads: seq<Thread>, i: nat, j: nat)
    requires i < j < |threads| && Counted(threads[i]) && Counted(threads[j])
    ensures CountLive(threads) >= 2
    decreases |threads|
  {
    hide Counted;
    if j < |threads| - 1 {
      TwoCounted(threads[..|threads| - 1], i, j);
    } else {
      HeldMember(threads[..|threads| - 1], i);
    }
  }

  lemma {:induction false} NothingHeld(threads: seq<Thread>)
    requires forall t :: t in threads ==> Idling(t)
    ensures Held(threads) == multiset{}
    decreases |threads|
  {
    if threads != [] {
      NothingHeld(threads[..|threads| - 1]);
      IdlingHolds(threads[|threads| - 1]);
    }
  }

  lemma IdlingHolds(t: Thread)
    requires Idling(t)
    ensures HeldIds(t) == multiset{}
  {
    NoIds();
  }

  /** Threads `i` and `j` both hold chunk `id`. */
  ghost predicate BothHold(threads: seq<Thread>, i: nat, j: nat, id: nat)
    requires i < |threads| && j < |threads|
  {
    id in HeldIds(threads[i]) && id in HeldIds(threads[j])
  }

  /** Short of a failure, each chunk is complete, or else in the queue once or
      with one thread once; and those are the chunks that remain. */
  lemma OnePlaceEach(c: Config, s: State, id: nat)
    requires Inv(c, s) && id < |c.chunks| && !s.error && !SomeoneWillFail(s.threads)
    ensures multiset(IdsOf(s.queue))[id] + Held(s.threads)[id] + s.done[id] == 1
    ensures s.remaining == |s.queue| + |Held(s.threads)|
    ensures forall i, j :: 0 <= i < j < |s.threads| ==> !BothHold(s.threads, i, j, id)
  {
    hide Shaped, News, AllTried, BuffersSized, WillFail, Held, HeldIds;
    AllOnce(|c.chunks|);
    var queued := multiset(IdsOf(s.queue));
    assert s.lost == multiset{};
    assert queued + Held(s.threads) + s.done == All(|c.chunks|);
    assert All(|c.chunks|)[id] == 1;
    assert |queued + Held(s.threads) + s.done| == |c.chunks|;
    forall i, j | 0 <= i < j < |s.threads| ensures !BothHold(s.threads, i, j, id) {
      TwoHolders(s.threads, i, j);
      assert (HeldIds(s.threads[i]) + HeldIds(s.threads[j]))[id] <= Held(s.threads)[id];
    }
  }

  /** With no thread holding anything, nothing queued and nothing going wrong,
      every chunk is complete. */
  lemma AllAccounted(c: Config, s: State)
    requires Inv(c, s) && s.queue == [] && !s.error && !SomeoneWillFail(s.threads)
    requires forall t :: t in s.threads ==> Idling(t)
    ensures s.remaining == 0
  {
    hide Shaped, News, AllTried, BuffersSized, WillFail, Idling;
    NothingHeld(s.threads);
    NoIds();
    AllOnce(|c.chunks|);
    assert s.done == All(|c.chunks|);
  }

  /** The last thread of a transfer never finds chunks unaccounted for. */
  lemma LastFindsNothing(c: Config, s: State, i: nat)
    requires Inv(c, s) && i < |s.threads| && s.threads[i].pc == Check && Idling(s.threads[i])
    requires s.queue == [] && !s.error && s.remaining > 0
    ensures s.live > 1
  {
    LiveAbove(c, s, i);
    if s.live == 1 {
      forall j | 0 <= j < |s.threads|
        ensures Idling(s.threads[j]) && !WillFail(s.threads[j])
      {
        OthersLeft(c, s, i, j);
      }
      AllIdling(s.threads);
      AllAccounted(c, s);
    }
  }

  lemma AllIdling(threads: seq<Thread>)
    requires forall j :: 0 <= j < |threads| ==> Idling(threads[j])
    ensures forall t :: t in threads ==> Idling(t)
  {
  }

  lemma OthersLeft(c: Config, s: State, i: nat, j: nat)
    requires Inv(c, s) && i < |s.threads| && s.threads[i].pc == Check && Idling(s.threads[i])
    requires s.live == 1 && j < |s.threads|
    ensures Idling(s.threads[j]) && !WillFail(s.threads[j])
  {
    ShapedAt(c, s, j);
    if s.threads[j].pc == Notifying(Left) {
      assert Placed(s.threads[j], Left);
    }
    if j != i && Counted(s.threads[j]) {
      if i < j {
        TwoCounted(s.threads, i, j);
      } else {
        TwoCounted(s.threads, j, i);
      }
    }
  }

  lemma TopUpStep(c: Config, s: State, i: nat)
    requires Inv(c, s) && i < |s.threads| && s.threads[i].pc == Check
    ensures |ToppedUp(c, s, i).threads| == |s.threads| && Local(c, s, i, ToppedUp(c, s, i))
  {
    hide Inv, Local;
    var t := s.threads[i];
    ShapedAt(c, s, i);
    if t.flight != [] || Room(c, s, t) > 0 {
      TakeLocal(c, s, i);
    } else if s.error || s.remaining == 0 {
      QuietLocal(c, s, i, Leaving, t.conn, s.noise);
    } else {
      LastFindsNothing(c, s, i);
      QuietLocal(c, s, i, Asleep, t.conn, s.noise);
    }
  }

  lemma LiveAbove(c: Config, s: State, i: nat)
    requires Inv(c, s) && i < |s.threads| && Counted(s.threads[i])
    ensures s.live > 0
  {
    HeldMember(s.threads, i);
  }

  /** Taking a chunk out of what is claimed takes it out of the flight. */
  lemma Unclaim(claimed: multiset<nat>, id: nat, before: multiset<nat>, after: multiset<nat>)
    requires before <= claimed && before == after + multiset{id}
    ensures claimed - multiset{id} + before == claimed + after
  {
    assert before[id] == after[id] + 1;
    forall x ensures (claimed - multiset{id} + before)[x] == (claimed + after)[x] {
    }
  }

  /** What the invariant says of one thread and of what it shares. */
  lemma Facts(c: Config, s: State, i: nat)
    requires Inv(c, s) && i < |s.threads|
    ensures c.WellCut() && Shaped(c, s.threads[i]) && AllTried(c, s.queue) && BuffersSized(c, s)
    ensures multiset(FlightIds(s.threads[i].flight)) <= s.claimed
  {
    HeldMember(s.threads, i);
  }

  lemma FrontIds(flight: seq<InFlight>)
    requires flight != []
    ensures multiset(FlightIds(flight)) == multiset(FlightIds(flight[1..])) + multiset{flight[0].chunk.id}
  {
    hide FlightIds;
    assert flight == [flight[0]] + flight[1..];
    FlightConcat([flight[0]], flight[1..]);
    FlightOne(flight[0]);
  }

  lemma BackIds(flight: seq<InFlight>)
    requires flight != []
    ensures multiset(FlightIds(flight))
         == multiset(FlightIds(flight[..|flight| - 1])) + multiset{flight[|flight| - 1].chunk.id}
  {
    hide FlightIds;
    var n := |flight| - 1;
    assert flight == flight[..n] + [flight[n]];
    FlightConcat(flight[..n], [flight[n]]);
    FlightOne(flight[n]);
  }

  lemma FlightParts(c: Config, flight: seq<InFlight>)
    requires FlightShaped(c, flight) && flight != []
    ensures FlightShaped(c, flight[1..]) && FlightShaped(c, flight[..|flight| - 1])
    ensures Tried(c, flight[0].chunk) && Tried(c, flight[|flight| - 1].chunk)
  {
    var rest, init := flight[1..], flight[..|flight| - 1];
    forall k | 0 <= k < |rest| ensures InFlightShaped(c, rest, k) {
      assert InFlightShaped(c, flight, k + 1);
    }
    forall k | 0 <= k < |init| ensures InFlightShaped(c, init, k) {
      assert InFlightShaped(c, flight, k);
    }
    assert InFlightShaped(c, flight, 0) && InFlightShaped(c, flight, |flight| - 1);
  }

  lemma FlightGrows(c: Config, flight: seq<InFlight>, chunk: Chunk)
    requires c.WellCut() && FlightShaped(c, flight) && Tried(c, chunk)
    ensures FlightShaped(c, flight + [InFlight(chunk, 0)])
  {
    var more := flight + [InFlight(chunk, 0)];
    forall k | 0 <= k < |more| ensures InFlightShaped(c, more, k) {
      if k < |flight| {
        assert InFlightShaped(c, flight, k);
      }
    }
  }

  lemma FlightReceives(c: Config, flight: seq<InFlight>, got: nat)
    requires FlightShaped(c, flight) && flight != []
    requires flight[0].chunk.id < |c.chunks| && got < c.chunks[flight[0].chunk.id].len
    ensures FlightShaped(c, flight[0 := flight[0].(received := got)])
    ensures FlightIds(flight[0 := flight[0].(received := got)]) == FlightIds(flight)
  {
    var now := flight[0 := flight[0].(received := got)];
    forall k | 0 <= k < |now| ensures InFlightShaped(c, now, k) {
      assert InFlightShaped(c, flight, k);
    }
  }

  lemma SendStep(c: Config, s: State, i: nat, ok: bool)
    requires Inv(c, s) && i < |s.threads| && s.threads[i].pc == Sending && s.threads[i].taken != []
    requires s.threads[i].taken[0].id < |c.chunks|
    ensures |Sent(c, s, i, ok).threads| == |s.threads| && Local(c, s, i, Sent(c, s, i, ok))
  {
    hide Inv, IdsOf, FlightIds, FlightShaped, HeldIds, AllTried, Claimable;
    var t := s.threads[i];
    Facts(c, s, i);
    ClaimNeverFails(c, s, i);
    var asked := t.(taken := t.taken[1..], flight := t.flight + [InFlight(t.taken[0], 0)]);
    SentIds(t);
    TriedParts(c, t.taken, 1);
    FirstTried(c, t.taken);
    FlightGrows(c, t.flight, t.taken[0]);
    FlightConcat(t.flight, [InFlight(t.taken[0], 0)]);
    FlightOne(InFlight(t.taken[0], 0));
    SameHeld(asked, GivingBack(true), false);
  }

  lemma FirstTried(c: Config, chunks: seq<Chunk>)
    requires AllTried(c, chunks) && chunks != []
    ensures Tried(c, chunks[0])
  {
  }

  lemma SentIds(t: Thread)
    requires t.taken != []
    ensures HeldIds(t.(taken := t.taken[1..], flight := t.flight + [InFlight(t.taken[0], 0)])) == HeldIds(t)
  {
    hide Inv, IdsOf, FlightIds;
    assert t.taken == [t.taken[0]] + t.taken[1..];
    IdsConcat([t.taken[0]], t.taken[1..]);
    IdsOne(t.taken[0]);
    FlightConcat(t.flight, [InFlight(t.taken[0], 0)]);
    FlightOne(InFlight(t.taken[0], 0));
  }

  lemma ReceiveStep(c: Config, s: State, i: nat, start: nat, bytes: seq<byte>)
    requires Inv(c, s) && Takes(c, s, i, start, bytes) && s.threads[i].pc == Reading
    ensures |Received(c, s, i, start, bytes).threads| == |s.threads|
    ensures Local(c, s, i, Received(c, s, i, start, bytes))
  {
    hide Inv, Local;
    var t := s.threads[i];
    if t.flight[0].received + |bytes| >= c.chunks[t.flight[0].chunk.id].len {
      ReceiveLast(c, s, i, start, bytes);
    } else {
      ReceiveMore(c, s, i, start, bytes);
    }
  }

  lemma ReceiveLast(c: Config, s: State, i: nat, start: nat, bytes: seq<byte>)
    requires Inv(c, s) && Takes(c, s, i, start, bytes) && s.threads[i].pc == Reading
    requires s.threads[i].flight[0].received + |bytes| >= c.chunks[s.threads[i].flight[0].chunk.id].len
    ensures Local(c, s, i, Received(c, s, i, start, bytes))
  {
    hide Inv, IdsOf, FlightIds, FlightShaped, HeldIds, AllTried, Splice, Config.WellCut, BuffersSized;
    var t := s.threads[i];
    var range := c.chunks[t.flight[0].chunk.id];
    Facts(c, s, i);
    FlightParts(c, t.flight);
    SizesKept(c, s, range.part, Splice(s.buffers[range.part], range.offset + start, bytes),
        Received(c, s, i, start, bytes));
    FrontIds(t.flight);
    Unclaim(s.claimed, t.flight[0].chunk.id, multiset(FlightIds(t.flight)), multiset(FlightIds(t.flight[1..])));
    HandFront(t, Completing);
  }

  lemma ReceiveMore(c: Config, s: State, i: nat, start: nat, bytes: seq<byte>)
    requires Inv(c, s) && Takes(c, s, i, start, bytes) && s.threads[i].pc == Reading
    requires s.threads[i].flight[0].received + |bytes| < c.chunks[s.threads[i].flight[0].chunk.id].len
    ensures Local(c, s, i, Received(c, s, i, start, bytes))
  {
    hide Inv, IdsOf, FlightIds, FlightShaped, HeldIds, AllTried, Splice, Config.WellCut, BuffersSized;
    var t := s.threads[i];
    var range := c.chunks[t.flight[0].chunk.id];
    var got := t.flight[0].received + |bytes|;
    Facts(c, s, i);
    SizesKept(c, s, range.part, Splice(s.buffers[range.part], range.offset + start, bytes),
        Received(c, s, i, start, bytes));
    FlightReceives(c, t.flight, got);
    SameFlightIds(t, t.flight[0 := t.flight[0].(received := got)], Top);
  }

  lemma SizesKept(c: Config, s: State, part: nat, buffer: seq<byte>, s': State)
    requires BuffersSized(c, s) && part < |s.buffers| && |buffer| == |s.buffers[part]|
    requires s'.buffers == s.buffers[part := buffer]
    ensures BuffersSized(c, s')
  {
  }

  lemma HandFront(t: Thread, pc: Pc)
    requires t.flight != [] && t.hand == None
    ensures HeldIds(t.(pc := pc, flight := t.flight[1..], hand := Some(t.flight[0].chunk))) == HeldIds(t)
  {
    hide Inv, IdsOf, FlightIds;
    FrontIds(t.flight);
  }

  lemma SameFlightIds(t: Thread, flight: seq<InFlight>, pc: Pc)
    requires FlightIds(flight) == FlightIds(t.flight)
    ensures HeldIds(t.(pc := pc, flight := flight)) == HeldIds(t)
  {
  }

  lemma LoseFront(t: Thread, pc: Pc, conn: bool)
    requires t.flight != []
    ensures HeldIds(t)
         == HeldIds(t.(pc := pc, conn := conn, flight := t.flight[1..])) + multiset{t.flight[0].chunk.id}
  {
    hide Inv, IdsOf, FlightIds;
    FrontIds(t.flight);
  }

  lemma LoseHand(t: Thread, pc: Pc)
    requires t.hand.Some?
    ensures HeldIds(t) == HeldIds(t.(pc := pc, hand := None)) + multiset{t.hand.value.id}
  {
  }

  lemma HandBack(t: Thread)
    requires t.flight != [] && t.hand == None
    ensures HeldIds(t.(flight := t.flight[..|t.flight| - 1], hand := Some(t.flight[|t.flight| - 1].chunk)))
      == HeldIds(t)
  {
    hide IdsOf, FlightIds;
    BackIds(t.flight);
  }

  lemma QueueTaken(t: Thread, queue: seq<Chunk>, pc: Pc)
    ensures multiset(IdsOf(queue)) + HeldIds(t)
         == multiset(IdsOf(t.taken + queue)) + HeldIds(t.(pc := pc, taken := []))
  {
    hide IdsOf, FlightIds;
    IdsConcat(t.taken, queue);
    NoIds();
  }

  lemma QueueHand(t: Thread, queue: seq<Chunk>, pc: Pc, attempts: nat)
    requires t.hand.Some?
    ensures multiset(IdsOf(queue)) + HeldIds(t)
         == multiset(IdsOf([Chunk(t.hand.value.id, attempts)] + queue)) + HeldIds(t.(pc := pc, hand := None))
  {
    hide IdsOf, FlightIds;
    IdsConcat([Chunk(t.hand.value.id, attempts)], queue);
    IdsOne(Chunk(t.hand.value.id, attempts));
  }

  lemma TriedMore(c: Config, a: seq<Chunk>, b: seq<Chunk>)
    requires AllTried(c, a) && AllTried(c, b)
    ensures AllTried(c, a + b)
  {
  }

  lemma ErrorStep(c: Config, s: State, i: nat, retryable: bool, matches: bool)
    requires Inv(c, s) && i < |s.threads| && s.threads[i].pc == Reading && s.threads[i].flight != []
    ensures |Errored(s, i, retryable, matches).threads| == |s.threads|
    ensures Local(c, s, i, Errored(s, i, retryable, matches))
  {
    hide Inv, Local;
    if matches && retryable {
      ErrorKept(c, s, i);
    } else {
      ErrorLost(c, s, i, retryable, matches);
    }
  }

  lemma ErrorKept(c: Config, s: State, i: nat)
    requires Inv(c, s) && i < |s.threads| && s.threads[i].pc == Reading && s.threads[i].flight != []
    ensures Local(c, s, i, Errored(s, i, true, true))
  {
    hide Inv, IdsOf, FlightIds, FlightShaped, HeldIds, AllTried, Config.WellCut, BuffersSized, Tried;
    var t := s.threads[i];
    Facts(c, s, i);
    SizesSame(c, s, Errored(s, i, true, true));
    FlightParts(c, t.flight);
    FrontIds(t.flight);
    Unclaim(s.claimed, t.flight[0].chunk.id, multiset(FlightIds(t.flight)), multiset(FlightIds(t.flight[1..])));
    HandFront(t, OnError);
  }

  lemma ErrorLost(c: Config, s: State, i: nat, retryable: bool, matches: bool)
    requires Inv(c, s) && i < |s.threads| && s.threads[i].pc == Reading && s.threads[i].flight != []
    requires !(matches && retryable)
    ensures Local(c, s, i, Errored(s, i, retryable, matches))
  {
    hide Inv, IdsOf, FlightIds, FlightShaped, HeldIds, AllTried, Config.WellCut, BuffersSized, Tried;
    var t := s.threads[i];
    Facts(c, s, i);
    SizesSame(c, s, Errored(s, i, retryable, matches));
    FlightParts(c, t.flight);
    FrontIds(t.flight);
    Unclaim(s.claimed, t.flight[0].chunk.id, multiset(FlightIds(t.flight)), multiset(FlightIds(t.flight[1..])));
    if matches {
      LoseFront(t, Failing, t.conn);
    } else {
      LoseFront(t, Clearing, false);
    }
  }

  lemma CompleteStep(c: Config, s: State, i: nat)
    requires Inv(c, s) && i < |s.threads| && s.threads[i].pc == Completing && s.threads[i].hand.Some? && s.remaining > 0
    ensures |Completed(s, i).threads| == |s.threads| && Local(c, s, i, Completed(s, i))
  {
    hide Inv, HeldIds, IdsOf, FlightIds, FlightShaped, AllTried, Config.WellCut;
    var t := s.threads[i];
    Facts(c, s, i);
    LoseHand(t, Top);
    LoseHand(t, Notifying(Top));
    assert |s.done + multiset{t.hand.value.id}| == |s.done| + 1;
    assert Placed(t.(pc := Notifying(Top), hand := None), Top);
  }

  lemma GiveBackStep(c: Config, s: State, i: nat)
    requires Inv(c, s) && i < |s.threads| && s.threads[i].pc.GivingBack?
    ensures |GaveBack(s, i).threads| == |s.threads| && Local(c, s, i, GaveBack(s, i))
  {
    hide Inv, HeldIds, IdsOf, FlightIds, FlightShaped, AllTried, Config.WellCut;
    var t := s.threads[i];
    Facts(c, s, i);
    SameHeld(t, Recovering(false), t.conn);
    QueueTaken(t, s.queue, Notifying(Recovering(false)));
    TriedMore(c, t.taken, s.queue);
    NoneTried(c);
    assert Placed(t.(pc := Notifying(Recovering(false)), taken := []), Recovering(false));
  }

  lemma NoneTried(c: Config)
    ensures AllTried(c, [])
  {
  }

  lemma DropStep(c: Config, s: State, i: nat)
    requires Inv(c, s) && i < |s.threads|
    requires s.threads[i].pc.Recovering? && s.threads[i].hand.None? && s.threads[i].flight != []
    ensures |Dropped(s, i).threads| == |s.threads| && Local(c, s, i, Dropped(s, i))
  {
    hide Inv, HeldIds, IdsOf, FlightIds, FlightShaped, AllTried, Config.WellCut;
    var t := s.threads[i];
    var n := |t.flight| - 1;
    Facts(c, s, i);
    FlightParts(c, t.flight);
    BackIds(t.flight);
    Unclaim(s.claimed, t.flight[n].chunk.id, multiset(FlightIds(t.flight)), multiset(FlightIds(t.flight[..n])));
    HandBack(t);
  }

  lemma RetryStep(c: Config, s: State, i: nat)
    requires Inv(c, s) && i < |s.threads|
    requires (s.threads[i].pc.Recovering? || s.threads[i].pc == OnError) && s.threads[i].hand.Some?
    ensures |Retried(c, s, i).threads| == |s.threads| && Local(c, s, i, Retried(c, s, i))
  {
    hide Inv, Local;
    if Charged(s.threads[i]) > c.maxRetries {
      RetryLost(c, s, i);
    } else {
      RetryAgain(c, s, i);
    }
  }

  lemma RetryLost(c: Config, s: State, i: nat)
    requires Inv(c, s) && i < |s.threads|
    requires (s.threads[i].pc.Recovering? || s.threads[i].pc == OnError) && s.threads[i].hand.Some?
    requires Charged(s.threads[i]) > c.maxRetries
    ensures Local(c, s, i, Retried(c, s, i))
  {
    hide Inv, HeldIds, IdsOf, FlightIds, FlightShaped, AllTried, Config.WellCut, BuffersSized, Charged;
    var t := s.threads[i];
    Facts(c, s, i);
    SizesSame(c, s, Retried(c, s, i));
    LoseHand(t, if t.pc.Recovering? then Recovering(true) else Failing);
  }

  lemma RetryAgain(c: Config, s: State, i: nat)
    requires Inv(c, s) && i < |s.threads|
    requires (s.threads[i].pc.Recovering? || s.threads[i].pc == OnError) && s.threads[i].hand.Some?
    requires Charged(s.threads[i]) <= c.maxRetries
    ensures Local(c, s, i, Retried(c, s, i))
  {
    hide Inv, HeldIds, IdsOf, FlightIds, FlightShaped, AllTried, Config.WellCut, BuffersSized, Charged;
    var t := s.threads[i];
    var chunk := Chunk(t.hand.value.id, Charged(t));
    var next := if t.pc.Recovering? then t.pc else Top;
    Facts(c, s, i);
    SizesSame(c, s, Retried(c, s, i));
    QueueHand(t, s.queue, Notifying(next), Charged(t));
    OneTried(c, chunk);
    TriedMore(c, [chunk], s.queue);
    assert Placed(t.(pc := Notifying(next), hand := None), next);
  }

  lemma SizesSame(c: Config, s: State, s': State)
    requires BuffersSized(c, s) && s'.buffers == s.buffers
    ensures BuffersSized(c, s')
  {
  }

  lemma OneTried(c: Config, chunk: Chunk)
    requires Tried(c, chunk)
    ensures AllTried(c, [chunk])
  {
  }

  lemma ClearStep(c: Config, s: State, i: nat)
    requires Inv(c, s) && i < |s.threads| && s.threads[i].pc == Clearing && s.threads[i].flight != []
    ensures |Forgotten(s, i).threads| == |s.threads| && Local(c, s, i, Forgotten(s, i))
  {
    hide Inv, IdsOf, FlightIds, FlightShaped, AllTried, Config.WellCut, HeldIds;
    var t := s.threads[i];
    Facts(c, s, i);
    FlightParts(c, t.flight);
    FrontIds(t.flight);
    Unclaim(s.claimed, t.flight[0].chunk.id, multiset(FlightIds(t.flight)), multiset(FlightIds(t.flight[1..])));
    LoseFront(t, t.pc, t.conn);
  }

  lemma FailStep(c: Config, s: State, i: nat)
    requires Inv(c, s) && i < |s.threads| && s.threads[i].pc == Failing
    ensures |Failed(s, i).threads| == |s.threads| && Local(c, s, i, Failed(s, i))
  {
    hide Inv, IdsOf, FlightIds, FlightShaped, AllTried, Config.WellCut;
    Facts(c, s, i);
    assert Placed(s.threads[i].(pc := Notifying(Top)), Top);
  }

  lemma LeaveStep(c: Config, s: State, i: nat)
    requires Inv(c, s) && i < |s.threads| && s.threads[i].pc == Leaving && s.live > 0
    ensures |Departed(s, i).threads| == |s.threads| && Local(c, s, i, Departed(s, i))
  {
    hide Inv, IdsOf, FlightIds, FlightShaped, AllTried, Config.WellCut;
    Facts(c, s, i);
    assert Placed(s.threads[i].(pc := Notifying(Left)), Left);
  }

  lemma WokenSame(t: Thread)
    ensures HeldIds(Woken(t)) == HeldIds(t) && Woken(t).flight == t.flight
    ensures Counted(Woken(t)) == Counted(t) && WillFail(Woken(t)) == WillFail(t)
    ensures Woken(t).pc != Asleep
  {
  }

  lemma WokenShaped(c: Config, t: Thread)
    requires Shaped(c, t)
    ensures Shaped(c, Woken(t))
  {
  }

  lemma {:induction false} WokenHold(threads: seq<Thread>)
    ensures Held(AllWoken(threads)) == Held(threads) && Flown(AllWoken(threads)) == Flown(threads)
    ensures CountLive(AllWoken(threads)) == CountLive(threads)
    decreases |threads|
  {
    hide HeldIds, Counted, FlightIds, Woken;
    if threads != [] {
      var init, last := threads[..|threads| - 1], threads[|threads| - 1];
      WokenHold(init);
      assert AllWoken(threads)[..|threads| - 1] == AllWoken(init);
      WokenSame(last);
    }
  }

  /** Everyone asleep is awake, and the one who told them moved on. */
  lemma NotifyStep(c: Config, s: State, i: nat)
    requires Inv(c, s) && i < |s.threads| && s.threads[i].pc.Notifying?
    ensures Inv(c, s.(threads := AllWoken(s.threads)[i := s.threads[i].(pc := s.threads[i].pc.next)]))
  {
    hide Shaped, HeldIds, Counted, FlightIds, AllTried, Config.WellCut, WillFail, AllWoken;
    var t := s.threads[i];
    var woken := AllWoken(s.threads);
    var t' := t.(pc := t.pc.next);
    var now := woken[i := t'];
    WokenAt(c, s, i);
    WokenHold(s.threads);
    HeldUpdate(woken, i, t');
    FlownUpdate(woken, i, t');
    LiveUpdate(woken, i, t');
    CancelSame(Held(now), Held(woken), HeldIds(t));
    CancelSame(Flown(now), Flown(woken), multiset(FlightIds(t.flight)));
    if SomeoneWillFail(s.threads) {
      StillFails(s.threads, i);
    }
    NobodySleeps(s.threads, i);
  }

  lemma WokenAt(c: Config, s: State, i: nat)
    requires Inv(c, s) && i < |s.threads| && s.threads[i].pc.Notifying?
    ensures var t := s.threads[i]; var t' := t.(pc := t.pc.next);
      && AllWoken(s.threads)[i] == t && HeldIds(t') == HeldIds(t) && Counted(t') == Counted(t)
      && t.pc.next != Asleep && AllShaped(c, AllWoken(s.threads)[i := t'])
  {
    var t := s.threads[i];
    var t' := t.(pc := t.pc.next);
    NextShaped(c, t);
    var now := AllWoken(s.threads)[i := t'];
    forall k | 0 <= k < |now| ensures Shaped(c, now[k]) {
      ShapedAt(c, s, k);
      WokenShaped(c, s.threads[k]);
    }
  }

  lemma NextShaped(c: Config, t: Thread)
    requires Shaped(c, t) && t.pc.Notifying?
    ensures Shaped(c, t.(pc := t.pc.next)) && HeldIds(t.(pc := t.pc.next)) == HeldIds(t)
    ensures Counted(t.(pc := t.pc.next)) == Counted(t) && (WillFail(t) ==> WillFail(t.(pc := t.pc.next)))
    ensures t.pc.next != Asleep
  {
    SameHeld(t, t.pc.next, t.conn);
    SamePlaced(t, t.(pc := t.pc.next), t.pc.next);
  }

  lemma SamePlaced(t: Thread, t': Thread, pc: Pc)
    requires Placed(t, pc) && t.taken == t'.taken && t.flight == t'.flight && t.hand == t'.hand && t.conn == t'.conn
    requires pc == Top || pc.Recovering? || pc == Left
    ensures Placed(t', pc)
  {
  }

  lemma CancelSame(a: multiset<nat>, b: multiset<nat>, x: multiset<nat>)
    requires a + x == b + x
    ensures a == b
  {
    forall k ensures a[k] == b[k] {
      assert (a + x)[k] == (b + x)[k];
    }
  }

  lemma StillFails(threads: seq<Thread>, i: nat)
    requires i < |threads| && threads[i].pc.Notifying? && SomeoneWillFail(threads)
    ensures SomeoneWillFail(AllWoken(threads)[i := threads[i].(pc := threads[i].pc.next)])
  {
    var now := AllWoken(threads)[i := threads[i].(pc := threads[i].pc.next)];
    var j :| 0 <= j < |threads| && WillFail(threads[j]);
    WokenSame(threads[j]);
    assert WillFail(now[j]);
  }

  lemma NobodySleeps(threads: seq<Thread>, i: nat)
    requires i < |threads| && threads[i].pc.Notifying? && threads[i].pc.next != Asleep
    ensures !SomeoneSleeps(AllWoken(threads)[i := threads[i].(pc := threads[i].pc.next)])
  {
  }

  /** A step other than waking the rest accounts for all it moves. */
  lemma StepIsLocal(c: Config, s: State, i: nat, a: Action)
    requires Inv(c, s) && Enabled(c, s, i, a) && !a.NotifyAll?
    ensures |After(c, s, i, a).threads| == |s.threads| && Local(c, s, i, After(c, s, i, a))
  {
    hide Inv, Local;
    match a {
      case TopUp => TopUpStep(c, s, i);
      case SendNext(ok) => SendStep(c, s, i, ok);
      case GetData(start, bytes) => ReceiveStep(c, s, i, start, bytes);
      case GetError(retryable, matches) => ErrorStep(c, s, i, retryable, matches);
      case Complete => CompleteStep(c, s, i);
      case GiveBack => GiveBackStep(c, s, i);
      case DropSlice => DropStep(c, s, i);
      case Retry => RetryStep(c, s, i);
      case ClearOne => ClearStep(c, s, i);
      case Fail => FailStep(c, s, i);
      case Leave => LeaveStep(c, s, i);
      case _ => QuietStep(c, s, i, a);
    }
  }

  /** Every step keeps the invariant. */
  lemma StepKeeps(c: Config, s: State, i: nat, a: Action)
    requires Inv(c, s) && Enabled(c, s, i, a)
    ensures Inv(c, After(c, s, i, a))
  {
    hide Inv, Local;
    if a.NotifyAll? {
      NotifyStep(c, s, i);
    } else {
      StepIsLocal(c, s, i, a);
      LocalKeeps(c, s, i, After(c, s, i, a));
    }
  }

  lemma InitInv(c: Config, s: State)
    requires Init(c, s)
    ensures Inv(c, s)
  {
    hide HeldIds, Counted, FlightIds, AllTried, Config.WellCut, WillFail;
    forall i | 0 <= i < |s.threads| ensures Shaped(c, s.threads[i]) && Counted(s.threads[i]) {
      assert s.threads[i] in s.threads;
      StartShaped(c, s.threads[i]);
    }
    NothingHeld(s.threads);
    FlownHeld(s.threads);
    AllCounted(s.threads);
    UntriedIds(c, |c.chunks|);
    NobodyYet(s.threads);
  }

  lemma StartShaped(c: Config, t: Thread)
    requires t.pc == Start && Idling(t)
    ensures Shaped(c, t) && Counted(t)
  {
  }

  lemma NobodyYet(threads: seq<Thread>)
    requires forall t :: t in threads ==> t.pc == Start
    ensures !SomeoneSleeps(threads) && !SomeoneWillFail(threads)
  {
  }

  lemma {:induction false} AllCounted(threads: seq<Thread>)
    requires forall i :: 0 <= i < |threads| ==> Counted(threads[i])
    ensures CountLive(threads) == |threads|
    decreases |threads|
  {
    if threads != [] {
      AllCounted(threads[..|threads| - 1]);
    }
  }

  lemma {:induction false} UntriedIds(c: Config, n: nat)
    ensures multiset(IdsOf(Untried(n))) == All(n) && AllTried(c, Untried(n))
    decreases n
  {
    if n > 0 {
      UntriedIds(c, n - 1);
      assert Untried(n) == Untried(n - 1) + [Chunk(n - 1, 0)];
      IdsConcat(Untried(n - 1), [Chunk(n - 1, 0)]);
      IdsOne(Chunk(n - 1, 0));
    } else {
      assert Untried(0) == [];
    }
  }

  /** A thread that is neither asleep nor gone can always go on. */
  lemma AwakeGoesOn(c: Config, s: State, i: nat)
    requires Inv(c, s) && i < |s.threads| && s.threads[i].pc != Asleep && s.threads[i].pc != Left
    ensures exists a :: Enabled(c, s, i, a)
  {
    hide Inv, FlightShaped, AllTried, Claimable, Takes;
    var t := s.threads[i];
    ShapedAt(c, s, i);
    match t.pc {
      case Start => assert Enabled(c, s, i, Spawn);
      case Top => assert Enabled(c, s, i, Go);
      case Reconnecting => assert Enabled(c, s, i, Reconnect(true));
      case Check => assert Enabled(c, s, i, TopUp);
      case Sending =>
        if t.taken == [] {
          assert Enabled(c, s, i, StartReading);
        } else {
          ClaimNeverFails(c, s, i);
          assert Enabled(c, s, i, SendNext(true));
        }
      case Reading => assert Enabled(c, s, i, Break);
      case Completing =>
        UnfinishedLeft(c, s, i);
        assert Enabled(c, s, i, Complete);
      case GivingBack(_) => assert Enabled(c, s, i, GiveBack);
      case Recovering(_) =>
        assert Enabled(c, s, i, if t.hand.Some? then Retry else if t.flight != [] then DropSlice else Recovered);
      case OnError => assert Enabled(c, s, i, Retry);
      case Clearing => assert Enabled(c, s, i, if t.flight != [] then ClearOne else Cleared);
      case Failing => assert Enabled(c, s, i, Fail);
      case Notifying(_) => assert Enabled(c, s, i, NotifyAll);
      case Leaving =>
        LiveAbove(c, s, i);
        assert Enabled(c, s, i, Leave);
    }
  }

  /** A chunk in hand is not complete yet. */
  lemma UnfinishedLeft(c: Config, s: State, i: nat)
    requires Inv(c, s) && i < |s.threads| && s.threads[i].hand.Some?
    ensures s.remaining > 0
  {
    hide Shaped, News, AllTried, BuffersSized, WillFail, IdsOf, FlightIds;
    var id := s.threads[i].hand.value.id;
    HeldMember(s.threads, i);
    AllOnce(|c.chunks|);
    assert id in Held(s.threads);
    assert |s.done| < |All(|c.chunks|)| by {
      FewerDone(c, s, id);
    }
  }

  lemma FewerDone(c: Config, s: State, id: nat)
    requires Conserved(c, s) && id in Held(s.threads)
    ensures |s.done| < |All(|c.chunks|)|
  {
    var q := multiset(IdsOf(s.queue));
    assert |q + Held(s.threads) + s.done + s.lost| == |q| + |Held(s.threads)| + |s.done| + |s.lost|;
    assert |Held(s.threads)| > 0;
  }

  /** Never is every thread that is left asleep: someone is still on the way to
      finishing a chunk, or to telling the others. */
  lemma NeverAllAsleep(c: Config, s: State, i: nat)
    requires Inv(c, s) && i < |s.threads| && s.threads[i].pc == Asleep
    ensures exists j :: 0 <= j < |s.threads| && s.threads[j].pc != Asleep && s.threads[j].pc != Left
  {
    if forall j :: 0 <= j < |s.threads| ==> s.threads[j].pc == Asleep || s.threads[j].pc == Left {
      assert SomeoneSleeps(s.threads);
      assert !SomeoneNotifies(s.threads);
      assert !SomeoneWillFail(s.threads);
      forall j | 0 <= j < |s.threads| ensures Idling(s.threads[j]) {
        ShapedAt(c, s, j);
      }
      AllIdling(s.threads);
      AllAccounted(c, s);
    }
  }

  /** Until every thread has left, some thread can take a step. */
  lemma NoDeadlock(c: Config, s: State, i: nat)
    requires Inv(c, s) && i < |s.threads| && s.threads[i].pc != Left
    ensures exists j, a :: Enabled(c, s, j, a)
  {
    hide Inv, Enabled;
    if s.threads[i].pc == Asleep {
      NeverAllAsleep(c, s, i);
      var j :| 0 <= j < |s.threads| && s.threads[j].pc != Asleep && s.threads[j].pc != Left;
      AwakeGoesOn(c, s, j);
    } else {
      AwakeGoesOn(c, s, i);
    }
  }
}
