/** What every step of the pool keeps: no chunk is lost or doubled, no claim
    conflicts, and nobody sleeps through what it waits for. */
module PoolSafety {
  import opened Words
  import opened Pool

  ghost function IdsOf(chunks: seq<Chunk>): (ids: seq<nat>)
    ensures |ids| == |chunks|
  {
    seq(|chunks|, k requires 0 <= k < |chunks| => chunks[k].id)
  }

  ghost function FlightIds(flight: seq<InFlight>): (ids: seq<nat>)
    ensures |ids| == |flight|
  {
    seq(|flight|, k requires 0 <= k < |flight| => flight[k].chunk.id)
  }

  ghost function HandIds(hand: Option<Chunk>): multiset<nat> {
    if hand.Some? then multiset{hand.value.id} else multiset{}
  }

  /** The chunks a thread has, by their numbers. */
  ghost function HeldIds(t: Thread): multiset<nat> {
    multiset(IdsOf(t.taken)) + multiset(FlightIds(t.flight)) + HandIds(t.hand)
  }

  ghost function Held(threads: seq<Thread>): multiset<nat> {
    if threads == [] then multiset{} else Held(threads[..|threads| - 1]) + HeldIds(threads[|threads| - 1])
  }

  ghost function Flown(threads: seq<Thread>): multiset<nat> {
    if threads == [] then multiset{}
    else Flown(threads[..|threads| - 1]) + multiset(FlightIds(threads[|threads| - 1].flight))
  }

  ghost predicate Counted(t: Thread) {
    t.pc != Left && t.pc != Notifying(Left)
  }

  ghost function CountLive(threads: seq<Thread>): nat {
    if threads == [] then 0
    else CountLive(threads[..|threads| - 1]) + if Counted(threads[|threads| - 1]) then 1 else 0
  }

  /** Every chunk of the batch, once. */
  ghost function All(n: nat): multiset<nat> {
    if n == 0 then multiset{} else All(n - 1) + multiset{n - 1}
  }

  lemma {:induction false} AllOnce(n: nat)
    ensures |All(n)| == n
    ensures forall x: nat :: All(n)[x] == if x < n then 1 else 0
    decreases n
  {
    if n > 0 {
      AllOnce(n - 1);
      forall x: nat ensures All(n)[x] == if x < n then 1 else 0 {
        assert All(n)[x] == All(n - 1)[x] + multiset{n - 1 as nat}[x];
      }
    }
  }

  lemma AddBoth(a: multiset<nat>, x: multiset<nat>, b: multiset<nat>, y: multiset<nat>, z: multiset<nat>)
    requires a + x == b + y
    ensures (a + z) + x == (b + z) + y
  {
    assert (a + z) + x == (a + x) + z;
  }

  lemma Swapped(a: multiset<nat>, x: multiset<nat>, y: multiset<nat>)
    ensures (a + x) + y == (a + y) + x
  {
  }

  lemma UpdateInit(threads: seq<Thread>, i: nat, t: Thread)
    requires i < |threads|
    ensures var now := threads[i := t];
      && |now| == |threads|
      && (i < |threads| - 1 ==>
            now[..|now| - 1] == threads[..|threads| - 1][i := t] && now[|now| - 1] == threads[|threads| - 1])
      && (i == |threads| - 1 ==> now[..|now| - 1] == threads[..|threads| - 1] && now[|now| - 1] == t)
  {
  }

  lemma {:induction false} HeldUpdate(threads: seq<Thread>, i: nat, t: Thread)
    requires i < |threads|
    ensures Held(threads[i := t]) + HeldIds(threads[i]) == Held(threads) + HeldIds(t)
    decreases |threads|
  {
    hide HeldIds;
    var init, last := threads[..|threads| - 1], threads[|threads| - 1];
    UpdateInit(threads, i, t);
    if i == |threads| - 1 {
      Swapped(Held(init), HeldIds(t), HeldIds(last));
    } else {
      HeldUpdate(init, i, t);
      AddBoth(Held(init[i := t]), HeldIds(threads[i]), Held(init), HeldIds(t), HeldIds(last));
    }
  }

  lemma {:induction false} FlownUpdate(threads: seq<Thread>, i: nat, t: Thread)
    requires i < |threads|
    ensures Flown(threads[i := t]) + multiset(FlightIds(threads[i].flight))
         == Flown(threads) + multiset(FlightIds(t.flight))
    decreases |threads|
  {
    hide FlightIds;
    var init, last := threads[..|threads| - 1], threads[|threads| - 1];
    UpdateInit(threads, i, t);
    if i == |threads| - 1 {
      Swapped(Flown(init), multiset(FlightIds(t.flight)), multiset(FlightIds(last.flight)));
    } else {
      FlownUpdate(init, i, t);
      AddBoth(Flown(init[i := t]), multiset(FlightIds(threads[i].flight)), Flown(init),
              multiset(FlightIds(t.flight)), multiset(FlightIds(last.flight)));
    }
  }

  lemma {:induction false} LiveUpdate(threads: seq<Thread>, i: nat, t: Thread)
    requires i < |threads|
    ensures CountLive(threads[i := t]) + (if Counted(threads[i]) then 1 else 0)
         == CountLive(threads) + (if Counted(t) then 1 else 0)
    decreases |threads|
  {
    hide Counted;
    UpdateInit(threads, i, t);
    if i < |threads| - 1 {
      LiveUpdate(threads[..|threads| - 1], i, t);
    }
  }

  lemma {:induction false} HeldMember(threads: seq<Thread>, i: nat)
    requires i < |threads|
    ensures HeldIds(threads[i]) <= Held(threads)
    ensures multiset(FlightIds(threads[i].flight)) <= Flown(threads)
    ensures Counted(threads[i]) ==> CountLive(threads) > 0
    decreases |threads|
  {
    hide HeldIds, Counted;
    if i < |threads| - 1 {
      HeldMember(threads[..|threads| - 1], i);
    }
  }

  /** What two threads hold adds up. */
  lemma {:induction false} TwoHolders(threads: seq<Thread>, i: nat, j: nat)
    requires i < j < |threads|
    ensures HeldIds(threads[i]) + HeldIds(threads[j]) <= Held(threads)
    decreases |threads|
  {
    hide HeldIds;
    var init := threads[..|threads| - 1];
    if j < |threads| - 1 {
      TwoHolders(init, i, j);
    } else {
      HeldMember(init, i);
    }
  }

  lemma {:induction false} FlownHeld(threads: seq<Thread>)
    ensures Flown(threads) <= Held(threads)
    decreases |threads|
  {
    if threads != [] {
      FlownHeld(threads[..|threads| - 1]);
    }
  }

  /** Each unfinished chunk is in exactly one place. */
  ghost predicate Conserved(c: Config, s: State) {
    multiset(IdsOf(s.queue)) + Held(s.threads) + s.done + s.lost == All(|c.chunks|)
  }

  ghost predicate Tried(c: Config, chunk: Chunk) {
    chunk.attempts <= c.maxRetries
  }

  ghost predicate AllTried(c: Config, chunks: seq<Chunk>) {
    forall k :: 0 <= k < |chunks| ==> Tried(c, chunks[k])
  }

  /** Only the oldest fetch is being answered, and none has all its bytes. */
  ghost predicate FlightShaped(c: Config, flight: seq<InFlight>) {
    forall k :: 0 <= k < |flight| ==> InFlightShaped(c, flight, k)
  }

  ghost predicate InFlightShaped(c: Config, flight: seq<InFlight>, k: nat)
    requires k < |flight|
  {
    && Tried(c, flight[k].chunk)
    && (k > 0 ==> flight[k].received == 0)
    && (flight[k].chunk.id < |c.chunks| ==> flight[k].received < c.chunks[flight[k].chunk.id].len)
  }

  ghost predicate Idling(t: Thread) {
    t.taken == [] && t.flight == [] && t.hand == None
  }

  /** What a thread holds at each point of its loop. */
  ghost predicate Placed(t: Thread, pc: Pc) {
    match pc
    case Start => Idling(t)
    case Top => t.taken == [] && t.hand == None && (!t.conn ==> t.flight == [])
    case Reconnecting => Idling(t)
    case Check => t.conn && t.taken == [] && t.hand == None
    case Asleep => Idling(t) && t.conn
    case Sending => t.conn && t.hand == None && (t.flight != [] || t.taken != [])
    case Reading => t.conn && t.taken == [] && t.hand == None && t.flight != []
    case Completing => t.conn && t.taken == [] && t.hand.Some?
    case GivingBack(io) => io && !t.conn && t.hand == None && t.flight != []
    case Recovering(_) => !t.conn && t.taken == []
    case OnError => t.conn && t.taken == [] && t.hand.Some?
    case Clearing => !t.conn && t.taken == [] && t.hand == None
    case Failing => t.taken == [] && t.hand == None && (!t.conn ==> t.flight == [])
    case Notifying(next) => (next == Top || next.Recovering? || next == Left) && Placed(t, next)
    case Leaving => Idling(t)
    case Left => Idling(t)
  }

  ghost predicate Shaped(c: Config, t: Thread) {
    && Placed(t, t.pc)
    && AllTried(c, t.taken) && FlightShaped(c, t.flight)
    && (t.hand.Some? ==> Tried(c, t.hand.value))
    && |t.taken| + |t.flight| <= c.Credit()
  }

  ghost predicate AllShaped(c: Config, threads: seq<Thread>) {
    forall i :: 0 <= i < |threads| ==> Shaped(c, threads[i])
  }

  ghost predicate WillFail(t: Thread) {
    t.pc == Failing || t.pc == Clearing || t.pc == Recovering(true) || t.pc == Notifying(Recovering(true))
  }

  ghost predicate SomeoneWillFail(threads: seq<Thread>) {
    exists i :: 0 <= i < |threads| && WillFail(threads[i])
  }

  ghost predicate SomeoneSleeps(threads: seq<Thread>) {
    exists i :: 0 <= i < |threads| && threads[i].pc == Asleep
  }

  ghost predicate SomeoneNotifies(threads: seq<Thread>) {
    exists i :: 0 <= i < |threads| && threads[i].pc.Notifying?
  }

  /** There is something a sleeping thread would want to know. */
  ghost predicate News(s: State) {
    s.queue != [] || s.error || s.remaining == 0 || s.live <= 1
  }

  ghost predicate BuffersSized(c: Config, s: State) {
    |s.buffers| == |c.sizes| && forall p :: 0 <= p < |c.sizes| ==> |s.buffers[p]| == c.sizes[p]
  }

  ghost predicate Inv(c: Config, s: State) {
    && c.WellCut() && Conserved(c, s)
    && AllShaped(c, s.threads)
    && AllTried(c, s.queue)
    && s.remaining + |s.done| == |c.chunks|
    && s.live == CountLive(s.threads) && s.claimed == Flown(s.threads)
    && (s.lost != multiset{} ==> s.error || SomeoneWillFail(s.threads))
    && (SomeoneSleeps(s.threads) && News(s) ==> SomeoneNotifies(s.threads))
    && BuffersSized(c, s)
  }

  /** What one thread's step has to answer for. */
  ghost predicate Local(c: Config, s: State, i: nat, s': State)
    requires i < |s.threads| == |s'.threads|
  {
    var t, t' := s.threads[i], s'.threads[i];
    && s'.threads == s.threads[i := t']
    && Shaped(c, t') && AllTried(c, s'.queue) && BuffersSized(c, s')
    && multiset(IdsOf(s.queue)) + HeldIds(t) + s.done + s.lost
       == multiset(IdsOf(s'.queue)) + HeldIds(t') + s'.done + s'.lost
    && s'.claimed + multiset(FlightIds(t.flight)) == s.claimed + multiset(FlightIds(t'.flight))
    && s'.live + (if Counted(t) then 1 else 0) == s.live + (if Counted(t') then 1 else 0)
    && s'.remaining + |s'.done| == s.remaining + |s.done|
    && Fails(s, t, s', t') && Wakes(s, t, s', t')
  }

  /** A chunk is only lost on the way to recording an error. */
  ghost predicate Fails(s: State, t: Thread, s': State, t': Thread) {
    && (s.error ==> s'.error)
    && (s'.lost == s.lost || s'.error || WillFail(t'))
    && (WillFail(t) ==> s'.error || WillFail(t'))
  }

  /** Whoever makes news goes on to tell it, and nobody falls asleep on it. */
  ghost predicate Wakes(s: State, t: Thread, s': State, t': Thread) {
    && !t.pc.Notifying?
    && (News(s') ==> News(s) || t'.pc.Notifying?)
    && (t'.pc == Asleep ==> !News(s'))
  }

  lemma Balance(q: multiset<nat>, h: multiset<nat>, d: multiset<nat>, l: multiset<nat>,
      q': multiset<nat>, h': multiset<nat>, d': multiset<nat>, l': multiset<nat>, mine: multiset<nat>,
          mine': multiset<nat>)
    requires h' + mine == h + mine'
    requires q + mine + d + l == q' + mine' + d' + l'
    ensures q' + h' + d' + l' == q + h + d + l
  {
    forall x ensures (q' + h' + d' + l')[x] == (q + h + d + l)[x] {
      assert (h' + mine)[x] == (h + mine')[x];
      assert (q + mine + d + l)[x] == (q' + mine' + d' + l')[x];
    }
  }

  lemma Cancel(claimed: multiset<nat>, claimed': multiset<nat>, flown': multiset<nat>, mine: multiset<nat>,
      mine': multiset<nat>)
    requires flown' + mine == claimed + mine' && claimed' + mine == claimed + mine'
    ensures claimed' == flown'
  {
    forall x ensures claimed'[x] == flown'[x] {
      assert (flown' + mine)[x] == (claimed' + mine)[x];
    }
  }

  lemma LocalKeeps(c: Config, s: State, i: nat, s': State)
    requires Inv(c, s) && i < |s.threads| == |s'.threads| && Local(c, s, i, s')
    ensures Inv(c, s')
  {
    hide Shaped, HeldIds, Counted, IdsOf, FlightIds, WillFail, BuffersSized, AllTried, Config.WellCut, News;
    var t, t' := s.threads[i], s'.threads[i];
    HeldUpdate(s.threads, i, t');
    FlownUpdate(s.threads, i, t');
    LiveUpdate(s.threads, i, t');
    Balance(multiset(IdsOf(s.queue)), Held(s.threads), s.done, s.lost,
            multiset(IdsOf(s'.queue)), Held(s'.threads), s'.done, s'.lost, HeldIds(t), HeldIds(t'));
    Cancel(s.claimed, s'.claimed, Flown(s'.threads), multiset(FlightIds(t.flight)), multiset(FlightIds(t'.flight)));
    FailureKept(s, i, s');
    WakingKept(s, i, s');
  }

  lemma FailureKept(s: State, i: nat, s': State)
    requires i < |s.threads| == |s'.threads| && s'.threads == s.threads[i := s'.threads[i]]
    requires s.lost != multiset{} ==> s.error || SomeoneWillFail(s.threads)
    requires Fails(s, s.threads[i], s', s'.threads[i])
    ensures s'.lost != multiset{} ==> s'.error || SomeoneWillFail(s'.threads)
  {
    hide WillFail;
    if s'.lost != multiset{} && !s'.error && !WillFail(s'.threads[i]) {
      var j :| 0 <= j < |s.threads| && WillFail(s.threads[j]);
      assert j != i && WillFail(s'.threads[j]);
    } else if WillFail(s'.threads[i]) {
      assert SomeoneWillFail(s'.threads);
    }
  }

  lemma WakingKept(s: State, i: nat, s': State)
    requires i < |s.threads| == |s'.threads| && s'.threads == s.threads[i := s'.threads[i]]
    requires SomeoneSleeps(s.threads) && News(s) ==> SomeoneNotifies(s.threads)
    requires Wakes(s, s.threads[i], s', s'.threads[i])
    ensures SomeoneSleeps(s'.threads) && News(s') ==> SomeoneNotifies(s'.threads)
  {
    hide News;
    if SomeoneSleeps(s'.threads) && News(s') {
      if s'.threads[i].pc.Notifying? {
        assert SomeoneNotifies(s'.threads);
      } else {
        var k :| 0 <= k < |s'.threads| && s'.threads[k].pc == Asleep;
        assert k != i && s.threads[k].pc == Asleep;
        var j :| 0 <= j < |s.threads| && s.threads[j].pc.Notifying?;
        assert j != i && s'.threads[j].pc.Notifying?;
      }
    }
  }
}
