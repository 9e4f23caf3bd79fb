/** What a chunk is charged for: over whole runs, the tries it has behind it are the
    fetches of it that failed, and a broken connection puts all it had back in order. */
module PoolRetries {
  import opened Words
  import opened Pool
  import opened PoolSafety
  import opened PoolSteps
  import opened PoolEnds
  import opened PoolOutcome

  /** The step counts against the chunk in the thread's hand: its fetch was refused,
      or it was the oldest, the one being answered, on a connection that broke. */
  ghost predicate Counts(s: State, m: Move) {
    && m.action == Retry && m.thread < |s.threads| && s.threads[m.thread].hand.Some?
    && (s.threads[m.thread].pc == OnError || s.threads[m.thread].flight == [])
  }

  /** The fetches that failed in a run, by chunk. */
  ghost function Failures(states: seq<State>, moves: seq<Move>): multiset<nat>
    requires |states| == |moves| + 1
    decreases |moves|
  {
    if moves == [] then multiset{}
    else
      var n := |moves| - 1;
      Failures(states[..n + 1], moves[..n]) + FailedBy(states[n], moves[n])
  }

  ghost function FailedBy(s: State, m: Move): multiset<nat> {
    if Counts(s, m) then multiset{s.threads[m.thread].hand.value.id} else multiset{}
  }

  /** A chunk has as many tries behind it as fetches of it failed. */
  ghost predicate Charge(failed: multiset<nat>, chunk: Chunk) {
    chunk.attempts == failed[chunk.id]
  }

  ghost predicate AllCharged(failed: multiset<nat>, chunks: seq<Chunk>) {
    forall k :: 0 <= k < |chunks| ==> Charge(failed, chunks[k])
  }

  ghost predicate FlightCharged(failed: multiset<nat>, flight: seq<InFlight>) {
    forall k :: 0 <= k < |flight| ==> Charge(failed, flight[k].chunk)
  }

  ghost predicate ThreadCharged(failed: multiset<nat>, t: Thread) {
    && AllCharged(failed, t.taken) && FlightCharged(failed, t.flight)
    && (t.hand.Some? ==> Charge(failed, t.hand.value))
  }

  ghost predicate Charged(failed: multiset<nat>, s: State) {
    && AllCharged(failed, s.queue)
    && forall i :: 0 <= i < |s.threads| ==> ThreadCharged(failed, s.threads[i])
  }

  /** A chunk in hand is nowhere else. */
  lemma HandAlone(c: Config, s: State, i: nat)
    requires Inv(c, s) && i < |s.threads| && s.threads[i].hand.Some?
    ensures var id, t := s.threads[i].hand.value.id, s.threads[i];
      && id !in multiset(IdsOf(s.queue)) && id !in multiset(IdsOf(t.taken)) && id !in multiset(FlightIds(t.flight))
      && forall j :: 0 <= j < |s.threads| && j != i ==> id !in HeldIds(s.threads[j])
  {
    hide Shaped, News, AllTried, BuffersSized, WillFail, IdsOf, FlightIds, Config.WellCut;
    var id, t := s.threads[i].hand.value.id, s.threads[i];
    HeldMember(s.threads, i);
    AllOnce(|c.chunks|);
    OnceOnly(multiset(IdsOf(s.queue)), Held(s.threads), s.done + s.lost, All(|c.chunks|), HeldIds(t), id);
    forall j | 0 <= j < |s.threads| && j != i ensures id !in HeldIds(s.threads[j]) {
      if i < j {
        TwoHolders(s.threads, i, j);
      } else {
        TwoHolders(s.threads, j, i);
      }
      assert HeldIds(t)[id] + HeldIds(s.threads[j])[id] <= Held(s.threads)[id];
    }
    assert HeldIds(t)[id] == multiset(IdsOf(t.taken))[id] + multiset(FlightIds(t.flight))[id] + 1;
  }

  lemma OnceOnly(queue: multiset<nat>, held: multiset<nat>, rest: multiset<nat>, all: multiset<nat>,
      mine: multiset<nat>, id: nat)
    requires queue + held + rest == all && mine <= held && id in mine && all[id] <= 1
    ensures queue[id] == 0 && held[id] == 1 && mine[id] == 1
  {
    assert (queue + held + rest)[id] == all[id];
    assert mine[id] <= held[id];
  }

  lemma OthersChunks(chunks: seq<Chunk>, failed: multiset<nat>, id: nat)
    requires id !in multiset(IdsOf(chunks)) && AllCharged(failed, chunks)
    ensures AllCharged(failed + multiset{id}, chunks)
  {
    forall k | 0 <= k < |chunks| ensures Charge(failed + multiset{id}, chunks[k]) {
      assert IdsOf(chunks)[k] == chunks[k].id;
      assert chunks[k].id in multiset(IdsOf(chunks));
    }
  }

  lemma OthersFlight(flight: seq<InFlight>, failed: multiset<nat>, id: nat)
    requires id !in multiset(FlightIds(flight)) && FlightCharged(failed, flight)
    ensures FlightCharged(failed + multiset{id}, flight)
  {
    forall k | 0 <= k < |flight| ensures Charge(failed + multiset{id}, flight[k].chunk) {
      assert FlightIds(flight)[k] == flight[k].chunk.id;
      assert flight[k].chunk.id in multiset(FlightIds(flight));
    }
  }

  lemma OtherThread(t: Thread, failed: multiset<nat>, id: nat)
    requires id !in HeldIds(t) && ThreadCharged(failed, t)
    ensures ThreadCharged(failed + multiset{id}, t)
  {
    hide IdsOf, FlightIds, AllCharged, FlightCharged;
    OthersChunks(t.taken, failed, id);
    OthersFlight(t.flight, failed, id);
  }

  ghost predicate Keeps(failed: multiset<nat>, s: State, i: nat, s': State) {
    i < |s.threads| == |s'.threads| && AllCharged(failed, s'.queue) && ThreadCharged(failed, s'.threads[i])
  }

  lemma TopUpCharged(c: Config, s: State, i: nat, failed: multiset<nat>)
    requires i < |s.threads| && s.threads[i].pc == Check
    requires AllCharged(failed, s.queue) && ThreadCharged(failed, s.threads[i])
    ensures Keeps(failed, s, i, ToppedUp(c, s, i))
  {
    hide Charge;
    var room := Room(c, s, s.threads[i]);
    assert AllCharged(failed, s.queue[..room]) && AllCharged(failed, s.queue[room..]);
  }

  lemma SendCharged(c: Config, s: State, i: nat, ok: bool, failed: multiset<nat>)
    requires i < |s.threads| && s.threads[i].taken != [] && s.threads[i].taken[0].id < |c.chunks|
    requires AllCharged(failed, s.queue) && ThreadCharged(failed, s.threads[i])
    ensures Keeps(failed, s, i, Sent(c, s, i, ok))
  {
    hide Charge, Claimable;
    var t := s.threads[i];
    assert AllCharged(failed, t.taken[1..]) && Charge(failed, t.taken[0]);
    assert FlightCharged(failed, t.flight + [InFlight(t.taken[0], 0)]);
  }

  lemma FrontCharged(flight: seq<InFlight>, failed: multiset<nat>)
    requires FlightCharged(failed, flight) && flight != []
    ensures FlightCharged(failed, flight[1..]) && Charge(failed, flight[0].chunk)
    ensures FlightCharged(failed, flight[..|flight| - 1]) && Charge(failed, flight[|flight| - 1].chunk)
    ensures forall got :: FlightCharged(failed, flight[0 := flight[0].(received := got)])
  {
    hide Charge;
  }

  lemma DataCharged(c: Config, s: State, i: nat, start: nat, bytes: seq<byte>, failed: multiset<nat>)
    requires Takes(c, s, i, start, bytes)
    requires AllCharged(failed, s.queue) && ThreadCharged(failed, s.threads[i])
    ensures Keeps(failed, s, i, Received(c, s, i, start, bytes))
  {
    hide Charge, Splice, FlightCharged;
    FrontCharged(s.threads[i].flight, failed);
  }

  lemma ErrorCharged(s: State, i: nat, retryable: bool, matches: bool, failed: multiset<nat>)
    requires i < |s.threads| && s.threads[i].flight != []
    requires AllCharged(failed, s.queue) && ThreadCharged(failed, s.threads[i])
    ensures Keeps(failed, s, i, Errored(s, i, retryable, matches))
  {
    hide Charge, FlightCharged;
    FrontCharged(s.threads[i].flight, failed);
  }

  lemma GiveBackCharged(s: State, i: nat, failed: multiset<nat>)
    requires i < |s.threads| && s.threads[i].pc.GivingBack?
    requires AllCharged(failed, s.queue) && ThreadCharged(failed, s.threads[i])
    ensures Keeps(failed, s, i, GaveBack(s, i))
  {
    hide Charge, FlightCharged;
    assert AllCharged(failed, s.threads[i].taken + s.queue);
  }

  lemma DropCharged(s: State, i: nat, failed: multiset<nat>)
    requires i < |s.threads| && s.threads[i].flight != []
    requires AllCharged(failed, s.queue) && ThreadCharged(failed, s.threads[i])
    ensures Keeps(failed, s, i, Dropped(s, i)) && Keeps(failed, s, i, Forgotten(s, i))
  {
    hide Charge, FlightCharged;
    FrontCharged(s.threads[i].flight, failed);
  }

  /** A step that retries nothing charges nothing. */
  lemma MovesCharged(c: Config, s: State, i: nat, a: Action, failed: multiset<nat>)
    requires Enabled(c, s, i, a) && !a.NotifyAll? && !a.Retry?
    requires AllCharged(failed, s.queue) && ThreadCharged(failed, s.threads[i])
    ensures Keeps(failed, s, i, After(c, s, i, a))
  {
    hide AllCharged, FlightCharged, Charge, Takes, ToppedUp, Sent, Received, Errored, GaveBack, Dropped, Forgotten;
    match a {
      case TopUp => TopUpCharged(c, s, i, failed);
      case SendNext(ok) => SendCharged(c, s, i, ok, failed);
      case GetData(start, bytes) => DataCharged(c, s, i, start, bytes, failed);
      case GetError(retryable, matches) => ErrorCharged(s, i, retryable, matches, failed);
      case GiveBack => GiveBackCharged(s, i, failed);
      case DropSlice => DropCharged(s, i, failed);
      case ClearOne => DropCharged(s, i, failed);
      case _ =>
    }
  }

  /** Putting a chunk back charges it, and it alone, if its fetch is what failed. */
  lemma RetryCharged(c: Config, s: State, i: nat, failed: multiset<nat>)
    requires Inv(c, s) && Enabled(c, s, i, Retry)
    requires AllCharged(failed, s.queue) && ThreadCharged(failed, s.threads[i])
    ensures Keeps(failed + FailedBy(s, Move(i, Retry)), s, i, After(c, s, i, Retry))
  {
    hide Inv, IdsOf, FlightIds, HeldIds, AllCharged, FlightCharged;
    var t := s.threads[i];
    var failed' := failed + FailedBy(s, Move(i, Retry));
    HandAlone(c, s, i);
    if Counts(s, Move(i, Retry)) {
      OthersChunks(s.queue, failed, t.hand.value.id);
      OthersChunks(t.taken, failed, t.hand.value.id);
      OthersFlight(t.flight, failed, t.hand.value.id);
    } else {
      assert failed' == failed;
    }
    QueuedFirst(Chunk(t.hand.value.id, failed'[t.hand.value.id]), s.queue, failed');
  }

  lemma QueuedFirst(chunk: Chunk, queue: seq<Chunk>, failed: multiset<nat>)
    requires Charge(failed, chunk) && AllCharged(failed, queue)
    ensures AllCharged(failed, [chunk] + queue)
  {
  }

  lemma WokenCharged(s: State, i: nat, failed: multiset<nat>)
    requires i < |s.threads| && s.threads[i].pc.Notifying? && Charged(failed, s)
    ensures Charged(failed, s.(threads := AllWoken(s.threads)[i := s.threads[i].(pc := s.threads[i].pc.next)]))
  {
    hide Charge, AllCharged, FlightCharged;
    var now := AllWoken(s.threads)[i := s.threads[i].(pc := s.threads[i].pc.next)];
    forall k | 0 <= k < |now| ensures ThreadCharged(failed, now[k]) {
      assert ThreadCharged(failed, s.threads[k]);
    }
  }

  lemma StepCharged(c: Config, s: State, m: Move, failed: multiset<nat>)
    requires Inv(c, s) && Enabled(c, s, m.thread, m.action) && Charged(failed, s)
    ensures Charged(failed + FailedBy(s, m), After(c, s, m.thread, m.action))
  {
    hide Inv, Local, ThreadCharged, AllCharged, AllWoken;
    var i, s', failed' := m.thread, After(c, s, m.thread, m.action), failed + FailedBy(s, m);
    if m.action.NotifyAll? {
      assert failed' == failed;
      WokenCharged(s, i, failed);
    } else {
      if m.action.Retry? {
        RetryCharged(c, s, i, failed);
      } else {
        assert failed' == failed;
        MovesCharged(c, s, i, m.action, failed);
      }
      StepIsLocal(c, s, i, m.action);
      forall j | 0 <= j < |s'.threads| ensures ThreadCharged(failed', s'.threads[j]) {
        if j != i {
          LocalOther(c, s, i, s', j);
          OthersCharged(c, s, m, failed, j);
        }
      }
    }
  }

  lemma OthersCharged(c: Config, s: State, m: Move, failed: multiset<nat>, j: nat)
    requires Inv(c, s) && j < |s.threads| && j != m.thread && ThreadCharged(failed, s.threads[j])
    ensures ThreadCharged(failed + FailedBy(s, m), s.threads[j])
  {
    hide Inv, HeldIds, ThreadCharged, IdsOf, FlightIds;
    if Counts(s, m) {
      HandAlone(c, s, m.thread);
      OtherThread(s.threads[j], failed, s.threads[m.thread].hand.value.id);
    } else {
      assert failed + FailedBy(s, m) == failed;
    }
  }

  /** Wherever a chunk is, the tries it has behind it are the fetches of it that
      failed: a refusal, or a break while it was the one being answered. Breaks that
      found it waiting behind another cost it nothing. */
  lemma {:induction false} TriesAreFailures(c: Config, states: seq<State>, moves: seq<Move>)
    requires Trace(c, states, moves)
    ensures Charged(Failures(states, moves), states[|moves|])
    decreases |moves|
  {
    hide Inv, Charged, FailedBy, Enabled, After, Init;
    var n := |moves| - 1;
    if moves == [] {
      NoneFailed(c, states[0]);
    } else {
      TracePrefix(c, states, moves);
      TriesAreFailures(c, states[..n + 1], moves[..n]);
      TraceKeeps(c, states[..n + 1], moves[..n]);
      StepCharged(c, states[n], moves[n], Failures(states[..n + 1], moves[..n]));
    }
  }

  lemma NoneFailed(c: Config, s: State)
    requires Init(c, s)
    ensures Charged(multiset{}, s)
  {
    forall i | 0 <= i < |s.threads| ensures ThreadCharged(multiset{}, s.threads[i]) {
      assert s.threads[i] in s.threads;
    }
  }

  lemma {:induction false} PrefixTrace(c: Config, states: seq<State>, moves: seq<Move>, k: nat)
    requires Trace(c, states, moves) && k <= |moves|
    ensures Trace(c, states[..k + 1], moves[..k])
    ensures Failures(states[..k + 1], moves[..k]) <= Failures(states, moves)
    decreases |moves| - k
  {
    hide Stepped, Init, FailedBy;
    if k == |moves| {
      assert states[..k + 1] == states && moves[..k] == moves;
    } else {
      PrefixTrace(c, states, moves, k + 1);
      TracePrefix(c, states[..k + 2], moves[..k + 1]);
      assert states[..k + 2][..k + 1] == states[..k + 1] && moves[..k + 1][..k] == moves[..k];
    }
  }

  lemma FailuresNext(states: seq<State>, moves: seq<Move>, k: nat)
    requires |states| == |moves| + 1 && k < |moves|
    ensures Failures(states[..k + 2], moves[..k + 1])
         == Failures(states[..k + 1], moves[..k]) + FailedBy(states[k], moves[k])
  {
    hide FailedBy;
    assert states[..k + 2][..k + 1] == states[..k + 1] && moves[..k + 1][..k] == moves[..k];
  }

  lemma HandCharged(s: State, i: nat, failed: multiset<nat>)
    requires Charged(failed, s) && i < |s.threads| && s.threads[i].hand.Some?
    ensures s.threads[i].hand.value.attempts == failed[s.threads[i].hand.value.id]
  {
    assert ThreadCharged(failed, s.threads[i]);
  }

  /** A step that spends a chunk is the failure that is one too many. */
  lemma SpentFailed(c: Config, states: seq<State>, moves: seq<Move>, k: nat)
    requires Trace(c, states, moves) && k < |moves| && moves[k].action == Retry
    requires moves[k].thread < |states[k].threads| && Spent(c, states[k].threads[moves[k].thread])
    ensures Failures(states, moves)[states[k].threads[moves[k].thread].hand.value.id] > c.maxRetries
  {
    hide Stepped, Init, Charged, Failures;
    var id := states[k].threads[moves[k].thread].hand.value.id;
    PrefixTrace(c, states, moves, k);
    TriesAreFailures(c, states[..k + 1], moves[..k]);
    HandCharged(states[k], moves[k].thread, Failures(states[..k + 1], moves[..k]));
    FailuresNext(states, moves, k);
    PrefixTrace(c, states, moves, k + 1);
    assert Failures(states[..k + 2], moves[..k + 1])[id] <= Failures(states, moves)[id];
  }

  /** A chunk that failed more often than it may be retried was spent at some step. */
  lemma {:induction false} FailedWasSpent(c: Config, states: seq<State>, moves: seq<Move>, id: nat)
    requires Trace(c, states, moves) && Failures(states, moves)[id] > c.maxRetries
    ensures exists k :: 0 <= k < |moves| && Fatal(c, states[k], moves[k])
    decreases |moves|
  {
    hide Stepped, Init, Charged, Fatal;
    var n := |moves| - 1;
    if moves != [] {
      TracePrefix(c, states, moves);
      var before := Failures(states[..n + 1], moves[..n]);
      if before[id] > c.maxRetries {
        FailedWasSpent(c, states[..n + 1], moves[..n], id);
        FatalSooner(c, states, moves);
      } else {
        TriesAreFailures(c, states[..n + 1], moves[..n]);
        HandCharged(states[n], moves[n].thread, before);
        SpendsIt(c, states[n], moves[n]);
      }
    }
  }

  lemma SpendsIt(c: Config, s: State, m: Move)
    requires Counts(s, m)
    ensures s.threads[m.thread].hand.value.attempts == c.maxRetries ==> Fatal(c, s, m)
  {
  }

  /** The server refuses nothing for good, and sends only frames it may. */
  ghost predicate Civil(moves: seq<Move>) {
    forall k :: 0 <= k < |moves| ==>
      moves[k].action != Refuse && (moves[k].action.GetError? ==> moves[k].action.retryable && moves[k].action.matches)
  }

  /** Against such a server a transfer that is over failed if and only if some chunk
      was fetched in vain more often than it may be retried. */
  lemma FailsIffTriedOut(c: Config, states: seq<State>, moves: seq<Move>)
    requires Trace(c, states, moves) && Stuck(c, states[|moves|]) && Civil(moves)
    ensures states[|moves|].error <==> exists id :: Failures(states, moves)[id] > c.maxRetries
  {
    hide Stepped, Init, Enabled, Failures;
    EndsInErrorIff(c, states, moves);
    if states[|moves|].error {
      var k :| 0 <= k < |moves| && Fatal(c, states[k], moves[k]);
      SpentFailed(c, states, moves, k);
    }
    if id :| Failures(states, moves)[id] > c.maxRetries {
      FailedWasSpent(c, states, moves, id);
    }
  }

  /** A refusal that may be tried again takes the oldest fetch off the connection. */
  lemma RefusedForNow(c: Config, s: State, i: nat)
    requires Enabled(c, s, i, GetError(true, true))
    ensures var chunk, s' := s.threads[i].flight[0].chunk, After(c, s, i, GetError(true, true));
      && s'.queue == s.queue && s'.lost == s.lost && s'.claimed == s.claimed - multiset{chunk.id}
      && s'.threads[i] == s.threads[i].(pc := OnError, flight := s.threads[i].flight[1..], hand := Some(chunk))
  {
  }

  /** From there, whatever the other threads do meanwhile, its only next step puts the
      chunk in front of the queue with one try more behind it, or, if it has had them
      all, gives it up and fails. */
  lemma RefusedIsRetried(c: Config, s: State, i: nat, chunk: Chunk)
    requires i < |s.threads| && s.threads[i].pc == OnError && s.threads[i].hand == Some(chunk)
    requires chunk.attempts <= c.maxRetries
    ensures forall a :: Enabled(c, s, i, a) <==> a == Retry
    ensures var s' := After(c, s, i, Retry);
      if chunk.attempts < c.maxRetries then
        s'.queue == [Chunk(chunk.id, chunk.attempts + 1)] + s.queue && s'.lost == s.lost
        && s'.retries == s.retries + 1 && s'.threads[i].pc == Notifying(Top) && s'.threads[i].hand == None
      else
        s'.queue == s.queue && s'.lost == s.lost + multiset{chunk.id} && s'.threads[i].pc == Failing
  {
    hide Takes;
  }

  /** A permanent refusal gives the chunk up and fails at once; one about another fetch
      gives up the connection too. */
  lemma RefusedForGood(c: Config, s: State, i: nat, retryable: bool, matches: bool)
    requires Enabled(c, s, i, GetError(retryable, matches)) && !(retryable && matches)
    ensures var chunk, s' := s.threads[i].flight[0].chunk, After(c, s, i, GetError(retryable, matches));
      && s'.queue == s.queue && s'.lost == s.lost + multiset{chunk.id} && s'.claimed == s.claimed - multiset{chunk.id}
      && s'.threads[i].flight == s.threads[i].flight[1..]
      && s'.threads[i].pc == (if matches then Failing else Clearing)
      && s'.threads[i].conn == (matches && s.threads[i].conn)
  {
  }

  ghost function ChunksOf(flight: seq<InFlight>): (chunks: seq<Chunk>)
    ensures |chunks| == |flight|
  {
    seq(|flight|, k requires 0 <= k < |flight| => flight[k].chunk)
  }

  /** The chunks a thread has asked for or is about to, in the order it asks for them. */
  ghost function Line(t: Thread): seq<Chunk> {
    ChunksOf(t.flight) + t.taken
  }

  /** Thread `i` alone takes these steps, one after the other. */
  ghost predicate Leads(c: Config, s: State, i: nat, acts: seq<Action>, s': State)
    decreases |acts|
  {
    if acts == [] then s' == s
    else Enabled(c, s, i, acts[0]) && Leads(c, After(c, s, i, acts[0]), i, acts[1..], s')
  }

  lemma {:induction false} LeadsOn(c: Config, s: State, i: nat, a: seq<Action>, mid: State, b: seq<Action>, s': State)
    requires Leads(c, s, i, a, mid) && Leads(c, mid, i, b, s')
    ensures Leads(c, s, i, a + b, s')
    decreases |a|
  {
    hide Enabled, After;
    if a == [] {
      assert a + b == b;
    } else {
      LeadsOn(c, After(c, s, i, a[0]), i, a[1..], mid, b, s');
      assert (a + b)[1..] == a[1..] + b;
    }
  }

  /** Taking chunks keeps their order: the line of the thread, and the queue behind it.
      Short of an error a thread takes all it may, to its credit or to the last. */
  lemma TakingKeepsLine(c: Config, s: State, i: nat)
    requires Inv(c, s) && i < |s.threads| && s.threads[i].pc == Check
    ensures var s' := ToppedUp(c, s, i);
      && |s'.threads| == |s.threads|
      && Line(s'.threads[i]) + s'.queue == Line(s.threads[i]) + s.queue
      && (s.error ==> s'.queue == s.queue)
      && (!s.error ==> s'.queue == [] || |Line(s'.threads[i])| == c.Credit())
  {
    hide Inv, FlightShaped, AllTried, Placed, Room, ChunksOf;
    var t := s.threads[i];
    ShapedAt(c, s, i);
    CheckHolds(t);
    RoomTaken(c, s, t);
    assert t.taken == [];
    TakenLine(ChunksOf(t.flight), s.queue, Room(c, s, t));
  }

  lemma RoomTaken(c: Config, s: State, t: Thread)
    requires |t.flight| <= c.Credit()
    ensures Room(c, s, t) <= |s.queue| && (s.error ==> Room(c, s, t) == 0)
    ensures !s.error ==> Room(c, s, t) == |s.queue| || |t.flight| + Room(c, s, t) == c.Credit()
  {
  }

  lemma TakenLine(line: seq<Chunk>, queue: seq<Chunk>, room: nat)
    requires room <= |queue|
    ensures line + queue[..room] + queue[room..] == line + [] + queue
    ensures room == 0 ==> queue[room..] == queue
    ensures room == |queue| ==> queue[room..] == []
  {
    assert queue == queue[..room] + queue[room..];
  }

  /** Asking for a chunk keeps the line. */
  lemma AskingKeepsLine(c: Config, s: State, i: nat)
    requires Inv(c, s) && i < |s.threads| && s.threads[i].pc == Sending && s.threads[i].taken != []
    requires s.threads[i].taken[0].id < |c.chunks|
    ensures var s' := Sent(c, s, i, true);
      && |s'.threads| == |s.threads| && Line(s'.threads[i]) == Line(s.threads[i]) && s'.queue == s.queue
      && |s'.threads[i].flight| == |s.threads[i].flight| + 1
  {
    hide Inv, Claimable;
    var t := s.threads[i];
    ClaimNeverFails(c, s, i);
    AskedLine(t.flight, t.taken);
  }

  lemma AskedLine(flight: seq<InFlight>, taken: seq<Chunk>)
    requires taken != []
    ensures ChunksOf(flight + [InFlight(taken[0], 0)]) + taken[1..] == ChunksOf(flight) + taken
  {
    assert ChunksOf(flight + [InFlight(taken[0], 0)]) == ChunksOf(flight) + [taken[0]];
    assert taken == [taken[0]] + taken[1..];
  }

  /** A line put back: whole, but for the first, which has failed once more, or is
      left out if that is once too often. */
  ghost function PutBack(c: Config, line: seq<Chunk>): seq<Chunk> {
    if line == [] then []
    else if line[0].attempts < c.maxRetries then [Chunk(line[0].id, line[0].attempts + 1)] + line[1..]
    else line[1..]
  }

  ghost function GivenUp(c: Config, line: seq<Chunk>): multiset<nat> {
    if line != [] && line[0].attempts >= c.maxRetries then multiset{line[0].id} else multiset{}
  }

  lemma DropsNewest(c: Config, s: State, i: nat)
    requires Enabled(c, s, i, DropSlice)
    ensures var t, s' := s.threads[i], After(c, s, i, DropSlice);
      && |s'.threads| == |s.threads| && s'.queue == s.queue && s'.lost == s.lost
      && s'.threads[i] == t.(flight := t.flight[..|t.flight| - 1], hand := Some(t.flight[|t.flight| - 1].chunk))
  {
  }

  lemma NotifiesRest(c: Config, s: State, i: nat)
    requires Enabled(c, s, i, NotifyAll)
    ensures var s' := After(c, s, i, NotifyAll);
      && |s'.threads| == |s.threads| && s'.queue == s.queue && s'.lost == s.lost
      && s'.threads[i] == s.threads[i].(pc := s.threads[i].pc.next)
  {
  }

  /** A chunk in a recovering thread's hand goes back as it is if fetches are left that
      were asked for before it. */
  lemma PutsBack(c: Config, s: State, i: nat)
    requires Enabled(c, s, i, Retry) && s.threads[i].pc.Recovering? && s.threads[i].flight != []
    requires s.threads[i].hand.value.attempts <= c.maxRetries
    ensures var t, chunk, s' := s.threads[i], s.threads[i].hand.value, After(c, s, i, Retry);
      && |s'.threads| == |s.threads| && s'.queue == [chunk] + s.queue && s'.lost == s.lost
      && s'.threads[i] == t.(pc := Notifying(t.pc), hand := None)
  {
  }

  /** The oldest goes back charged, if it may. */
  lemma PutsBackCharged(c: Config, s: State, i: nat)
    requires Enabled(c, s, i, Retry) && s.threads[i].pc.Recovering? && s.threads[i].flight == []
    requires s.threads[i].hand.value.attempts <= c.maxRetries
    ensures var t, chunk, s' := s.threads[i], s.threads[i].hand.value, After(c, s, i, Retry);
      && |s'.threads| == |s.threads|
      && s'.queue == PutBack(c, [chunk]) + s.queue && s'.lost == s.lost + GivenUp(c, [chunk])
      && s'.threads[i]
         == t.(pc := if chunk.attempts < c.maxRetries then Notifying(t.pc) else Recovering(true), hand := None)
  {
    var chunk := s.threads[i].hand.value;
    OneBack(c, chunk, s.queue, s.lost);
    hide PutBack, GivenUp;
  }

  lemma OneBack(c: Config, chunk: Chunk, queue: seq<Chunk>, lost: multiset<nat>)
    ensures PutBack(c, [chunk]) + queue
         == if chunk.attempts < c.maxRetries then [Chunk(chunk.id, chunk.attempts + 1)] + queue else queue
    ensures lost + GivenUp(c, [chunk]) == if chunk.attempts < c.maxRetries then lost else lost + multiset{chunk.id}
  {
    assert [chunk][1..] == [] && [] + queue == queue && lost + multiset{} == lost;
  }

  lemma LeadsTwo(c: Config, s: State, i: nat, a: Action, b: Action)
    requires Enabled(c, s, i, a) && Enabled(c, After(c, s, i, a), i, b)
    ensures Leads(c, s, i, [a, b], After(c, After(c, s, i, a), i, b))
  {
    hide Enabled, After;
    assert [a, b][1..] == [b] && [b][1..] == [];
    assert Leads(c, After(c, s, i, a), i, [b], After(c, After(c, s, i, a), i, b));
  }

  lemma LeadsThree(c: Config, s: State, i: nat, a: Action, b: Action, d: Action)
    requires Enabled(c, s, i, a) && Enabled(c, After(c, s, i, a), i, b)
    requires Enabled(c, After(c, After(c, s, i, a), i, b), i, d)
    ensures Leads(c, s, i, [a, b, d], After(c, After(c, After(c, s, i, a), i, b), i, d))
  {
    hide Enabled, After;
    LeadsTwo(c, After(c, s, i, a), i, b, d);
    assert [a, b, d][1..] == [b, d];
  }

  /** The newest fetch of several goes back uncharged. */
  lemma NewestBack(c: Config, s: State, i: nat) returns (acts: seq<Action>, s': State)
    requires i < |s.threads| && s.threads[i].pc.Recovering? && s.threads[i].hand == None
    requires |s.threads[i].flight| > 1
    requires s.threads[i].flight[|s.threads[i].flight| - 1].chunk.attempts <= c.maxRetries
    ensures Leads(c, s, i, acts, s') && |s'.threads| == |s.threads|
    ensures s'.threads[i] == s.threads[i].(flight := s.threads[i].flight[..|s.threads[i].flight| - 1])
    ensures s'.queue == [s.threads[i].flight[|s.threads[i].flight| - 1].chunk] + s.queue && s'.lost == s.lost
  {
    hide After, Leads, PutBack, GivenUp;
    var dropped := After(c, s, i, DropSlice);
    DropsNewest(c, s, i);
    var retried := After(c, dropped, i, Retry);
    PutsBack(c, dropped, i);
    NotifiesRest(c, retried, i);
    acts, s' := [DropSlice, Retry, NotifyAll], After(c, retried, i, NotifyAll);
    LeadsThree(c, s, i, DropSlice, Retry, NotifyAll);
  }

  /** The oldest fetch goes back charged, or is given up. */
  lemma OldestBack(c: Config, s: State, i: nat) returns (acts: seq<Action>, s': State)
    requires i < |s.threads| && s.threads[i].pc.Recovering? && s.threads[i].hand == None
    requires |s.threads[i].flight| == 1 && s.threads[i].flight[0].chunk.attempts <= c.maxRetries
    ensures Leads(c, s, i, acts, s') && |s'.threads| == |s.threads| && s'.threads[i].taken == s.threads[i].taken
    ensures s'.threads[i].flight == [] && s'.threads[i].pc.Recovering? && s'.threads[i].hand == None
    ensures s'.queue == PutBack(c, ChunksOf(s.threads[i].flight)) + s.queue
    ensures s'.lost == s.lost + GivenUp(c, ChunksOf(s.threads[i].flight))
    ensures GivenUp(c, ChunksOf(s.threads[i].flight)) != multiset{} ==> s'.threads[i].pc == Recovering(true)
    ensures GivenUp(c, ChunksOf(s.threads[i].flight)) == multiset{} ==> s'.threads[i].pc == s.threads[i].pc
  {
    hide After, Leads, PutBack;
    var chunk := s.threads[i].flight[0].chunk;
    assert ChunksOf(s.threads[i].flight) == [chunk];
    var dropped := After(c, s, i, DropSlice);
    DropsNewest(c, s, i);
    var retried := After(c, dropped, i, Retry);
    PutsBackCharged(c, dropped, i);
    if chunk.attempts < c.maxRetries {
      NotifiesRest(c, retried, i);
      acts, s' := [DropSlice, Retry, NotifyAll], After(c, retried, i, NotifyAll);
      LeadsThree(c, s, i, DropSlice, Retry, NotifyAll);
    } else {
      acts, s' := [DropSlice, Retry], retried;
      LeadsTwo(c, s, i, DropSlice, Retry);
    }
  }

  /** All the fetches a thread tries again have tries left to be charged. */
  ghost predicate Triable(c: Config, flight: seq<InFlight>) {
    forall k :: 0 <= k < |flight| ==> flight[k].chunk.attempts <= c.maxRetries
  }

  lemma {:induction false} Recovers(c: Config, s: State, i: nat) returns (acts: seq<Action>, s': State)
    requires i < |s.threads| && s.threads[i].pc.Recovering? && s.threads[i].hand == None
    requires Triable(c, s.threads[i].flight)
    ensures Leads(c, s, i, acts, s') && |s'.threads| == |s.threads| && s'.threads[i].taken == s.threads[i].taken
    ensures s'.threads[i].flight == [] && s'.threads[i].pc.Recovering? && s'.threads[i].hand == None
    ensures s'.queue == PutBack(c, ChunksOf(s.threads[i].flight)) + s.queue
    ensures s'.lost == s.lost + GivenUp(c, ChunksOf(s.threads[i].flight))
    ensures GivenUp(c, ChunksOf(s.threads[i].flight)) != multiset{} ==> s'.threads[i].pc == Recovering(true)
    ensures GivenUp(c, ChunksOf(s.threads[i].flight)) == multiset{} ==> s'.threads[i].pc == s.threads[i].pc
    decreases |s.threads[i].flight|
  {
    hide Enabled, After, GivenUp;
    var flight := s.threads[i].flight;
    if flight == [] {
      acts, s' := [], s;
      NothingBack(c, s.queue);
    } else if |flight| == 1 {
      acts, s' := OldestBack(c, s, i);
    } else {
      var first, mid := NewestBack(c, s, i);
      var init, newest := flight[..|flight| - 1], flight[|flight| - 1].chunk;
      var more, end := Recovers(c, mid, i);
      acts, s' := first + more, end;
      LeadsOn(c, s, i, first, mid, more, end);
      SplitBack(c, flight, s.queue);
    }
  }

  lemma NothingBack(c: Config, queue: seq<Chunk>)
    ensures PutBack(c, ChunksOf([])) + queue == queue && GivenUp(c, ChunksOf([])) == multiset{}
  {
  }

  lemma SplitBack(c: Config, flight: seq<InFlight>, queue: seq<Chunk>)
    requires |flight| > 1
    ensures var init, newest := flight[..|flight| - 1], flight[|flight| - 1].chunk;
      && PutBack(c, ChunksOf(init)) + ([newest] + queue) == PutBack(c, ChunksOf(flight)) + queue
      && GivenUp(c, ChunksOf(init)) == GivenUp(c, ChunksOf(flight))
  {
    var init, newest := flight[..|flight| - 1], flight[|flight| - 1].chunk;
    assert ChunksOf(flight) == ChunksOf(init) + [newest];
  }

  lemma PutBackLonger(c: Config, a: seq<Chunk>, b: seq<Chunk>, queue: seq<Chunk>)
    requires a != []
    ensures PutBack(c, a) + (b + queue) == PutBack(c, a + b) + queue && GivenUp(c, a) == GivenUp(c, a + b)
  {
    assert (a + b)[1..] == a[1..] + b;
  }

  lemma ReadingBreaks(c: Config, s: State, i: nat) returns (s': State)
    requires Inv(c, s) && i < |s.threads| && s.threads[i].pc == Reading
    ensures Leads(c, s, i, [Break], s') && |s'.threads| == |s.threads| && s'.queue == s.queue && s'.lost == s.lost
    ensures s'.threads[i].pc == Recovering(false) && s'.threads[i].hand == None
    ensures s.threads[i].taken == [] == s'.threads[i].taken && s'.threads[i].flight == s.threads[i].flight
  {
    ShapedAt(c, s, i);
    s' := After(c, s, i, Break);
    assert [Break][1..] == [];
  }

  /** A chunk could not be asked for: it counts as asked, and those behind it are given back. */
  lemma AskingBreaks(c: Config, s: State, i: nat)
    requires Inv(c, s) && Enabled(c, s, i, SendNext(false))
    ensures var t, sent := s.threads[i], After(c, s, i, SendNext(false));
      && |sent.threads| == |s.threads| && sent.queue == s.queue && sent.lost == s.lost
      && sent.threads[i] == t.(pc := GivingBack(true), conn := false, taken := t.taken[1..],
                               flight := t.flight + [InFlight(t.taken[0], 0)])
  {
    hide Inv, Claimable;
    ClaimNeverFails(c, s, i);
  }

  lemma GivesBack(c: Config, s: State, i: nat) returns (acts: seq<Action>, s': State)
    requires i < |s.threads| && s.threads[i].pc == GivingBack(true)
    ensures Leads(c, s, i, acts, s') && |s'.threads| == |s.threads| && s'.lost == s.lost
    ensures s'.threads[i] == s.threads[i].(pc := Recovering(false), taken := [])
    ensures s'.queue == s.threads[i].taken + s.queue
  {
    var given := After(c, s, i, GiveBack);
    assert [GiveBack][1..] == [] && [GiveBack, NotifyAll][1..] == [NotifyAll] && [NotifyAll][1..] == [];
    if s.threads[i].taken == [] {
      acts, s' := [GiveBack], given;
      assert [] + s.queue == s.queue;
    } else {
      acts, s' := [GiveBack, NotifyAll], After(c, given, i, NotifyAll);
      assert Leads(c, given, i, [NotifyAll], s');
    }
  }

  lemma SendingBreaks(c: Config, s: State, i: nat) returns (acts: seq<Action>, s': State)
    requires Inv(c, s) && Enabled(c, s, i, SendNext(false)) && s.threads[i].hand == None
    ensures acts != [] && acts[0] == SendNext(false)
    ensures Leads(c, s, i, acts, s') && |s'.threads| == |s.threads| && s'.lost == s.lost
    ensures s'.threads[i].pc == Recovering(false) && s'.threads[i].hand == None && s'.threads[i].taken == []
    ensures s'.threads[i].flight == s.threads[i].flight + [InFlight(s.threads[i].taken[0], 0)]
    ensures s'.queue == s.threads[i].taken[1..] + s.queue
  {
    hide Inv, After;
    AskingBreaks(c, s, i);
    var sent := After(c, s, i, SendNext(false));
    var more, end := GivesBack(c, sent, i);
    acts, s' := [SendNext(false)] + more, end;
    assert acts[1..] == more;
  }

  lemma FlightTriable(c: Config, t: Thread)
    requires Shaped(c, t)
    ensures Triable(c, t.flight) && (t.taken != [] ==> Triable(c, t.flight + [InFlight(t.taken[0], 0)]))
  {
    hide Placed;
    forall k | 0 <= k < |t.flight| ensures t.flight[k].chunk.attempts <= c.maxRetries {
      assert InFlightShaped(c, t.flight, k);
    }
    if t.taken != [] {
      assert Tried(c, t.taken[0]);
    }
  }

  /** A connection breaks, waiting for an answer or in the middle of asking: once its
      thread has recovered, every chunk it had is back in front of the queue, in the
      order they were taken, and only the first of them has a try more behind it. */
  lemma BreakPutsBack(c: Config, s: State, i: nat, broken: Action) returns (acts: seq<Action>, s': State)
    requires Inv(c, s) && Enabled(c, s, i, broken) && (broken == Break || broken == SendNext(false))
    ensures acts != [] && acts[0] == broken && Leads(c, s, i, acts, s') && |s'.threads| == |s.threads|
    ensures Line(s'.threads[i]) == [] && s'.threads[i].hand == None && s'.threads[i].pc.Recovering?
    ensures s'.queue == PutBack(c, Line(s.threads[i])) + s.queue
    ensures s'.lost == s.lost + GivenUp(c, Line(s.threads[i]))
    ensures s'.threads[i].pc.exhausted <==> GivenUp(c, Line(s.threads[i])) != multiset{}
  {
    hide Inv, After, PutBack, GivenUp, Leads;
    var t := s.threads[i];
    ShapedAt(c, s, i);
    FlightTriable(c, t);
    if broken == Break {
      var mid := ReadingBreaks(c, s, i);
      var more, end := Recovers(c, mid, i);
      acts, s' := [Break] + more, end;
      LeadsOn(c, s, i, [Break], mid, more, end);
      assert Line(t) == ChunksOf(t.flight);
    } else {
      var first, mid := SendingBreaks(c, s, i);
      var more, end := Recovers(c, mid, i);
      acts, s' := first + more, end;
      LeadsOn(c, s, i, first, mid, more, end);
      assert ChunksOf(mid.threads[i].flight) == ChunksOf(t.flight) + [t.taken[0]];
      PutBackLonger(c, ChunksOf(mid.threads[i].flight), t.taken[1..], s.queue);
      assert ChunksOf(mid.threads[i].flight) + t.taken[1..] == Line(t);
    }
  }
}
