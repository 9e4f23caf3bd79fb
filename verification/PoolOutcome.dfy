/** How a transfer comes out: over whole runs, what an error, a loss, or an
    unfinished transfer must have been caused by. */
module PoolOutcome {
  import opened Words
  import opened Pool
  import opened PoolSafety
  import opened PoolSteps
  import opened PoolEnds

  /** One step of a run: which thread took it, and what it did or met. */
  datatype Move = Move(thread: nat, action: Action)

  /** A run with its steps: state `k` turns into state `k + 1` by move `k`. */
  ghost predicate Trace(c: Config, states: seq<State>, moves: seq<Move>) {
    && |states| == |moves| + 1 && Init(c, states[0])
    && forall k :: 0 <= k < |moves| ==> Stepped(c, states[k], moves[k], states[k + 1])
  }

  ghost predicate Stepped(c: Config, s: State, m: Move, s': State) {
    Enabled(c, s, m.thread, m.action) && s' == After(c, s, m.thread, m.action)
  }

  /** Where a fetch starts: a thread for each connection, but no more than there are
      chunks; `conns` says which of them are still open. */
  function Started(c: Config, conns: seq<bool>, buffers: seq<seq<byte>>, noise: nat): State {
    var used := Min(|c.chunks|, |conns|);
    State(Untried(|c.chunks|), |c.chunks|, used, 0, false,
          seq(used, i requires 0 <= i < used => Thread(Start, conns[i], [], [], None)),
          multiset{}, buffers, multiset{}, multiset{}, noise)
  }

  /** Any pool with a connection can start on any chunks well cut. */
  lemma FetchStarts(c: Config, conns: seq<bool>, buffers: seq<seq<byte>>, noise: nat)
    requires c.WellCut() && |c.chunks| > 0 && |conns| > 0
    requires |buffers| == |c.sizes| && forall p :: 0 <= p < |c.sizes| ==> |buffers[p]| == c.sizes[p]
    ensures Init(c, Started(c, conns, buffers, noise)) && Inv(c, Started(c, conns, buffers, noise))
  {
    hide Inv, Config.WellCut;
    InitInv(c, Started(c, conns, buffers, noise));
  }

  /** The chunk in hand has had every try it may have, and was the one being answered:
      the only fetch refused, or the oldest of those a broken connection had. */
  ghost predicate Spent(c: Config, t: Thread) {
    t.hand.Some? && t.hand.value.attempts == c.maxRetries && (t.pc == OnError || t.flight == [])
  }

  /** What a transfer does not survive: a frame no server may send, a refusal that is
      permanent or about another fetch, and one failure too many of one chunk. */
  ghost predicate Fatal(c: Config, s: State, m: Move) {
    || m.action == Refuse
    || (m.action.GetError? && !(m.action.retryable && m.action.matches))
    || (m.action == Retry && m.thread < |s.threads| && Spent(c, s.threads[m.thread]))
  }

  /** An error is recorded, or a thread is on its way to recording one. */
  ghost predicate Doomed(s: State) {
    s.error || SomeoneWillFail(s.threads)
  }

  ghost predicate Harmless(s: State, i: nat, s': State)
    requires i < |s.threads|
  {
    |s'.threads| == |s.threads| && !WillFail(s'.threads[i]) && s'.error == s.error
  }

  lemma HarmlessTopUp(c: Config, s: State, i: nat)
    requires Inv(c, s) && i < |s.threads| && s.threads[i].pc == Check
    ensures Harmless(s, i, ToppedUp(c, s, i))
  {
    hide Inv;
    var t := s.threads[i];
    ShapedAt(c, s, i);
    if t.flight == [] && Room(c, s, t) == 0 && !s.error && s.remaining > 0 {
      NothingQueued(c, s, t);
      LastFindsNothing(c, s, i);
    }
  }

  lemma NothingQueued(c: Config, s: State, t: Thread)
    requires t.flight == [] && Room(c, s, t) == 0 && !s.error
    ensures s.queue == []
  {
  }

  lemma HarmlessSend(c: Config, s: State, i: nat, ok: bool)
    requires Inv(c, s) && i < |s.threads| && s.threads[i].pc == Sending && s.threads[i].taken != []
    requires s.threads[i].taken[0].id < |c.chunks|
    ensures Harmless(s, i, Sent(c, s, i, ok))
  {
    hide Inv, Claimable;
    ClaimNeverFails(c, s, i);
  }

  lemma HarmlessRetry(c: Config, s: State, i: nat)
    requires i < |s.threads| && s.threads[i].hand.Some? && Tried(c, s.threads[i].hand.value)
    requires (s.threads[i].pc.Recovering? || s.threads[i].pc == OnError) && !WillFail(s.threads[i])
    requires !Spent(c, s.threads[i])
    ensures Harmless(s, i, Retried(c, s, i))
  {
  }

  lemma HarmlessData(c: Config, s: State, i: nat, start: nat, bytes: seq<byte>)
    requires Takes(c, s, i, start, bytes)
    ensures Harmless(s, i, Received(c, s, i, start, bytes))
  {
    hide Splice;
  }

  lemma HarmlessError(s: State, i: nat)
    requires i < |s.threads| && s.threads[i].flight != []
    ensures Harmless(s, i, Errored(s, i, true, true))
  {
  }

  lemma HarmlessGiveBack(s: State, i: nat)
    requires i < |s.threads| && s.threads[i].pc == GivingBack(true)
    ensures Harmless(s, i, GaveBack(s, i))
  {
  }

  /** A step that is not fatal does not set a thread on its way to an error. */
  lemma HarmlessStep(c: Config, s: State, m: Move)
    requires Inv(c, s) && Enabled(c, s, m.thread, m.action) && !m.action.NotifyAll?
    requires !Fatal(c, s, m) && !WillFail(s.threads[m.thread])
    ensures Harmless(s, m.thread, After(c, s, m.thread, m.action))
  {
    hide Inv, After, WillFail, Spent;
    var i, a := m.thread, m.action;
    NotGivingUp(c, s, i, a);
    AfterIs(c, s, i, a);
    match a {
      case TopUp => HarmlessTopUp(c, s, i);
      case SendNext(ok) => HarmlessSend(c, s, i, ok);
      case GetData(start, bytes) => HarmlessData(c, s, i, start, bytes);
      case GetError(_, _) => HarmlessError(s, i);
      case Retry =>
        HandTried(c, s, i);
        HarmlessRetry(c, s, i);
      case GiveBack =>
        GivesForBreak(c, s, i);
        HarmlessGiveBack(s, i);
      case DropSlice => HarmlessDrop(s, i);
      case Complete => HarmlessComplete(s, i);
      case _ => HarmlessMove(c, s, i, a);
    }
  }

  lemma HarmlessDrop(s: State, i: nat)
    requires i < |s.threads| && s.threads[i].flight != [] && !WillFail(s.threads[i])
    ensures Harmless(s, i, Dropped(s, i))
  {
  }

  lemma HarmlessComplete(s: State, i: nat)
    requires i < |s.threads| && s.threads[i].hand.Some? && s.remaining > 0
    ensures Harmless(s, i, Completed(s, i))
  {
  }

  /** A thread that is not giving anything up takes none of the steps that do. */
  lemma NotGivingUp(c: Config, s: State, i: nat, a: Action)
    requires Enabled(c, s, i, a) && !WillFail(s.threads[i])
    ensures a != ClearOne && a != Cleared && a != Fail
  {
    hide Takes;
  }

  lemma HarmlessMove(c: Config, s: State, i: nat, a: Action)
    requires Enabled(c, s, i, a) && !WillFail(s.threads[i])
    requires (IsQuiet(a) && a != Refuse && a != Cleared) || a == Leave
    ensures Harmless(s, i, After(c, s, i, a))
  {
    hide Takes;
  }

  /** The steps with a name of their own. */
  lemma AfterIs(c: Config, s: State, i: nat, a: Action)
    requires Enabled(c, s, i, a)
    ensures a.TopUp? ==> After(c, s, i, a) == ToppedUp(c, s, i)
    ensures a.SendNext? ==> After(c, s, i, a) == Sent(c, s, i, a.ok)
    ensures a.GetData? ==> After(c, s, i, a) == Received(c, s, i, a.start, a.bytes)
    ensures a.GetError? ==> After(c, s, i, a) == Errored(s, i, a.retryable, a.matches)
    ensures a.Retry? ==> After(c, s, i, a) == Retried(c, s, i)
    ensures a.GiveBack? ==> After(c, s, i, a) == GaveBack(s, i)
    ensures a.DropSlice? ==> After(c, s, i, a) == Dropped(s, i)
    ensures a.Complete? ==> After(c, s, i, a) == Completed(s, i)
  {
    hide Takes, ToppedUp, Sent, Received, Errored, Retried, GaveBack, Dropped, Completed;
  }

  lemma HandTried(c: Config, s: State, i: nat)
    requires Inv(c, s) && i < |s.threads| && s.threads[i].hand.Some?
    ensures Tried(c, s.threads[i].hand.value)
  {
    ShapedAt(c, s, i);
  }

  /** Chunks are only ever given back because a connection broke. */
  lemma GivesForBreak(c: Config, s: State, i: nat)
    requires Inv(c, s) && i < |s.threads| && s.threads[i].pc.GivingBack?
    ensures s.threads[i].pc == GivingBack(true)
  {
    ShapedAt(c, s, i);
  }

  /** A fatal step dooms the transfer. */
  lemma FatalStep(c: Config, s: State, m: Move)
    requires Inv(c, s) && Enabled(c, s, m.thread, m.action) && Fatal(c, s, m)
    ensures var s' := After(c, s, m.thread, m.action);
      |s'.threads| == |s.threads| && WillFail(s'.threads[m.thread])
  {
    hide Inv;
    ShapedAt(c, s, m.thread);
  }

  /** What is recorded stays recorded, and who is on the way to an error gets there. */
  lemma StaysDoomed(c: Config, s: State, m: Move)
    requires Inv(c, s) && Enabled(c, s, m.thread, m.action) && Doomed(s)
    ensures Doomed(After(c, s, m.thread, m.action))
  {
    hide Inv, WillFail, AllWoken;
    var i, s' := m.thread, After(c, s, m.thread, m.action);
    if m.action.NotifyAll? {
      if !s.error {
        StillFails(s.threads, i);
      }
    } else {
      StepIsLocal(c, s, i, m.action);
      if !s'.error {
        var j :| 0 <= j < |s.threads| && WillFail(s.threads[j]);
        assert WillFail(s'.threads[j]);
      }
    }
  }

  /** One step: the transfer is doomed from here on exactly if it was, or the step is fatal. */
  lemma DoomStep(c: Config, s: State, m: Move)
    requires Inv(c, s) && Enabled(c, s, m.thread, m.action)
    ensures Doomed(After(c, s, m.thread, m.action)) <==> Doomed(s) || Fatal(c, s, m)
  {
    hide Inv, WillFail, AllWoken, Fatal;
    var i, s' := m.thread, After(c, s, m.thread, m.action);
    if Doomed(s) {
      StaysDoomed(c, s, m);
    } else if Fatal(c, s, m) {
      FatalStep(c, s, m);
    } else if m.action.NotifyAll? {
      WakingDoomsNobody(c, s, i);
    } else {
      assert !WillFail(s.threads[i]);
      HarmlessStep(c, s, m);
      StepIsLocal(c, s, i, m.action);
      forall j | 0 <= j < |s'.threads| ensures !WillFail(s'.threads[j]) {
        assert j != i ==> s'.threads[j] == s.threads[j];
      }
    }
  }

  lemma WakingDoomsNobody(c: Config, s: State, i: nat)
    requires Inv(c, s) && i < |s.threads| && s.threads[i].pc.Notifying? && !SomeoneWillFail(s.threads)
    ensures !SomeoneWillFail(AllWoken(s.threads)[i := s.threads[i].(pc := s.threads[i].pc.next)])
  {
    hide Inv;
    ShapedAt(c, s, i);
    var t := s.threads[i];
    assert !WillFail(t);
    forall j | 0 <= j < |s.threads| ensures !WillFail(Woken(s.threads[j])) {
      assert !WillFail(s.threads[j]);
    }
  }

  ghost predicate SomeFatal(c: Config, states: seq<State>, moves: seq<Move>)
    requires |states| == |moves| + 1
  {
    exists k :: 0 <= k < |moves| && Fatal(c, states[k], moves[k])
  }

  lemma TracePrefix(c: Config, states: seq<State>, moves: seq<Move>)
    requires Trace(c, states, moves) && moves != []
    ensures Trace(c, states[..|moves|], moves[..|moves| - 1])
    ensures Stepped(c, states[|moves| - 1], moves[|moves| - 1], states[|moves|])
  {
    hide Init, Stepped;
    var n := |moves| - 1;
    forall k | 0 <= k < n ensures Stepped(c, states[..n + 1][k], moves[..n][k], states[..n + 1][k + 1]) {
      assert Stepped(c, states[k], moves[k], states[k + 1]);
    }
  }

  lemma {:induction false} TraceKeeps(c: Config, states: seq<State>, moves: seq<Move>)
    requires Trace(c, states, moves)
    ensures Inv(c, states[|moves|])
    ensures Doomed(states[|moves|]) <==> SomeFatal(c, states, moves)
    decreases |moves|
  {
    hide Inv, Init, Fatal, Enabled, After;
    var n := |moves| - 1;
    if moves == [] {
      InitInv(c, states[0]);
      StartsWell(c, states[0]);
    } else {
      TracePrefix(c, states, moves);
      TraceKeeps(c, states[..n + 1], moves[..n]);
      StepKeeps(c, states[n], moves[n].thread, moves[n].action);
      DoomStep(c, states[n], moves[n]);
      FatalSooner(c, states, moves);
    }
  }

  lemma StartsWell(c: Config, s: State)
    requires Init(c, s)
    ensures !Doomed(s)
  {
    forall i | 0 <= i < |s.threads| ensures !WillFail(s.threads[i]) {
      assert s.threads[i] in s.threads;
    }
  }

  lemma FatalSooner(c: Config, states: seq<State>, moves: seq<Move>)
    requires |states| == |moves| + 1 && moves != []
    ensures var n := |moves| - 1;
      SomeFatal(c, states, moves) <==> SomeFatal(c, states[..n + 1], moves[..n]) || Fatal(c, states[n], moves[n])
  {
    hide Fatal;
    var n := |moves| - 1;
    if SomeFatal(c, states[..n + 1], moves[..n]) {
      var k :| 0 <= k < n && Fatal(c, states[..n + 1][k], moves[..n][k]);
      assert Fatal(c, states[k], moves[k]);
    }
    if k :| 0 <= k < n && Fatal(c, states[k], moves[k]) {
      assert Fatal(c, states[..n + 1][k], moves[..n][k]);
    }
  }

  /** Nothing but a fatal step makes a transfer fail: whatever breaks, and however
      often, as long as no chunk runs out of tries, no error is recorded and no
      chunk is lost. */
  lemma FailsOnlyAfterFatal(c: Config, states: seq<State>, moves: seq<Move>)
    requires Trace(c, states, moves)
    requires states[|moves|].error || states[|moves|].lost != multiset{}
    ensures exists k :: 0 <= k < |moves| && Fatal(c, states[k], moves[k])
  {
    hide Fatal, WillFail;
    TraceKeeps(c, states, moves);
  }

  lemma StuckOver(c: Config, s: State)
    requires Inv(c, s) && Stuck(c, s)
    ensures Over(s) && !SomeoneWillFail(s.threads)
  {
    hide Inv, Enabled, WillFail;
    forall i | 0 <= i < |s.threads| ensures s.threads[i].pc == Left {
      if s.threads[i].pc != Left {
        NoDeadlock(c, s, i);
      }
    }
    forall i | 0 <= i < |s.threads| ensures !WillFail(s.threads[i]) {
      OverIdling(c, s, i);
    }
  }

  /** A run that is over has an error exactly if one of its steps was fatal. */
  lemma EndsInErrorIff(c: Config, states: seq<State>, moves: seq<Move>)
    requires Trace(c, states, moves) && Stuck(c, states[|moves|])
    ensures states[|moves|].error <==> exists k :: 0 <= k < |moves| && Fatal(c, states[k], moves[k])
  {
    hide Fatal, Inv, Enabled;
    TraceKeeps(c, states, moves);
    StuckOver(c, states[|moves|]);
  }

  /** A thread on its way out of the transfer. */
  ghost predicate Going(t: Thread) {
    t.pc == Leaving || t.pc == Notifying(Left) || t.pc == Left
  }

  /** The thread could not be started, or its connection not be rebuilt. */
  ghost predicate Loses(m: Move, i: nat) {
    m == Move(i, SpawnFails) || m == Move(i, Reconnect(false))
  }

  ghost predicate CutOff(moves: seq<Move>, i: nat) {
    exists k :: 0 <= k < |moves| && Loses(moves[k], i)
  }

  ghost predicate Nothing(s: State) {
    s.error || s.remaining == 0
  }

  ghost predicate StaysIn(s: State, i: nat, s': State) {
    i < |s.threads| == |s'.threads| && !Going(s'.threads[i])
  }

  lemma SenderStays(c: Config, s: State, i: nat, ok: bool)
    requires i < |s.threads| && s.threads[i].taken != [] && s.threads[i].taken[0].id < |c.chunks|
    requires s.threads[i].pc == Sending
    ensures StaysIn(s, i, Sent(c, s, i, ok))
  {
    hide Claimable;
  }

  lemma ReaderStays(c: Config, s: State, i: nat, start: nat, bytes: seq<byte>, retryable: bool, matches: bool)
    requires i < |s.threads|
    ensures Takes(c, s, i, start, bytes) ==> StaysIn(s, i, Received(c, s, i, start, bytes))
    ensures s.threads[i].flight != [] ==> StaysIn(s, i, Errored(s, i, retryable, matches))
  {
    hide Splice;
  }

  lemma GiverStays(s: State, i: nat)
    requires i < |s.threads| && s.threads[i].pc.GivingBack?
    ensures StaysIn(s, i, GaveBack(s, i))
  {
  }

  lemma DropperStays(s: State, i: nat)
    requires i < |s.threads| && s.threads[i].flight != []
    requires s.threads[i].pc.Recovering? || s.threads[i].pc == Clearing
    ensures StaysIn(s, i, Dropped(s, i)) && StaysIn(s, i, Forgotten(s, i))
  {
  }

  lemma RetrierStays(c: Config, s: State, i: nat)
    requires i < |s.threads| && s.threads[i].hand.Some?
    requires s.threads[i].pc.Recovering? || s.threads[i].pc == OnError
    ensures StaysIn(s, i, Retried(c, s, i))
  {
  }

  lemma IdlerGoes(c: Config, s: State, i: nat)
    requires i < |s.threads| && s.threads[i].pc == Check
    ensures |ToppedUp(c, s, i).threads| == |s.threads|
    ensures Nothing(s) || StaysIn(s, i, ToppedUp(c, s, i))
  {
  }

  lemma GoesForReason(c: Config, s: State, m: Move)
    requires Enabled(c, s, m.thread, m.action) && !m.action.NotifyAll?
    ensures |After(c, s, m.thread, m.action).threads| == |s.threads|
    ensures Going(After(c, s, m.thread, m.action).threads[m.thread]) ==>
      Going(s.threads[m.thread]) || Loses(m, m.thread) || Nothing(s)
  {
    hide Takes, Received, Sent, Errored, GaveBack, Dropped, Retried, Forgotten, ToppedUp;
    var i := m.thread;
    match m.action {
      case TopUp => IdlerGoes(c, s, i);
      case SendNext(ok) => SenderStays(c, s, i, ok);
      case GetData(start, bytes) => ReaderStays(c, s, i, start, bytes, true, true);
      case GetError(retryable, matches) => ReaderStays(c, s, i, 0, [], retryable, matches);
      case GiveBack => GiverStays(s, i);
      case DropSlice => DropperStays(s, i);
      case Retry => RetrierStays(c, s, i);
      case ClearOne => DropperStays(s, i);
      case _ =>
    }
  }

  lemma NothingStays(c: Config, s: State, m: Move)
    requires Inv(c, s) && Enabled(c, s, m.thread, m.action) && Nothing(s)
    ensures Nothing(After(c, s, m.thread, m.action))
  {
    hide Inv, Takes, Claimable, Splice, AllWoken;
  }

  /** One step keeps a reason for every thread that is going. */
  lemma ReasonsKept(c: Config, s: State, m: Move, i: nat)
    requires Inv(c, s) && Enabled(c, s, m.thread, m.action) && i < |s.threads|
    ensures |After(c, s, m.thread, m.action).threads| == |s.threads|
    ensures Going(After(c, s, m.thread, m.action).threads[i]) ==>
      Going(s.threads[i]) || Loses(m, i) || Nothing(s)
  {
    hide Inv, Local, Going, Loses, Nothing;
    if m.action.NotifyAll? {
      WakingGoesOn(c, s, m.thread, i);
    } else {
      GoesForReason(c, s, m);
      if i != m.thread {
        StepIsLocal(c, s, m.thread, m.action);
        LocalOther(c, s, m.thread, After(c, s, m.thread, m.action), i);
      }
    }
  }

  lemma LocalOther(c: Config, s: State, i: nat, s': State, j: nat)
    requires i < |s.threads| == |s'.threads| && Local(c, s, i, s') && j < |s.threads| && j != i
    ensures s'.threads[j] == s.threads[j]
  {
  }

  lemma WakingGoesOn(c: Config, s: State, i: nat, j: nat)
    requires Inv(c, s) && i < |s.threads| && j < |s.threads| && s.threads[i].pc.Notifying?
    ensures Going(AllWoken(s.threads)[i := s.threads[i].(pc := s.threads[i].pc.next)][j]) ==> Going(s.threads[j])
  {
    hide Inv;
    ShapedAt(c, s, i);
  }

  lemma {:induction false} GoneForReason(c: Config, states: seq<State>, moves: seq<Move>, i: nat)
    requires Trace(c, states, moves) && i < |states[0].threads|
    ensures |states[|moves|].threads| == |states[0].threads|
    ensures Going(states[|moves|].threads[i]) ==> Nothing(states[|moves|]) || CutOff(moves, i)
    decreases |moves|
  {
    hide Inv, Enabled, After, Going, Nothing, Loses;
    var n := |moves| - 1;
    if moves == [] {
      NobodyGoes(c, states[0], i);
    } else {
      TracePrefix(c, states, moves);
      GoneForReason(c, states[..n + 1], moves[..n], i);
      TraceKeeps(c, states[..n + 1], moves[..n]);
      ReasonsKept(c, states[n], moves[n], i);
      if Nothing(states[n]) {
        NothingStays(c, states[n], moves[n]);
      } else if CutOff(moves[..n], i) {
        var k :| 0 <= k < n && Loses(moves[..n][k], i);
        assert Loses(moves[k], i);
      }
    }
  }

  lemma NobodyGoes(c: Config, s: State, i: nat)
    requires Init(c, s) && i < |s.threads|
    ensures !Going(s.threads[i])
  {
    assert s.threads[i] in s.threads;
  }

  /** A run that is over leaves chunks unfetched only after a fatal step, or because
      every thread was cut off: could not be started, or lost its connection for good. */
  lemma UnfinishedMeansCutOff(c: Config, states: seq<State>, moves: seq<Move>)
    requires Trace(c, states, moves) && Stuck(c, states[|moves|])
    requires states[|moves|].remaining > 0
    ensures states[|moves|].error || forall i :: 0 <= i < |states[0].threads| ==> CutOff(moves, i)
    ensures |states[|moves|].threads| == |states[0].threads| > 0
  {
    hide Inv, Enabled, CutOff, Stuck;
    TraceKeeps(c, states, moves);
    StuckOver(c, states[|moves|]);
    forall i | 0 <= i < |states[0].threads|
      ensures |states[|moves|].threads| == |states[0].threads|
      ensures states[|moves|].error || CutOff(moves, i)
    {
      GoneForReason(c, states, moves, i);
    }
    GoneForReason(c, states, moves, 0);
  }
}
