/** Every run of the pool ends: each step takes something from a measure that
    cannot be taken from forever. */
module PoolEnds {
  import opened Words
  import opened Pool
  import opened PoolSafety
  import opened PoolSteps

  /** Fetches a chunk may still fail, this one included. */
  function Cost(c: Config, chunk: Chunk): nat {
    if chunk.attempts <= c.maxRetries then c.maxRetries + 1 - chunk.attempts else 0
  }

  ghost function Budget(c: Config, chunks: seq<Chunk>): nat {
    if chunks == [] then 0 else Budget(c, chunks[..|chunks| - 1]) + Cost(c, chunks[|chunks| - 1])
  }

  function LenOf(c: Config, chunk: Chunk): nat {
    if chunk.id < |c.chunks| then c.chunks[chunk.id].len else 0
  }

  ghost function Bytes(c: Config, chunks: seq<Chunk>): nat {
    if chunks == [] then 0 else Bytes(c, chunks[..|chunks| - 1]) + LenOf(c, chunks[|chunks| - 1])
  }

  /** Bytes of a fetch still to come. */
  function Missing(c: Config, f: InFlight): nat {
    if f.received <= LenOf(c, f.chunk) then LenOf(c, f.chunk) - f.received else 0
  }

  ghost function FlightBytes(c: Config, flight: seq<InFlight>): nat {
    if flight == [] then 0 else FlightBytes(c, flight[..|flight| - 1]) + Missing(c, flight[|flight| - 1])
  }

  ghost function FlightBudget(c: Config, flight: seq<InFlight>): nat {
    if flight == [] then 0 else FlightBudget(c, flight[..|flight| - 1]) + Cost(c, flight[|flight| - 1].chunk)
  }

  lemma {:induction false} BudgetConcat(c: Config, a: seq<Chunk>, b: seq<Chunk>)
    ensures Budget(c, a + b) == Budget(c, a) + Budget(c, b) && Bytes(c, a + b) == Bytes(c, a) + Bytes(c, b)
    decreases |b|
  {
    if b == [] {
      assert a + b == a;
    } else {
      BudgetConcat(c, a, b[..|b| - 1]);
      assert (a + b)[..|a + b| - 1] == a + b[..|b| - 1];
    }
  }

  lemma BudgetOne(c: Config, chunk: Chunk)
    ensures Budget(c, [chunk]) == Cost(c, chunk) && Bytes(c, [chunk]) == LenOf(c, chunk)
    ensures Budget(c, []) == 0 && Bytes(c, []) == 0
  {
    assert [chunk][..0] == [];
  }

  lemma {:induction false} FlightSum(c: Config, a: seq<InFlight>, b: seq<InFlight>)
    ensures FlightBudget(c, a + b) == FlightBudget(c, a) + FlightBudget(c, b)
    ensures FlightBytes(c, a + b) == FlightBytes(c, a) + FlightBytes(c, b)
    decreases |b|
  {
    if b == [] {
      assert a + b == a;
    } else {
      FlightSum(c, a, b[..|b| - 1]);
      assert (a + b)[..|a + b| - 1] == a + b[..|b| - 1];
    }
  }

  lemma FlightSumOne(c: Config, f: InFlight)
    ensures FlightBudget(c, [f]) == Cost(c, f.chunk) && FlightBytes(c, [f]) == Missing(c, f)
    ensures FlightBudget(c, []) == 0 && FlightBytes(c, []) == 0
  {
    assert [f][..0] == [];
  }

  /** A connection broke, or a fetch was answered with an error, and the chunk to
      blame is not charged yet. */
  predicate Pending(t: Thread, pc: Pc) {
    match pc
    case GivingBack(_) => true
    case Recovering(_) => t.flight != [] || t.hand.Some?
    case OnError => true
    case Notifying(next) => next.Recovering? && (t.flight != [] || t.hand.Some?)
    case _ => false
  }

  /** What a thread's chunks may still cost, the charge to come taken off. Chunks
      being given up, and a chunk that is complete, cost nothing more. */
  ghost function OwnBudget(c: Config, t: Thread): nat {
    var all := Budget(c, t.taken)
      + (if t.pc == Clearing then 0 else FlightBudget(c, t.flight))
      + (if t.hand.Some? && t.pc != Completing then Cost(c, t.hand.value) else 0);
    if Pending(t, t.pc) && all > 0 then all - 1 else all
  }

  /** Steps left of what a thread is recovering from. */
  function Phase(t: Thread, pc: Pc): nat {
    if pc.Notifying? then PhaseAt(t, pc.next) else PhaseAt(t, pc)
  }

  function PhaseAt(t: Thread, pc: Pc): nat {
    match pc
    case GivingBack(_) => 4 + 3 * |t.flight|
    case Recovering(_) => 2 + 3 * |t.flight| + (if t.hand.Some? then 2 else 0)
    case OnError => 2
    case Clearing => 2 + |t.flight|
    case Failing => 1
    case _ => 0
  }

  function Rank(pc: Pc): nat {
    match pc
    case Start => 7
    case Top => 6
    case Reconnecting => 5
    case Check => 4
    case Sending => 3
    case Reading => 2
    case Asleep => 1
    case Leaving => 1
    case _ => 0
  }

  datatype Weight = Weight(budget: nat, phase: nat, bytes: nat, notices: nat, places: nat, rank: nat) {
    function Add(w: Weight): Weight {
      Weight(budget + w.budget, phase + w.phase, bytes + w.bytes, notices + w.notices, places + w.places, rank + w.rank)
    }
  }

  ghost function Own(c: Config, t: Thread): Weight {
    Weight(OwnBudget(c, t), Phase(t, t.pc), Bytes(c, t.taken) + FlightBytes(c, t.flight),
           if t.pc.Notifying? then 1 else 0, |t.taken|, Rank(t.pc))
  }

  ghost function Total(c: Config, threads: seq<Thread>): Weight {
    if threads == [] then Weight(0, 0, 0, 0, 0, 0)
    else Total(c, threads[..|threads| - 1]).Add(Own(c, threads[|threads| - 1]))
  }

  lemma {:induction false} TotalUpdate(c: Config, threads: seq<Thread>, i: nat, t: Thread)
    requires i < |threads|
    ensures Total(c, threads[i := t]).Add(Own(c, threads[i])) == Total(c, threads).Add(Own(c, t))
    decreases |threads|
  {
    hide Own;
    UpdateInit(threads, i, t);
    if i < |threads| - 1 {
      TotalUpdate(c, threads[..|threads| - 1], i, t);
    }
  }

  /** What a run uses up, most significant first. */
  datatype Measure = Measure(
    budget: nat, phase: nat, bytes: nat, noise: nat, tasks: nat, notices: nat, places: nat, rank: nat)
  {
    predicate Below(m: Measure) {
      budget < m.budget || (budget == m.budget &&
      (phase < m.phase || (phase == m.phase &&
      (bytes < m.bytes || (bytes == m.bytes &&
      (noise < m.noise || (noise == m.noise &&
      (tasks < m.tasks || (tasks == m.tasks &&
      (notices < m.notices || (notices == m.notices &&
      (places < m.places || (places == m.places && rank < m.rank)))))))))))))
    }
  }

  /** The measure of a state whose threads weigh `w`. */
  ghost function Weighed(c: Config, s: State, w: Weight): Measure {
    Measure(Budget(c, s.queue) + w.budget, w.phase, Bytes(c, s.queue) + w.bytes, s.noise,
            s.remaining + s.live, w.notices, 2 * |s.queue| + w.places, w.rank)
  }

  ghost function MeasureOf(c: Config, s: State): Measure {
    Weighed(c, s, Total(c, s.threads))
  }

  /** One thread's step takes from the measure what it takes from its own part. */
  lemma LocalBelow(c: Config, s: State, i: nat, s': State)
    requires i < |s.threads| == |s'.threads| && s'.threads == s.threads[i := s'.threads[i]]
    requires Weighed(c, s', Own(c, s'.threads[i])).Below(Weighed(c, s, Own(c, s.threads[i])))
    ensures MeasureOf(c, s').Below(MeasureOf(c, s))
  {
    hide Own, Total, Budget, Bytes;
    TotalUpdate(c, s.threads, i, s'.threads[i]);
  }

  lemma FrontSum(c: Config, flight: seq<InFlight>)
    requires flight != []
    ensures FlightBudget(c, flight) == Cost(c, flight[0].chunk) + FlightBudget(c, flight[1..])
    ensures FlightBytes(c, flight) == Missing(c, flight[0]) + FlightBytes(c, flight[1..])
  {
    assert flight == [flight[0]] + flight[1..];
    FlightSum(c, [flight[0]], flight[1..]);
    FlightSumOne(c, flight[0]);
  }

  /** A fetch in flight still has a try left. */
  lemma FrontCosts(c: Config, flight: seq<InFlight>)
    requires FlightShaped(c, flight) && flight != []
    ensures Cost(c, flight[0].chunk) > 0 && FlightBudget(c, flight) > 0
  {
    FrontSum(c, flight);
    assert InFlightShaped(c, flight, 0);
  }

  lemma NothingWeighs(c: Config)
    ensures Budget(c, []) == 0 && Bytes(c, []) == 0 && FlightBudget(c, []) == 0 && FlightBytes(c, []) == 0
  {
  }

  ghost predicate Drops(c: Config, s: State, i: nat, s': State) {
    && i < |s.threads| == |s'.threads| && s'.threads == s.threads[i := s'.threads[i]]
    && Weighed(c, s', Own(c, s'.threads[i])).Below(Weighed(c, s, Own(c, s.threads[i])))
  }

  /** Points of the loop where a thread is recovering from nothing. */
  predicate Plain(pc: Pc) {
    pc == Start || pc == Top || pc == Reconnecting || pc == Check || pc == Asleep || pc == Sending || pc == Reading
    || pc == Leaving
  }

  /** Going on within the loop takes from the rank alone, or from the noise. */
  lemma PlainDrops(c: Config, s: State, i: nat, pc: Pc, conn: bool, noise: nat)
    requires i < |s.threads| && Plain(s.threads[i].pc) && Plain(pc)
    requires noise < s.noise || (noise == s.noise && Rank(pc) < Rank(s.threads[i].pc))
    ensures Drops(c, s, i, Put(s, i, s.threads[i].(pc := pc, conn := conn)).(noise := noise))
  {
    hide Budget, Bytes, FlightBudget, FlightBytes, Plain, Rank;
    PlainOwn(c, s.threads[i], pc, conn);
  }

  lemma PlainOwn(c: Config, t: Thread, pc: Pc, conn: bool)
    requires Plain(t.pc) && Plain(pc)
    ensures Own(c, t.(pc := pc, conn := conn)) == Own(c, t).(rank := Rank(pc))
  {
    hide Budget, Bytes, FlightBudget, FlightBytes;
  }

  /** A broken connection: its oldest fetch will be charged. */
  lemma BreakDrops(c: Config, s: State, i: nat)
    requires Inv(c, s) && i < |s.threads| && s.threads[i].pc == Reading
    ensures Drops(c, s, i, Put(s, i, s.threads[i].(pc := Recovering(false), conn := false)))
    ensures Drops(c, s, i, Put(s, i, s.threads[i].(pc := Clearing, conn := false)))
  {
    hide Inv, Budget, Bytes, FlightBudget, FlightBytes, FlightShaped, AllTried;
    var t := s.threads[i];
    Facts(c, s, i);
    NothingWeighs(c);
    FrontCosts(c, t.flight);
  }

  lemma RecoveredDrops(c: Config, s: State, i: nat, next: Pc)
    requires i < |s.threads| && s.threads[i].flight == [] && s.threads[i].hand == None
    requires s.threads[i].pc.Recovering? || s.threads[i].pc == Clearing
    requires next == Failing || (next == Top && s.threads[i].pc.Recovering?)
    ensures Drops(c, s, i, Put(s, i, s.threads[i].(pc := next)))
  {
    hide Budget, Bytes, FlightBudget, FlightBytes;
    NothingWeighs(c);
  }

  lemma QuietDrops(c: Config, s: State, i: nat, a: Action)
    requires Inv(c, s) && Enabled(c, s, i, a) && IsQuiet(a)
    ensures Drops(c, s, i, After(c, s, i, a))
  {
    hide Inv, Drops, Own, FlightShaped, AllTried;
    var t := s.threads[i];
    Facts(c, s, i);
    match a {
      case Spawn => PlainDrops(c, s, i, Top, t.conn, s.noise);
      case SpawnFails => PlainDrops(c, s, i, Leaving, t.conn, s.noise);
      case Go => PlainDrops(c, s, i, if t.conn then Check else if s.error then Leaving else Reconnecting, t.conn,
          s.noise);
      case Reconnect(ok) => PlainDrops(c, s, i, if ok then Check else Leaving, ok || t.conn, s.noise);
      case Wake => PlainDrops(c, s, i, Check, t.conn, s.noise - 1);
      case StartReading => PlainDrops(c, s, i, Reading, t.conn, s.noise);
      case Break => BreakDrops(c, s, i);
      case Refuse => BreakDrops(c, s, i);
      case Idle => PlainDrops(c, s, i, Top, t.conn, s.noise - 1);
      case Recovered => RecoveredDrops(c, s, i, if t.pc.exhausted then Failing else Top);
      case Cleared => RecoveredDrops(c, s, i, Failing);
    }
  }

  lemma TakeDrops(c: Config, s: State, i: nat)
    requires Inv(c, s) && i < |s.threads| && s.threads[i].pc == Check
    requires s.threads[i].flight != [] || Room(c, s, s.threads[i]) > 0
    ensures Drops(c, s, i, ToppedUp(c, s, i))
  {
    hide Inv, Budget, Bytes, FlightBudget, FlightBytes, FlightShaped, AllTried, Config.WellCut, BuffersSized;
    var t := s.threads[i];
    Facts(c, s, i);
    NothingWeighs(c);
    var room := Room(c, s, t);
    assert s.queue == s.queue[..room] + s.queue[room..];
    BudgetConcat(c, s.queue[..room], s.queue[room..]);
  }

  lemma TopUpDrops(c: Config, s: State, i: nat)
    requires Inv(c, s) && i < |s.threads| && s.threads[i].pc == Check
    ensures Drops(c, s, i, ToppedUp(c, s, i))
  {
    hide Inv, Drops, Own, FlightShaped, AllTried;
    var t := s.threads[i];
    Facts(c, s, i);
    if t.flight != [] || Room(c, s, t) > 0 {
      TakeDrops(c, s, i);
    } else if s.error || s.remaining == 0 {
      PlainDrops(c, s, i, Leaving, t.conn, s.noise);
    } else {
      LastFindsNothing(c, s, i);
      PlainDrops(c, s, i, Asleep, t.conn, s.noise);
    }
  }

  lemma SendDrops(c: Config, s: State, i: nat, ok: bool)
    requires Inv(c, s) && i < |s.threads| && s.threads[i].pc == Sending && s.threads[i].taken != []
    requires s.threads[i].taken[0].id < |c.chunks|
    ensures Drops(c, s, i, Sent(c, s, i, ok))
  {
    hide Inv, Budget, Bytes, FlightBudget, FlightBytes, FlightShaped, AllTried, Claimable;
    var t := s.threads[i];
    Facts(c, s, i);
    ClaimNeverFails(c, s, i);
    FirstTried(c, t.taken);
    assert t.taken == [t.taken[0]] + t.taken[1..];
    BudgetConcat(c, [t.taken[0]], t.taken[1..]);
    BudgetOne(c, t.taken[0]);
    FlightSum(c, t.flight, [InFlight(t.taken[0], 0)]);
    FlightSumOne(c, InFlight(t.taken[0], 0));
  }

  lemma ReceiveDrops(c: Config, s: State, i: nat, start: nat, bytes: seq<byte>)
    requires Inv(c, s) && Takes(c, s, i, start, bytes) && s.threads[i].pc == Reading
    requires bytes == [] ==> s.noise > 0
    ensures Drops(c, s, i, Received(c, s, i, start, bytes))
  {
    hide Inv, Budget, Bytes, FlightBudget, FlightBytes, FlightShaped, AllTried, Splice;
    var t := s.threads[i];
    var front := t.flight[0];
    Facts(c, s, i);
    FrontCosts(c, t.flight);
    FrontSum(c, t.flight);
    FrontMissing(c, t.flight);
    var now := t.flight[0 := front.(received := front.received + |bytes|)];
    assert now[1..] == t.flight[1..];
    FrontSum(c, now);
  }

  lemma FrontMissing(c: Config, flight: seq<InFlight>)
    requires FlightShaped(c, flight) && flight != [] && flight[0].chunk.id < |c.chunks|
    ensures flight[0].received < c.chunks[flight[0].chunk.id].len
  {
    assert InFlightShaped(c, flight, 0);
  }

  lemma ErrorDrops(c: Config, s: State, i: nat, retryable: bool, matches: bool)
    requires Inv(c, s) && i < |s.threads| && s.threads[i].pc == Reading && s.threads[i].flight != []
    ensures Drops(c, s, i, Errored(s, i, retryable, matches))
  {
    hide Inv, Budget, Bytes, FlightBudget, FlightBytes, FlightShaped, AllTried;
    var t := s.threads[i];
    Facts(c, s, i);
    NothingWeighs(c);
    FrontCosts(c, t.flight);
    FrontSum(c, t.flight);
  }

  lemma CompleteDrops(c: Config, s: State, i: nat)
    requires Inv(c, s) && i < |s.threads| && s.threads[i].pc == Completing && s.threads[i].hand.Some? && s.remaining > 0
    ensures Drops(c, s, i, Completed(s, i))
  {
    hide Inv, Budget, Bytes, FlightBudget, FlightBytes, FlightShaped, AllTried;
    Facts(c, s, i);
  }

  lemma GiveBackDrops(c: Config, s: State, i: nat)
    requires Inv(c, s) && i < |s.threads| && s.threads[i].pc.GivingBack?
    ensures Drops(c, s, i, GaveBack(s, i))
  {
    hide Inv, Budget, Bytes, FlightBudget, FlightBytes, FlightShaped, AllTried;
    var t := s.threads[i];
    Facts(c, s, i);
    FrontCosts(c, t.flight);
    NothingWeighs(c);
    BudgetConcat(c, t.taken, s.queue);
  }

  lemma DropDrops(c: Config, s: State, i: nat)
    requires Inv(c, s) && i < |s.threads|
    requires s.threads[i].pc.Recovering? && s.threads[i].hand.None? && s.threads[i].flight != []
    ensures Drops(c, s, i, Dropped(s, i))
  {
    hide Inv, Budget, Bytes, FlightShaped, AllTried;
    var t := s.threads[i];
    Facts(c, s, i);
    FlightParts(c, t.flight);
  }

  lemma RetryDrops(c: Config, s: State, i: nat)
    requires Inv(c, s) && i < |s.threads|
    requires (s.threads[i].pc.Recovering? || s.threads[i].pc == OnError) && s.threads[i].hand.Some?
    ensures Drops(c, s, i, Retried(c, s, i))
  {
    hide Inv, Drops;
    if s.threads[i].pc == OnError {
      ErrorRetryDrops(c, s, i);
    } else {
      BrokenRetryDrops(c, s, i);
    }
  }

  lemma ErrorRetryDrops(c: Config, s: State, i: nat)
    requires Inv(c, s) && i < |s.threads| && s.threads[i].pc == OnError && s.threads[i].hand.Some?
    ensures Drops(c, s, i, Retried(c, s, i))
  {
    hide Inv, Budget, Bytes, FlightBudget, FlightBytes, FlightShaped, AllTried;
    var t := s.threads[i];
    Facts(c, s, i);
    NothingWeighs(c);
    var again := Chunk(t.hand.value.id, Charged(t));
    BudgetConcat(c, [again], s.queue);
    BudgetOne(c, again);
  }

  lemma BrokenRetryDrops(c: Config, s: State, i: nat)
    requires Inv(c, s) && i < |s.threads| && s.threads[i].pc.Recovering? && s.threads[i].hand.Some?
    ensures Drops(c, s, i, Retried(c, s, i))
  {
    hide Inv, Budget, Bytes, FlightBudget, FlightBytes, FlightShaped, AllTried, Config.WellCut, BuffersSized, Own;
    var t := s.threads[i];
    Facts(c, s, i);
    var again := Chunk(t.hand.value.id, Charged(t));
    BudgetConcat(c, [again], s.queue);
    BudgetOne(c, again);
    if Charged(t) > c.maxRetries {
      HandGone(c, t, Recovering(true));
    } else {
      HandGone(c, t, Notifying(t.pc));
    }
  }

  /** The hand emptied: of a chunk not to blame its whole cost goes, of the one to
      blame all but the charge. */
  lemma HandGone(c: Config, t: Thread, pc: Pc)
    requires t.pc.Recovering? && t.hand.Some? && t.taken == [] && FlightShaped(c, t.flight)
    requires Tried(c, t.hand.value) && (pc.Recovering? || (pc.Notifying? && pc.next.Recovering?))
    ensures var w, w' := Own(c, t), Own(c, t.(pc := pc, hand := None));
      && w'.phase < w.phase
      && w.budget == w'.budget + Cost(c, t.hand.value) - (if t.flight == [] then 1 else 0)
  {
    hide Budget, Bytes, FlightBudget, FlightBytes, FlightShaped;
    NothingWeighs(c);
    if t.flight != [] {
      FrontCosts(c, t.flight);
    }
  }

  lemma ClearDrops(c: Config, s: State, i: nat)
    requires Inv(c, s) && i < |s.threads| && s.threads[i].pc == Clearing && s.threads[i].flight != []
    ensures Drops(c, s, i, Forgotten(s, i))
  {
    hide Inv, Budget, Bytes, FlightBudget, FlightBytes, FlightShaped, AllTried;
    Facts(c, s, i);
  }

  lemma FailDrops(c: Config, s: State, i: nat)
    requires Inv(c, s) && i < |s.threads| && s.threads[i].pc == Failing
    ensures Drops(c, s, i, Failed(s, i))
  {
    hide Inv, Budget, Bytes, FlightBudget, FlightBytes, FlightShaped, AllTried;
    Facts(c, s, i);
  }

  lemma LeaveDrops(c: Config, s: State, i: nat)
    requires Inv(c, s) && i < |s.threads| && s.threads[i].pc == Leaving && s.live > 0
    ensures Drops(c, s, i, Departed(s, i))
  {
    hide Inv, Budget, Bytes, FlightBudget, FlightBytes, FlightShaped, AllTried;
    Facts(c, s, i);
  }

  lemma WokenWeighs(c: Config, t: Thread)
    ensures Own(c, Woken(t)).(rank := Own(c, t).rank) == Own(c, t)
  {
  }

  lemma {:induction false} WokenTotal(c: Config, threads: seq<Thread>)
    ensures Total(c, AllWoken(threads)).(rank := Total(c, threads).rank) == Total(c, threads)
    decreases |threads|
  {
    hide Own, Woken;
    if threads != [] {
      var init := threads[..|threads| - 1];
      WokenTotal(c, init);
      assert AllWoken(threads)[..|threads| - 1] == AllWoken(init);
      WokenWeighs(c, threads[|threads| - 1]);
    }
  }

  lemma NotifiedWeighs(c: Config, t: Thread)
    requires Placed(t, t.pc) && t.pc.Notifying?
    ensures var w, w' := Own(c, t), Own(c, t.(pc := t.pc.next));
      && w'.budget == w.budget && w'.phase == w.phase && w'.bytes == w.bytes && w'.places == w.places
      && w'.notices + 1 == w.notices
  {
  }

  lemma NotifyDrops(c: Config, s: State, i: nat)
    requires Inv(c, s) && i < |s.threads| && s.threads[i].pc.Notifying?
    ensures MeasureOf(c, s.(threads := AllWoken(s.threads)[i := s.threads[i].(pc := s.threads[i].pc.next)]))
      .Below(MeasureOf(c, s))
  {
    hide Inv, Own, Total, Budget, Bytes, Placed;
    var t := s.threads[i];
    Facts(c, s, i);
    WokenTotal(c, s.threads);
    assert AllWoken(s.threads)[i] == t;
    TotalUpdate(c, AllWoken(s.threads), i, t.(pc := t.pc.next));
    NotifiedWeighs(c, t);
  }

  /** Every step takes something from the measure. */
  lemma StepBelow(c: Config, s: State, i: nat, a: Action)
    requires Inv(c, s) && Enabled(c, s, i, a)
    ensures MeasureOf(c, After(c, s, i, a)).Below(MeasureOf(c, s))
  {
    hide Inv, Drops, MeasureOf;
    if a.NotifyAll? {
      NotifyDrops(c, s, i);
    } else {
      match a {
        case TopUp => TopUpDrops(c, s, i);
        case SendNext(ok) => SendDrops(c, s, i, ok);
        case GetData(start, bytes) => ReceiveDrops(c, s, i, start, bytes);
        case GetError(retryable, matches) => ErrorDrops(c, s, i, retryable, matches);
        case Complete => CompleteDrops(c, s, i);
        case GiveBack => GiveBackDrops(c, s, i);
        case DropSlice => DropDrops(c, s, i);
        case Retry => RetryDrops(c, s, i);
        case ClearOne => ClearDrops(c, s, i);
        case Fail => FailDrops(c, s, i);
        case Leave => LeaveDrops(c, s, i);
        case _ => QuietDrops(c, s, i, a);
      }
      DropsBelow(c, s, i, After(c, s, i, a));
    }
  }

  lemma DropsBelow(c: Config, s: State, i: nat, s': State)
    requires Drops(c, s, i, s')
    ensures MeasureOf(c, s').Below(MeasureOf(c, s))
  {
    LocalBelow(c, s, i, s');
  }

  ghost predicate Next(c: Config, s: State, s': State) {
    exists i, a :: Enabled(c, s, i, a) && s' == After(c, s, i, a)
  }

  lemma NextKeeps(c: Config, s: State, s': State)
    requires Inv(c, s) && Next(c, s, s')
    ensures Inv(c, s') && MeasureOf(c, s').Below(MeasureOf(c, s))
  {
    hide Inv, MeasureOf, Enabled, After;
    var i, a :| Enabled(c, s, i, a) && s' == After(c, s, i, a);
    StepKeeps(c, s, i, a);
    StepBelow(c, s, i, a);
  }

  ghost predicate Advances(c: Config, run: nat -> State, k: nat) {
    Next(c, run(k), run(k + 1))
  }

  /** However the threads interleave, whatever breaks and whatever the server
      answers, a run cannot go on for ever. Pings, empty frames and wake-ups for
      nothing are the noise a run starts with. */
  lemma EveryRunEnds(c: Config, run: nat -> State)
    requires Init(c, run(0))
    ensures exists k: nat :: !Advances(c, run, k)
  {
    if forall k: nat :: Advances(c, run, k) {
      InitInv(c, run(0));
      Endless(c, run, 0);
    }
  }

  lemma {:induction false} Endless(c: Config, run: nat -> State, k: nat)
    requires Inv(c, run(k)) && forall j: nat :: Advances(c, run, j)
    ensures false
    decreases MeasureOf(c, run(k)).budget, MeasureOf(c, run(k)).phase, MeasureOf(c, run(k)).bytes,
      MeasureOf(c, run(k)).noise, MeasureOf(c, run(k)).tasks, MeasureOf(c, run(k)).notices,
      MeasureOf(c, run(k)).places, MeasureOf(c, run(k)).rank
  {
    hide Inv, MeasureOf, Next;
    assert Advances(c, run, k);
    NextKeeps(c, run(k), run(k + 1));
    Endless(c, run, k + 1);
  }

  /** A run: each state a step from the one before. */
  ghost predicate Run(c: Config, states: seq<State>) {
    && states != [] && Init(c, states[0])
    && forall k :: 0 < k < |states| ==> Next(c, states[k - 1], states[k])
  }

  lemma {:induction false} RunKeeps(c: Config, states: seq<State>)
    requires Run(c, states)
    ensures Inv(c, states[|states| - 1])
    decreases |states|
  {
    hide Inv, Next;
    var n := |states| - 1;
    if n == 0 {
      InitInv(c, states[0]);
    } else {
      RunKeeps(c, states[..n]);
      assert states[..n][n - 1] == states[n - 1];
      NextKeeps(c, states[n - 1], states[n]);
    }
  }

  ghost predicate Stuck(c: Config, s: State) {
    forall i, a :: !Enabled(c, s, i, a)
  }

  ghost predicate Over(s: State) {
    forall i :: 0 <= i < |s.threads| ==> s.threads[i].pc == Left
  }

  /** A run that can go no further is over, and what it leaves is accounted for:
      nothing is claimed, and unless an error was recorded, every chunk that is
      not complete is on the queue. */
  lemma StuckIsOver(c: Config, states: seq<State>)
    requires Run(c, states)
    requires Stuck(c, states[|states| - 1])
    ensures var s := states[|states| - 1];
      Over(s) && s.claimed == multiset{} && (s.error || |s.queue| == s.remaining)
  {
    hide Inv;
    var s := states[|states| - 1];
    RunKeeps(c, states);
    forall i | 0 <= i < |s.threads| ensures s.threads[i].pc == Left {
      if s.threads[i].pc != Left {
        NoDeadlock(c, s, i);
      }
    }
    OverAccounted(c, s);
  }

  lemma OverAccounted(c: Config, s: State)
    requires Inv(c, s) && Over(s)
    ensures s.claimed == multiset{} && (s.error || |s.queue| == s.remaining)
  {
    hide News, AllTried, BuffersSized, WillFail, IdsOf, FlightIds, Config.WellCut;
    forall i | 0 <= i < |s.threads| ensures Idling(s.threads[i]) && !WillFail(s.threads[i]) {
      OverIdling(c, s, i);
    }
    AllIdling(s.threads);
    NothingHeld(s.threads);
    FlownHeld(s.threads);
    if !s.error {
      QueueIsRest(c, s);
    }
  }

  lemma OverIdling(c: Config, s: State, i: nat)
    requires Inv(c, s) && Over(s) && i < |s.threads|
    ensures Idling(s.threads[i]) && !WillFail(s.threads[i])
  {
    ShapedAt(c, s, i);
  }

  lemma QueueIsRest(c: Config, s: State)
    requires Conserved(c, s) && s.remaining + |s.done| == |c.chunks|
    requires Held(s.threads) == multiset{} && s.lost == multiset{}
    ensures |s.queue| == s.remaining
  {
    hide IdsOf, Held;
    AllOnce(|c.chunks|);
    var q := multiset(IdsOf(s.queue));
    assert q + multiset{} + s.done + multiset{} == q + s.done;
    assert |q + s.done| == |q| + |s.done|;
  }
}
