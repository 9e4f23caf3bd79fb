/** The work-stealing transfer: the threads of one fetch, their shared queue, and
    one step per lock region, claim, or frame. */
module Pool {
  import opened Words

  /** A chunk of the batch: its part, and its place in that part's stream and buffer. */
  datatype Range = Range(part: nat, offset: nat, len: nat)

  datatype Config = Config(credit: nat, maxRetries: nat, chunks: seq<Range>, sizes: seq<nat>) {
    function Credit(): nat { Max(1, credit) }

    predicate Overlaps(a: nat, b: nat)
      requires a < |chunks| && b < |chunks|
    {
      && chunks[a].part == chunks[b].part
      && chunks[a].offset < chunks[b].offset + chunks[b].len
      && chunks[b].offset < chunks[a].offset + chunks[a].len
    }

    predicate InBuffer(a: nat)
      requires a < |chunks|
    {
      chunks[a].part < |sizes| && chunks[a].offset + chunks[a].len <= sizes[chunks[a].part]
    }

    /** What the cutting of the plans promises of the chunks. */
    ghost predicate WellCut() {
      && (forall a :: 0 <= a < |chunks| ==> chunks[a].len > 0 && InBuffer(a))
      && (forall a, b :: 0 <= a < |chunks| && 0 <= b < |chunks| && a != b ==> !Overlaps(a, b))
    }
  }

  /** A chunk on its way round: which one, and how often fetching it failed. */
  datatype Chunk = Chunk(id: nat, attempts: nat)

  /** A chunk asked for on a connection, its slice of the buffer claimed. */
  datatype InFlight = InFlight(chunk: Chunk, received: nat)

  datatype Pc =
    | Start | Top | Reconnecting | Check | Asleep | Sending | Reading | Completing
    | GivingBack(io: bool)
    | Recovering(exhausted: bool)
    | OnError | Clearing | Failing
    | Notifying(next: Pc)
    | Leaving | Left

  /** One thread. `hand` is a chunk between two places: its slice is dropped
      already, and it is not yet queued again or counted as complete. */
  datatype Thread = Thread(pc: Pc, conn: bool, taken: seq<Chunk>, flight: seq<InFlight>, hand: Option<Chunk>)

  datatype State = State(
    queue: seq<Chunk>, remaining: nat, live: nat, retries: nat, error: bool,
    threads: seq<Thread>,
    claimed: multiset<nat>,
    buffers: seq<seq<byte>>,
    done: multiset<nat>,
    lost: multiset<nat>,
    noise: nat)

  datatype Action =
    | Spawn | SpawnFails | Go | Reconnect(ok: bool) | TopUp | Wake | SendNext(ok: bool) | StartReading
    | GetData(start: nat, bytes: seq<byte>) | Break | Refuse | GetError(retryable: bool, matches: bool) | Idle
    | Complete | GiveBack | DropSlice | Retry | Recovered | ClearOne | Cleared | Fail | NotifyAll | Leave

  function Put(s: State, i: nat, t: Thread): State
    requires i < |s.threads|
  {
    s.(threads := s.threads[i := t])
  }

  /** Whether the buffer hands out the range of chunk `id` while `claimed` are held. */
  ghost predicate Claimable(c: Config, claimed: multiset<nat>, id: nat)
    requires id < |c.chunks|
  {
    c.InBuffer(id) && forall h :: h in claimed && h < |c.chunks| ==> !c.Overlaps(h, id)
  }

  /** A data frame the client takes: it falls inside the oldest fetch. */
  ghost predicate Takes(c: Config, s: State, i: nat, start: nat, bytes: seq<byte>) {
    && i < |s.threads| && s.threads[i].flight != [] && s.threads[i].flight[0].chunk.id < |c.chunks|
    && var range := c.chunks[s.threads[i].flight[0].chunk.id];
      start + |bytes| <= range.len && range.part < |s.buffers|
      && range.offset + start + |bytes| <= |s.buffers[range.part]|
  }

  ghost predicate Enabled(c: Config, s: State, i: nat, a: Action) {
    i < |s.threads| &&
    var t := s.threads[i];
    match a
    case Spawn => t.pc == Start
    case SpawnFails => t.pc == Start
    case Go => t.pc == Top
    case Reconnect(_) => t.pc == Reconnecting
    case TopUp => t.pc == Check
    case Wake => t.pc == Asleep && s.noise > 0
    case SendNext(_) => t.pc == Sending && t.taken != [] && t.taken[0].id < |c.chunks|
    case StartReading => t.pc == Sending && t.taken == []
    case GetData(start, bytes) =>
      t.pc == Reading && Takes(c, s, i, start, bytes) && (bytes == [] ==> s.noise > 0)
    case Break => t.pc == Reading
    case Refuse => t.pc == Reading
    case GetError(_, _) => t.pc == Reading && t.flight != []
    case Idle => t.pc == Reading && s.noise > 0
    case Complete => t.pc == Completing && t.hand.Some? && s.remaining > 0
    case GiveBack => t.pc.GivingBack?
    case DropSlice => t.pc.Recovering? && t.hand.None? && t.flight != []
    case Retry => (t.pc.Recovering? || t.pc == OnError) && t.hand.Some?
    case Recovered => t.pc.Recovering? && t.hand.None? && t.flight == []
    case ClearOne => t.pc == Clearing && t.flight != []
    case Cleared => t.pc == Clearing && t.flight == []
    case Fail => t.pc == Failing
    case NotifyAll => t.pc.Notifying?
    case Leave => t.pc == Leaving && s.live > 0
  }

  /** How many chunks a thread may take off the queue. */
  function Room(c: Config, s: State, t: Thread): nat {
    if s.error || |t.flight| >= c.Credit() then 0 else Min(c.Credit() - |t.flight|, |s.queue|)
  }

  /** Top up, or find there is nothing left to do, or wait. */
  function ToppedUp(c: Config, s: State, i: nat): State
    requires i < |s.threads|
  {
    var t := s.threads[i];
    var room := Room(c, s, t);
    if t.flight != [] || room > 0 then
      Put(s, i, t.(pc := Sending, taken := s.queue[..room])).(queue := s.queue[room..])
    else if s.error || s.remaining == 0 then Put(s, i, t.(pc := Leaving))
    else if s.live == 1 then Put(s, i, t.(pc := Clearing, conn := false))
    else Put(s, i, t.(pc := Asleep))
  }

  /** Claim the next chunk's range and ask for it. */
  ghost function Sent(c: Config, s: State, i: nat, ok: bool): State
    requires i < |s.threads| && s.threads[i].taken != [] && s.threads[i].taken[0].id < |c.chunks|
  {
    var t := s.threads[i];
    var chunk, rest := t.taken[0], t.taken[1..];
    if !Claimable(c, s.claimed, chunk.id) then
      Put(s, i, t.(pc := GivingBack(false), conn := false, taken := rest)).(lost := s.lost + multiset{chunk.id})
    else
      var asked := t.(taken := rest, flight := t.flight + [InFlight(chunk, 0)]);
      Put(s, i, if ok then asked else asked.(pc := GivingBack(true), conn := false))
        .(claimed := s.claimed + multiset{chunk.id})
  }

  function Splice(buffer: seq<byte>, at: nat, bytes: seq<byte>): (r: seq<byte>)
    requires at + |bytes| <= |buffer|
    ensures |r| == |buffer|
  {
    buffer[..at] + bytes + buffer[at + |bytes|..]
  }

  /** A piece of the oldest fetch, written where it belongs. */
  ghost function Received(c: Config, s: State, i: nat, start: nat, bytes: seq<byte>): State
    requires Takes(c, s, i, start, bytes)
  {
    var t := s.threads[i];
    var front := t.flight[0];
    var range := c.chunks[front.chunk.id];
    var got := front.received + |bytes|;
    var written := s.(
      buffers := s.buffers[range.part := Splice(s.buffers[range.part], range.offset + start, bytes)],
      noise := if bytes == [] && s.noise > 0 then s.noise - 1 else s.noise);
    if got >= range.len then
      Put(written, i, t.(pc := Completing, flight := t.flight[1..], hand := Some(front.chunk)))
        .(claimed := s.claimed - multiset{front.chunk.id})
    else
      Put(written, i, t.(pc := Top, flight := t.flight[0 := front.(received := got)]))
  }

  /** The server answered the oldest fetch with an error. */
  function Errored(s: State, i: nat, retryable: bool, matches: bool): State
    requires i < |s.threads| && s.threads[i].flight != []
  {
    var t := s.threads[i];
    var chunk := t.flight[0].chunk;
    var popped := t.(flight := t.flight[1..]);
    var dropped := s.(claimed := s.claimed - multiset{chunk.id});
    if !matches then
      Put(dropped, i, popped.(pc := Clearing, conn := false)).(lost := s.lost + multiset{chunk.id})
    else if retryable then Put(dropped, i, popped.(pc := OnError, hand := Some(chunk)))
    else Put(dropped, i, popped.(pc := Failing)).(lost := s.lost + multiset{chunk.id})
  }

  function Completed(s: State, i: nat): State
    requires i < |s.threads| && s.threads[i].hand.Some? && s.remaining > 0
  {
    var t := s.threads[i];
    var next := if s.remaining == 1 then Notifying(Top) else Top;
    Put(s, i, t.(pc := next, hand := None))
      .(remaining := s.remaining - 1, done := s.done + multiset{t.hand.value.id})
  }

  function GaveBack(s: State, i: nat): State
    requires i < |s.threads| && s.threads[i].pc.GivingBack?
  {
    var t := s.threads[i];
    var next := if t.pc.io then Recovering(false) else Clearing;
    if t.taken == [] then Put(s, i, t.(pc := next))
    else Put(s, i, t.(pc := Notifying(next), taken := [])).(queue := t.taken + s.queue)
  }

  /** The newest fetch in flight loses its slice. */
  function Dropped(s: State, i: nat): State
    requires i < |s.threads| && s.threads[i].flight != []
  {
    var t := s.threads[i];
    var newest := t.flight[|t.flight| - 1].chunk;
    Put(s, i, t.(flight := t.flight[..|t.flight| - 1], hand := Some(newest)))
      .(claimed := s.claimed - multiset{newest.id})
  }

  /** The attempts a chunk put back has behind it. Of a broken connection's
      fetches only the oldest, the last to be put back, is charged. */
  function Charged(t: Thread): nat
    requires t.hand.Some?
  {
    t.hand.value.attempts + if t.pc == OnError || t.flight == [] then 1 else 0
  }

  /** The chunk in hand is queued first again, or lost once it may not be tried again. */
  function Retried(c: Config, s: State, i: nat): State
    requires i < |s.threads| && s.threads[i].hand.Some?
  {
    var t := s.threads[i];
    var chunk := t.hand.value;
    var attempts := Charged(t);
    var recovering := t.pc.Recovering?;
    if attempts > c.maxRetries then
      Put(s, i, t.(pc := if recovering then Recovering(true) else Failing, hand := None))
        .(lost := s.lost + multiset{chunk.id})
    else
      Put(s, i, t.(pc := Notifying(if recovering then t.pc else Top), hand := None))
        .(queue := [Chunk(chunk.id, attempts)] + s.queue, retries := s.retries + 1)
  }

  /** A fetch in flight is given up for good, on the way to failing the transfer. */
  function Forgotten(s: State, i: nat): State
    requires i < |s.threads| && s.threads[i].flight != []
  {
    var t := s.threads[i];
    Put(s, i, t.(flight := t.flight[1..]))
      .(claimed := s.claimed - multiset{t.flight[0].chunk.id}, lost := s.lost + multiset{t.flight[0].chunk.id})
  }

  /** Record the error that ends the transfer. */
  function Failed(s: State, i: nat): State
    requires i < |s.threads|
  {
    Put(s, i, s.threads[i].(pc := Notifying(Top))).(error := true)
  }

  function Departed(s: State, i: nat): State
    requires i < |s.threads| && s.live > 0
  {
    Put(s, i, s.threads[i].(pc := Notifying(Left))).(live := s.live - 1)
  }

  function Woken(t: Thread): Thread {
    if t.pc == Asleep then t.(pc := Check) else t
  }

  function AllWoken(threads: seq<Thread>): (r: seq<Thread>)
    ensures |r| == |threads|
  {
    seq(|threads|, k requires 0 <= k < |threads| => Woken(threads[k]))
  }

  ghost function After(c: Config, s: State, i: nat, a: Action): State
    requires Enabled(c, s, i, a)
  {
    var t := s.threads[i];
    match a
    case Spawn => Put(s, i, t.(pc := Top))
    case SpawnFails => Put(s, i, t.(pc := Leaving))
    case Go => Put(s, i, t.(pc := if t.conn then Check else if s.error then Leaving else Reconnecting))
    case Reconnect(ok) => Put(s, i, if ok then t.(pc := Check, conn := true) else t.(pc := Leaving))
    case TopUp => ToppedUp(c, s, i)
    case Wake => Put(s, i, t.(pc := Check)).(noise := s.noise - 1)
    case SendNext(ok) => Sent(c, s, i, ok)
    case StartReading => Put(s, i, t.(pc := Reading))
    case GetData(start, bytes) => Received(c, s, i, start, bytes)
    case Break => Put(s, i, t.(pc := Recovering(false), conn := false))
    case Refuse => Put(s, i, t.(pc := Clearing, conn := false))
    case GetError(retryable, matches) => Errored(s, i, retryable, matches)
    case Idle => Put(s, i, t.(pc := Top)).(noise := s.noise - 1)
    case Complete => Completed(s, i)
    case GiveBack => GaveBack(s, i)
    case DropSlice => Dropped(s, i)
    case Retry => Retried(c, s, i)
    case Recovered => Put(s, i, t.(pc := if t.pc.exhausted then Failing else Top))
    case ClearOne => Forgotten(s, i)
    case Cleared => Put(s, i, t.(pc := Failing))
    case Fail => Failed(s, i)
    case NotifyAll => s.(threads := AllWoken(s.threads)[i := t.(pc := t.pc.next)])
    case Leave => Departed(s, i)
  }

  /** The chunks in the order the parts list them, none tried yet. */
  function Untried(n: nat): (queue: seq<Chunk>)
    ensures |queue| == n
  {
    seq(n, (i: nat) => Chunk(i, 0))
  }

  ghost predicate Init(c: Config, s: State) {
    && c.WellCut() && |c.chunks| > 0
    && s.queue == Untried(|c.chunks|) && s.remaining == |c.chunks| && s.live == |s.threads| > 0 && !s.error
    && (forall t :: t in s.threads ==> t.pc == Start && t.taken == [] && t.flight == [] && t.hand == None)
    && s.claimed == s.done == s.lost == multiset{}
    && |s.buffers| == |c.sizes| && forall p :: 0 <= p < |c.sizes| ==> |s.buffers[p]| == c.sizes[p]
  }
}
