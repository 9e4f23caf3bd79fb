/** A transfer that succeeds has every byte right, whatever broke on the way. */
module PoolBytes {
  import opened Words
  import opened Pool
  import opened PoolSafety
  import opened PoolSteps
  import opened PoolEnds

  /** One logical byte stream per part, as long as the part's buffer. */
  ghost predicate Streams(c: Config, streams: seq<seq<byte>>) {
    |streams| == |c.sizes| && forall p :: 0 <= p < |streams| ==> |streams[p]| == c.sizes[p]
  }

  /** Byte `x` of part `p` is what the stream has there. */
  ghost predicate Byte(streams: seq<seq<byte>>, buffers: seq<seq<byte>>, p: nat, x: nat) {
    && p < |streams| && p < |buffers| && x < |streams[p]| && x < |buffers[p]|
    && buffers[p][x] == streams[p][x]
  }

  /** The first `n` bytes of chunk `id` are in place. */
  ghost predicate Right(c: Config, streams: seq<seq<byte>>, buffers: seq<seq<byte>>, id: nat, n: nat) {
    id < |c.chunks| ==>
      forall x :: c.chunks[id].offset <= x < c.chunks[id].offset + n ==> Byte(streams, buffers, c.chunks[id].part, x)
  }

  /** A server that answers each connection's fetches in order: a piece is the
      next of the oldest fetch, and carries the stream's bytes. */
  ghost predicate Honest(c: Config, streams: seq<seq<byte>>, s: State, i: nat, a: Action)
    requires Streams(c, streams)
  {
    a.GetData? && Takes(c, s, i, a.start, a.bytes) ==>
      var front := s.threads[i].flight[0];
      var range := c.chunks[front.chunk.id];
      && a.start == front.received
      && range.part < |streams| && range.offset + a.start + |a.bytes| <= |streams[range.part]|
      && a.bytes == streams[range.part][range.offset + a.start..range.offset + a.start + |a.bytes|]
  }

  /** What has been received is in place. */
  ghost predicate ThreadRight(c: Config, streams: seq<seq<byte>>, buffers: seq<seq<byte>>, t: Thread) {
    && (forall k :: 0 <= k < |t.flight| ==>
          Right(c, streams, buffers, t.flight[k].chunk.id, t.flight[k].received))
    && (t.pc == Completing && t.hand.Some? && t.hand.value.id < |c.chunks| ==>
          Right(c, streams, buffers, t.hand.value.id, c.chunks[t.hand.value.id].len))
  }

  ghost predicate DataInv(c: Config, streams: seq<seq<byte>>, s: State) {
    && (forall i :: 0 <= i < |s.threads| ==> ThreadRight(c, streams, s.buffers, s.threads[i]))
    && DoneRight(c, streams, s.buffers, s.done)
  }

  ghost predicate DoneRight(c: Config, streams: seq<seq<byte>>, buffers: seq<seq<byte>>, done: multiset<nat>) {
    forall id :: id in done && id < |c.chunks| ==> Right(c, streams, buffers, id, c.chunks[id].len)
  }

  /** Nothing that was right is wrong now. */
  ghost predicate Kept(streams: seq<seq<byte>>, buffers: seq<seq<byte>>, buffers': seq<seq<byte>>) {
    forall p, x :: Byte(streams, buffers, p, x) ==> Byte(streams, buffers', p, x)
  }

  lemma RightKept(c: Config, streams: seq<seq<byte>>, buffers: seq<seq<byte>>, buffers': seq<seq<byte>>, id: nat,
      n: nat)
    requires Kept(streams, buffers, buffers') && Right(c, streams, buffers, id, n)
    ensures Right(c, streams, buffers', id, n)
  {
  }

  lemma ThreadKept(c: Config, streams: seq<seq<byte>>, buffers: seq<seq<byte>>, buffers': seq<seq<byte>>, t: Thread)
    requires Kept(streams, buffers, buffers') && ThreadRight(c, streams, buffers, t)
    ensures ThreadRight(c, streams, buffers', t)
  {
    hide Right, Kept;
    forall k | 0 <= k < |t.flight|
      ensures Right(c, streams, buffers', t.flight[k].chunk.id, t.flight[k].received)
    {
      RightKept(c, streams, buffers, buffers', t.flight[k].chunk.id, t.flight[k].received);
    }
    if t.pc == Completing && t.hand.Some? && t.hand.value.id < |c.chunks| {
      RightKept(c, streams, buffers, buffers', t.hand.value.id, c.chunks[t.hand.value.id].len);
    }
  }

  /** One thread's step keeps the data right if nothing right went wrong, the
      thread's own claims are right, and only right chunks were completed. */
  lemma DataKept(c: Config, streams: seq<seq<byte>>, s: State, i: nat, s': State)
    requires DataInv(c, streams, s) && i < |s.threads| == |s'.threads|
    requires s'.threads == s.threads[i := s'.threads[i]] && Kept(streams, s.buffers, s'.buffers)
    requires ThreadRight(c, streams, s'.buffers, s'.threads[i])
    requires DoneRight(c, streams, s'.buffers, s'.done)
    ensures DataInv(c, streams, s')
  {
    hide ThreadRight, Kept, DoneRight;
    forall j | 0 <= j < |s'.threads| ensures ThreadRight(c, streams, s'.buffers, s'.threads[j]) {
      if j != i {
        ThreadKept(c, streams, s.buffers, s'.buffers, s.threads[j]);
      }
    }
  }

  lemma DoneKept(c: Config, streams: seq<seq<byte>>, buffers: seq<seq<byte>>, buffers': seq<seq<byte>>,
      done: multiset<nat>)
    requires Kept(streams, buffers, buffers') && DoneRight(c, streams, buffers, done)
    ensures DoneRight(c, streams, buffers', done)
  {
    hide Right, Kept;
    forall id | id in done && id < |c.chunks| ensures Right(c, streams, buffers', id, c.chunks[id].len) {
      RightKept(c, streams, buffers, buffers', id, c.chunks[id].len);
    }
  }

  /** The stream's own bytes, written where they belong. */
  lemma SpliceKept(streams: seq<seq<byte>>, buffers: seq<seq<byte>>, p: nat, at: nat, bytes: seq<byte>)
    requires p < |buffers| && p < |streams| && at + |bytes| <= |buffers[p]| && at + |bytes| <= |streams[p]|
    requires bytes == streams[p][at..at + |bytes|]
    ensures var buffers' := buffers[p := Splice(buffers[p], at, bytes)];
      && Kept(streams, buffers, buffers')
      && forall x :: at <= x < at + |bytes| ==> Byte(streams, buffers', p, x)
  {
  }

  /** Fewer fetches, or the same, and nothing newly complete. */
  lemma FewerRight(c: Config, streams: seq<seq<byte>>, buffers: seq<seq<byte>>, t: Thread, t': Thread)
    requires ThreadRight(c, streams, buffers, t) && t'.pc != Completing
    requires forall f :: f in t'.flight ==> f in t.flight || f.received == 0
    ensures ThreadRight(c, streams, buffers, t')
  {
    hide Byte;
    forall k | 0 <= k < |t'.flight|
      ensures Right(c, streams, buffers, t'.flight[k].chunk.id, t'.flight[k].received)
    {
      var f := t'.flight[k];
      assert f in t'.flight;
      if f.received > 0 {
        var j :| 0 <= j < |t.flight| && t.flight[j] == f;
        assert Right(c, streams, buffers, t.flight[j].chunk.id, t.flight[j].received);
      }
    }
  }

  ghost predicate Silent(s: State, i: nat, s': State) {
    && i < |s.threads| == |s'.threads|
    && s'.threads == s.threads[i := s'.threads[i]] && s'.buffers == s.buffers && s'.done == s.done
    && s'.threads[i].pc != Completing
    && forall f :: f in s'.threads[i].flight ==> f in s.threads[i].flight || f.received == 0
  }

  /** Steps that write nothing and complete nothing. */
  lemma SilentData(c: Config, streams: seq<seq<byte>>, s: State, i: nat, s': State)
    requires DataInv(c, streams, s) && Silent(s, i, s')
    ensures DataInv(c, streams, s')
  {
    hide ThreadRight, DoneRight, Byte;
    FewerRight(c, streams, s.buffers, s.threads[i], s'.threads[i]);
    DataKept(c, streams, s, i, s');
  }

  /** A piece of the oldest fetch extends what it has. */
  lemma RightExtends(c: Config, streams: seq<seq<byte>>, buffers: seq<seq<byte>>, id: nat, n: nat, more: nat)
    requires id < |c.chunks| && Right(c, streams, buffers, id, n)
    requires var at := c.chunks[id].offset + n;
      forall x :: at <= x < at + more ==> Byte(streams, buffers, c.chunks[id].part, x)
    ensures Right(c, streams, buffers, id, n + more)
    ensures forall m: nat :: m <= n + more ==> Right(c, streams, buffers, id, m)
  {
  }

  lemma ReceiveData(c: Config, streams: seq<seq<byte>>, s: State, i: nat, start: nat, bytes: seq<byte>)
    requires Streams(c, streams) && DataInv(c, streams, s)
    requires Takes(c, s, i, start, bytes) && Honest(c, streams, s, i, GetData(start, bytes))
    ensures DataInv(c, streams, Received(c, s, i, start, bytes))
  {
    hide Kept, DoneRight, Splice, Right, Byte;
    var t := s.threads[i];
    var front := t.flight[0];
    var range := c.chunks[front.chunk.id];
    var s' := Received(c, s, i, start, bytes);
    SpliceKept(streams, s.buffers, range.part, range.offset + start, bytes);
    ThreadKept(c, streams, s.buffers, s'.buffers, t);
    RightExtends(c, streams, s'.buffers, front.chunk.id, front.received, |bytes|);
    DoneKept(c, streams, s.buffers, s'.buffers, s.done);
    ReceivedRight(c, streams, s'.buffers, t, s'.threads[i], front.received + |bytes|);
    DataKept(c, streams, s, i, s');
  }

  lemma ReceivedRight(c: Config, streams: seq<seq<byte>>, buffers: seq<seq<byte>>, t: Thread, t': Thread, got: nat)
    requires ThreadRight(c, streams, buffers, t) && t.flight != [] && t.flight[0].chunk.id < |c.chunks|
    requires forall m: nat :: m <= got ==> Right(c, streams, buffers, t.flight[0].chunk.id, m)
    requires t' == (if got >= c.chunks[t.flight[0].chunk.id].len
                    then t.(pc := Completing, flight := t.flight[1..], hand := Some(t.flight[0].chunk))
                    else t.(pc := Top, flight := t.flight[0 := t.flight[0].(received := got)]))
    ensures ThreadRight(c, streams, buffers, t')
  {
    hide Right;
    forall k | 0 <= k < |t'.flight|
      ensures Right(c, streams, buffers, t'.flight[k].chunk.id, t'.flight[k].received)
    {
      if t'.pc == Completing {
        assert t'.flight[k] == t.flight[k + 1];
      }
    }
  }

  lemma CompleteData(c: Config, streams: seq<seq<byte>>, s: State, i: nat)
    requires DataInv(c, streams, s) && i < |s.threads|
    requires s.threads[i].pc == Completing && s.threads[i].hand.Some? && s.remaining > 0
    ensures DataInv(c, streams, Completed(s, i))
  {
    hide Right, Byte;
    var t := s.threads[i];
    var s' := Completed(s, i);
    FewerRight(c, streams, s.buffers, t, s'.threads[i]);
    forall id | id in s'.done && id < |c.chunks| ensures Right(c, streams, s.buffers, id, c.chunks[id].len) {
      assert id in s.done || id == t.hand.value.id;
    }
    DataKept(c, streams, s, i, s');
  }

  lemma NotifyData(c: Config, streams: seq<seq<byte>>, s: State, i: nat)
    requires DataInv(c, streams, s) && i < |s.threads| && s.threads[i].pc.Notifying?
    requires s.threads[i].pc.next != Completing
    ensures DataInv(c, streams, s.(threads := AllWoken(s.threads)[i := s.threads[i].(pc := s.threads[i].pc.next)]))
  {
    hide Right, Byte;
    var now := AllWoken(s.threads)[i := s.threads[i].(pc := s.threads[i].pc.next)];
    forall j | 0 <= j < |now| ensures ThreadRight(c, streams, s.buffers, now[j]) {
      assert ThreadRight(c, streams, s.buffers, s.threads[j]);
    }
  }

  lemma QuietSilent(c: Config, s: State, i: nat, a: Action)
    requires Enabled(c, s, i, a) && IsQuiet(a)
    ensures Silent(s, i, After(c, s, i, a))
  {
  }

  lemma QueueSilent(c: Config, s: State, i: nat, a: Action)
    requires Enabled(c, s, i, a) && (a.TopUp? || a.SendNext? || a.GiveBack? || a.Retry?)
    ensures Silent(s, i, After(c, s, i, a))
  {
    hide Claimable;
  }

  lemma FlightSilent(c: Config, s: State, i: nat, a: Action)
    requires Enabled(c, s, i, a) && (a.GetError? || a.DropSlice? || a.ClearOne? || a.Fail? || a.Leave?)
    ensures Silent(s, i, After(c, s, i, a))
  {
  }

  /** Every step against an honest server keeps what was received in place. */
  lemma StepData(c: Config, streams: seq<seq<byte>>, s: State, i: nat, a: Action)
    requires Inv(c, s) && Streams(c, streams) && DataInv(c, streams, s)
    requires Enabled(c, s, i, a) && Honest(c, streams, s, i, a)
    ensures DataInv(c, streams, After(c, s, i, a))
  {
    hide Inv, DataInv, Streams, Silent;
    if a.GetData? {
      ReceiveData(c, streams, s, i, a.start, a.bytes);
    } else if a.Complete? {
      CompleteData(c, streams, s, i);
    } else if a.NotifyAll? {
      ShapedAt(c, s, i);
      NotifyData(c, streams, s, i);
    } else {
      if IsQuiet(a) {
        QuietSilent(c, s, i, a);
      } else if a.TopUp? || a.SendNext? || a.GiveBack? || a.Retry? {
        QueueSilent(c, s, i, a);
      } else {
        FlightSilent(c, s, i, a);
      }
      SilentData(c, streams, s, i, After(c, s, i, a));
    }
  }

  ghost predicate HonestNext(c: Config, streams: seq<seq<byte>>, s: State, s': State)
    requires Streams(c, streams)
  {
    exists i, a :: Enabled(c, s, i, a) && Honest(c, streams, s, i, a) && s' == After(c, s, i, a)
  }

  /** A run against an honest server. Connections may still break anywhere, and
      fetches be answered with errors. */
  ghost predicate HonestRun(c: Config, streams: seq<seq<byte>>, states: seq<State>)
    requires Streams(c, streams)
  {
    && states != [] && Init(c, states[0])
    && forall k :: 0 < k < |states| ==> HonestNext(c, streams, states[k - 1], states[k])
  }

  lemma HonestKeeps(c: Config, streams: seq<seq<byte>>, s: State, s': State)
    requires Inv(c, s) && Streams(c, streams) && DataInv(c, streams, s) && HonestNext(c, streams, s, s')
    ensures Inv(c, s') && DataInv(c, streams, s')
  {
    hide Inv, DataInv, Enabled, After, Honest, Streams;
    var i, a :| Enabled(c, s, i, a) && Honest(c, streams, s, i, a) && s' == After(c, s, i, a);
    StepKeeps(c, s, i, a);
    StepData(c, streams, s, i, a);
  }

  lemma InitData(c: Config, streams: seq<seq<byte>>, s: State)
    requires Init(c, s)
    ensures DataInv(c, streams, s)
  {
    forall i | 0 <= i < |s.threads| ensures ThreadRight(c, streams, s.buffers, s.threads[i]) {
      assert s.threads[i] in s.threads;
    }
  }

  lemma {:induction false} HonestRunKeeps(c: Config, streams: seq<seq<byte>>, states: seq<State>)
    requires Streams(c, streams) && HonestRun(c, streams, states)
    ensures Inv(c, states[|states| - 1]) && DataInv(c, streams, states[|states| - 1])
    decreases |states|
  {
    hide Inv, HonestNext, Streams, DataInv;
    var n := |states| - 1;
    if n == 0 {
      InitInv(c, states[0]);
      InitData(c, streams, states[0]);
    } else {
      HonestRunKeeps(c, streams, states[..n]);
      assert states[..n][n - 1] == states[n - 1];
      HonestKeeps(c, streams, states[n - 1], states[n]);
    }
  }

  /** The chunks leave out no byte of any part. */
  ghost predicate Covers(c: Config) {
    forall p, x :: 0 <= p < |c.sizes| && 0 <= x < c.sizes[p] ==> Covered(c, p, x)
  }

  ghost predicate Covered(c: Config, p: nat, x: nat) {
    exists id :: 0 <= id < |c.chunks| && c.chunks[id].part == p
      && c.chunks[id].offset <= x < c.chunks[id].offset + c.chunks[id].len
  }

  /** If the transfer succeeds, every byte of every buffer is its stream's. */
  lemma SuccessIsRight(c: Config, streams: seq<seq<byte>>, states: seq<State>)
    requires Streams(c, streams) && Covers(c) && HonestRun(c, streams, states)
    requires states[|states| - 1].remaining == 0
    ensures states[|states| - 1].buffers == streams
  {
    hide Inv, HonestNext, Byte, Covered;
    var s := states[|states| - 1];
    HonestRunKeeps(c, streams, states);
    AllDone(c, s);
    SameSizes(c, s);
    forall p, x | 0 <= p < |streams| && 0 <= x < |streams[p]| ensures Byte(streams, s.buffers, p, x) {
      CoveredRight(c, streams, s, p, x);
    }
    BuffersEqual(streams, s.buffers);
  }

  lemma AllDone(c: Config, s: State)
    requires Inv(c, s) && s.remaining == 0
    ensures s.done == All(|c.chunks|)
  {
    hide Shaped, News, AllTried, BuffersSized, WillFail, IdsOf, Config.WellCut;
    AllOnce(|c.chunks|);
    var rest := multiset(IdsOf(s.queue)) + Held(s.threads) + s.lost;
    assert rest + s.done == All(|c.chunks|);
    assert |rest + s.done| == |rest| + |s.done|;
    assert rest == multiset{};
  }

  lemma SameSizes(c: Config, s: State)
    requires Inv(c, s)
    ensures BuffersSized(c, s)
  {
  }

  lemma CoveredRight(c: Config, streams: seq<seq<byte>>, s: State, p: nat, x: nat)
    requires DataInv(c, streams, s) && s.done == All(|c.chunks|) && Covered(c, p, x)
    ensures Byte(streams, s.buffers, p, x)
  {
    hide Byte;
    var id :| 0 <= id < |c.chunks| && c.chunks[id].part == p
      && c.chunks[id].offset <= x < c.chunks[id].offset + c.chunks[id].len;
    AllOnce(|c.chunks|);
    assert id in s.done;
    assert Right(c, streams, s.buffers, id, c.chunks[id].len);
  }

  lemma BuffersEqual(streams: seq<seq<byte>>, buffers: seq<seq<byte>>)
    requires |buffers| == |streams| && forall p :: 0 <= p < |streams| ==> |buffers[p]| == |streams[p]|
    requires forall p, x :: 0 <= p < |streams| && 0 <= x < |streams[p]| ==> Byte(streams, buffers, p, x)
    ensures buffers == streams
  {
    forall p | 0 <= p < |streams| ensures buffers[p] == streams[p] {
      forall x | 0 <= x < |streams[p]| ensures buffers[p][x] == streams[p][x] {
        assert Byte(streams, buffers, p, x);
      }
    }
  }
}
