/** Decompressed storage chunks, held in a byte-bounded LRU.

    Every method below is one lock region. A buffer is in one of four places: in
    the cache, in a reader's hands, lent to a decoder, or kept back as a spare. */
module DecodeCaches {
  import opened Words
  import opened Buffers

  type ChunkKey = (nat, nat)

  const MAX_SPARES: nat := 32

  datatype Entry = Entry(key: ChunkKey, buffer: Buffer)

  /** What a chunk decodes to, or why it does not. */
  type Source = ChunkKey -> Result<seq<byte>, string>

  ghost predicate Distinct<T>(s: seq<T>) {
    forall i, j :: 0 <= i < j < |s| ==> s[i] != s[j]
  }

  ghost function Without(keys: seq<ChunkKey>, key: ChunkKey): seq<ChunkKey> {
    if keys == [] then []
    else Without(keys[..|keys| - 1], key) + (if keys[|keys| - 1] == key then [] else [keys[|keys| - 1]])
  }

  /** The order of last use, once `key` is used again. */
  ghost function Touch(recency: seq<ChunkKey>, key: ChunkKey): seq<ChunkKey> {
    Without(recency, key) + [key]
  }

  ghost function SizeOf(source: Source, key: ChunkKey): nat {
    if source(key).Ok? then |source(key).value| else 0
  }

  ghost function Size(source: Source, keys: seq<ChunkKey>): nat {
    if keys == [] then 0 else Size(source, keys[..|keys| - 1]) + SizeOf(source, keys[|keys| - 1])
  }

  lemma {:induction false} SizeConcat(source: Source, a: seq<ChunkKey>, b: seq<ChunkKey>)
    ensures Size(source, a + b) == Size(source, a) + Size(source, b)
    decreases |b|
  {
    if b == [] {
      assert a + b == a;
    } else {
      SizeConcat(source, a, b[..|b| - 1]);
      assert (a + b)[..|a + b| - 1] == a + b[..|b| - 1];
    }
  }

  lemma SizeOne(source: Source, key: ChunkKey)
    ensures Size(source, [key]) == SizeOf(source, key)
  {
    assert [key][..0] == [];
  }

  lemma {:induction false} WithoutAbsent(keys: seq<ChunkKey>, key: ChunkKey)
    requires key !in keys
    ensures Without(keys, key) == keys
    decreases |keys|
  {
    if keys != [] {
      WithoutAbsent(keys[..|keys| - 1], key);
    }
  }

  lemma {:induction false} WithoutConcat(a: seq<ChunkKey>, b: seq<ChunkKey>, key: ChunkKey)
    ensures Without(a + b, key) == Without(a, key) + Without(b, key)
    decreases |b|
  {
    if b == [] {
      assert a + b == a;
    } else {
      WithoutConcat(a, b[..|b| - 1], key);
      assert (a + b)[..|a + b| - 1] == a + b[..|b| - 1];
    }
  }

  /** Taking a key out of a list that has it once. */
  lemma WithoutAt(a: seq<ChunkKey>, key: ChunkKey, b: seq<ChunkKey>)
    requires key !in a && key !in b
    ensures Without(a + [key] + b, key) == a + b
  {
    hide Without;
    WithoutConcat(a + [key], b, key);
    WithoutConcat(a, [key], key);
    WithoutAbsent(a, key);
    WithoutAbsent(b, key);
    WithoutItself(key);
    assert a + [] == a;
  }

  lemma {:induction false} WithoutMembers(keys: seq<ChunkKey>, key: ChunkKey)
    ensures forall k :: k in Without(keys, key) ==> k in keys
    decreases |keys|
  {
    if keys != [] {
      WithoutMembers(keys[..|keys| - 1], key);
    }
  }

  lemma WithoutItself(key: ChunkKey)
    ensures Without([key], key) == []
  {
    assert [key][..0] == [];
  }

  /** The cached keys are the most recently used ones, as many as fit: the one
      before them did not. */
  ghost predicate LongestFit(source: Source, capacity: nat, recency: seq<ChunkKey>, keys: seq<ChunkKey>) {
    NearFit(source, capacity, recency, keys) && Size(source, keys) <= capacity
  }

  /** The same, before what does not fit is evicted. */
  ghost predicate NearFit(source: Source, capacity: nat, recency: seq<ChunkKey>, keys: seq<ChunkKey>) {
    && |keys| <= |recency| && recency[|recency| - |keys|..] == keys
    && OneMoreOverflows(source, capacity, recency, keys)
  }

  ghost predicate OneMoreOverflows(source: Source, capacity: nat, recency: seq<ChunkKey>, keys: seq<ChunkKey>) {
    |keys| < |recency| ==> Size(source, recency[|recency| - |keys| - 1..]) > capacity
  }

  /** There is one such list of keys. */
  lemma LongestFitUnique(source: Source, capacity: nat, recency: seq<ChunkKey>, a: seq<ChunkKey>, b: seq<ChunkKey>)
    requires LongestFit(source, capacity, recency, a) && LongestFit(source, capacity, recency, b)
    ensures a == b
  {
    if |a| < |b| {
      ShorterFits(source, capacity, recency, a, b);
    } else if |b| < |a| {
      ShorterFits(source, capacity, recency, b, a);
    }
  }

  lemma ShorterFits(source: Source, capacity: nat, recency: seq<ChunkKey>, a: seq<ChunkKey>, b: seq<ChunkKey>)
    requires |a| < |b| <= |recency|
    requires recency[|recency| - |b|..] == b && Size(source, b) <= capacity
    ensures !OneMoreOverflows(source, capacity, recency, a)
  {
    var more := recency[|recency| - |a| - 1..];
    assert b == b[..|b| - |a| - 1] + more;
    SizeConcat(source, b[..|b| - |a| - 1], more);
  }

  /** Using a cached key again. */
  lemma HitFit(source: Source, capacity: nat, recency: seq<ChunkKey>, a: seq<ChunkKey>, key: ChunkKey, b: seq<ChunkKey>)
    requires Distinct(recency) && LongestFit(source, capacity, recency, a + [key] + b)
    ensures LongestFit(source, capacity, Touch(recency, key), a + b + [key])
    ensures Distinct(Touch(recency, key))
  {
    hide Size, Touch, Distinct, OneMoreOverflows;
    var keys := a + [key] + b;
    var gone := recency[..|recency| - |keys|];
    assert recency == gone + keys == (gone + a) + [key] + b;
    TouchInPlace(gone + a, key, b);
    assert Touch(recency, key) == gone + (a + b + [key]);
    SizeMoved(source, a, key, b);
    OverflowAt(source, capacity, gone, keys);
    OverflowAt(source, capacity, gone, a + b + [key]);
  }

  /** The key used last before the cached ones, if any, does not fit with them. */
  lemma OverflowAt(source: Source, capacity: nat, gone: seq<ChunkKey>, keys: seq<ChunkKey>)
    ensures OneMoreOverflows(source, capacity, gone + keys, keys)
      <==> (gone != [] ==> SizeOf(source, gone[|gone| - 1]) + Size(source, keys) > capacity)
  {
    if gone != [] {
      var x := gone[|gone| - 1];
      assert (gone + keys)[|gone| - 1..] == [x] + keys;
      SizeConcat(source, [x], keys);
      SizeOne(source, x);
    }
  }

  lemma TouchInPlace(a: seq<ChunkKey>, key: ChunkKey, b: seq<ChunkKey>)
    requires Distinct(a + [key] + b)
    ensures Touch(a + [key] + b, key) == a + b + [key] && Distinct(a + b + [key])
  {
    var s := a + [key] + b;
    forall i | 0 <= i < |b| ensures b[i] != key {
      assert s[|a| + 1 + i] == b[i] && s[|a|] == key;
    }
    forall i | 0 <= i < |a| ensures a[i] != key {
      assert s[i] == a[i] && s[|a|] == key;
    }
    WithoutAt(a, key, b);
    var t := a + b + [key];
    forall i, j | 0 <= i < j < |t| ensures t[i] != t[j] {
      var i', j' := if i < |a| then i else i + 1, if j < |a| then j else j + 1;
      assert t[i] == s[i'];
      if j < |a + b| {
        assert t[j] == s[j'];
      } else {
        assert t[j] == s[|a|];
      }
    }
  }

  lemma SizeMoved(source: Source, a: seq<ChunkKey>, key: ChunkKey, b: seq<ChunkKey>)
    ensures Size(source, a + b + [key]) == Size(source, a + [key] + b)
  {
    SizeConcat(source, a + b, [key]);
    SizeConcat(source, a, b);
    SizeConcat(source, a + [key], b);
    SizeConcat(source, a, [key]);
  }

  /** Decoding a chunk that was not cached: before anything is evicted, the one
      before the cached keys still does not fit. */
  lemma MissOverflows(source: Source, capacity: nat, recency: seq<ChunkKey>, keys: seq<ChunkKey>, key: ChunkKey)
    requires Distinct(recency) && LongestFit(source, capacity, recency, keys) && key !in keys
    ensures NearFit(source, capacity, Touch(recency, key), keys + [key])
  {
    hide Size, SizeOf, OneMoreOverflows, Distinct;
    var gone := recency[..|recency| - |keys|];
    var more := keys + [key];
    assert recency == gone + keys;
    WithoutConcat(gone, keys, key);
    WithoutAbsent(keys, key);
    var left := Without(gone, key);
    assert Touch(recency, key) == left + more;
    SizeConcat(source, keys, [key]);
    SizeOne(source, key);
    OverflowAt(source, capacity, gone, keys);
    OverflowAt(source, capacity, left, more);
  }

  lemma TouchDistinct(recency: seq<ChunkKey>, key: ChunkKey)
    requires Distinct(recency)
    ensures Distinct(Touch(recency, key))
  {
    if key in recency {
      var i :| 0 <= i < |recency| && recency[i] == key;
      assert recency == recency[..i] + [key] + recency[i + 1..];
      TouchInPlace(recency[..i], key, recency[i + 1..]);
    } else {
      WithoutAbsent(recency, key);
    }
  }

  /** Evicting the oldest while the rest does not fit. */
  lemma EvictOverflows(source: Source, capacity: nat, recency: seq<ChunkKey>, keys: seq<ChunkKey>)
    requires keys != [] && NearFit(source, capacity, recency, keys)
    requires Size(source, keys) > capacity
    ensures NearFit(source, capacity, recency, keys[1..])
    ensures Size(source, keys) == SizeOf(source, keys[0]) + Size(source, keys[1..])
  {
    assert keys == [keys[0]] + keys[1..];
    SizeConcat(source, [keys[0]], keys[1..]);
    SizeOne(source, keys[0]);
  }

  function KeysOf(entries: seq<Entry>): (keys: seq<ChunkKey>)
    ensures |keys| == |entries|
  {
    seq(|entries|, i requires 0 <= i < |entries| => entries[i].key)
  }

  /** Every cached buffer is its own. */
  ghost predicate Apart(entries: seq<Entry>) {
    forall i, j :: 0 <= i < j < |entries| ==> entries[i].buffer != entries[j].buffer
  }

  lemma KeysConcat(a: seq<Entry>, e: Entry, b: seq<Entry>)
    ensures KeysOf(a + [e] + b) == KeysOf(a) + [e.key] + KeysOf(b)
    ensures KeysOf(a + b + [e]) == KeysOf(a) + KeysOf(b) + [e.key]
  {
  }

  lemma ApartMoved(a: seq<Entry>, e: Entry, b: seq<Entry>)
    requires Apart(a + [e] + b)
    ensures Apart(a + b + [e])
    ensures multiset(a + b + [e]) == multiset(a + [e] + b)
  {
    var s, moved := a + [e] + b, a + b + [e];
    forall i, j | 0 <= i < j < |moved| ensures moved[i].buffer != moved[j].buffer {
      var i', j' := if i < |a| then i else i + 1, if j < |a| then j else j + 1;
      assert moved[i] == s[i'];
      assert moved[j] == if j < |a + b| then s[j'] else s[|a|];
    }
  }

  lemma SameMembers<T>(a: seq<T>, b: seq<T>)
    requires multiset(a) == multiset(b)
    ensures forall x :: x in a <==> x in b
  {
    forall x ensures x in a <==> x in b {
      assert x in multiset(a) <==> x in multiset(b);
    }
  }

  /** Moving a used entry to the back keeps the cache the longest fit. */
  lemma HitKeeps(source: Source, capacity: nat, recency: seq<ChunkKey>, entries: seq<Entry>, at: nat)
    requires at < |entries| && Distinct(recency) && Apart(entries)
    requires LongestFit(source, capacity, recency, KeysOf(entries))
    ensures var moved := entries[..at] + entries[at + 1..] + [entries[at]];
      && Distinct(Touch(recency, entries[at].key))
      && LongestFit(source, capacity, Touch(recency, entries[at].key), KeysOf(moved))
      && Size(source, KeysOf(moved)) == Size(source, KeysOf(entries))
      && Apart(moved) && multiset(moved) == multiset(entries)
  {
    hide LongestFit, Apart, Distinct, Touch, KeysOf, Size;
    var a, e, b := entries[..at], entries[at], entries[at + 1..];
    assert entries == a + [e] + b;
    KeysConcat(a, e, b);
    ApartMoved(a, e, b);
    HitFit(source, capacity, recency, KeysOf(a), e.key, KeysOf(b));
    SizeMoved(source, KeysOf(a), e.key, KeysOf(b));
  }

  method CopyOut(chunk: seq<byte>, start: nat, out: array<byte>, lo: nat, n: nat)
    requires lo + n <= out.Length && start + n <= |chunk|
    modifies out
    ensures out[lo..lo + n] == chunk[start..start + n]
    ensures out[..lo] == old(out[..lo]) && out[lo + n..] == old(out[lo + n..])
  {
    for i := 0 to n
      invariant forall j :: 0 <= j < lo || lo + i <= j < out.Length ==> out[j] == old(out[j])
      invariant forall j :: lo <= j < lo + i ==> out[j] == chunk[start + (j - lo)]
    {
      out[lo + i] := chunk[start + i];
    }
  }

  class DecodeCache {
    const capacity: nat
    const source: Source

    /** Least recently used first. */
    var entries: seq<Entry>
    var bytes: nat
    var spare: seq<Buffer>
    /** The handles readers have: what a buffer's reference count adds to the cache's own. */
    var held: multiset<Buffer>
    var hits: nat
    var misses: nat
    var races: nat

    /** Buffers in a decoder's hands. */
    ghost var lent: set<Buffer>
    /** The cacheable chunks ever used, most recently used last. */
    ghost var recency: seq<ChunkKey>

    ghost function Keys(): seq<ChunkKey>
      reads this`entries
    {
      KeysOf(entries)
    }

    ghost predicate Cacheable(key: ChunkKey) {
      source(key).Ok? && 0 < capacity && |source(key).value| <= capacity
    }

    ghost predicate AllCacheable(keys: seq<ChunkKey>) {
      forall k :: k in keys ==> Cacheable(k)
    }

    lemma TouchCacheable(key: ChunkKey)
      requires AllCacheable(recency) && Cacheable(key)
      ensures AllCacheable(Touch(recency, key))
    {
      WithoutMembers(recency, key);
    }

    lemma CachedIsCacheable(key: ChunkKey)
      requires Valid() && key in Keys()
      ensures Cacheable(key)
    {
      assert key in recency[|recency| - |Keys()|..];
    }

    /** No buffer is in two places at once, except that readers may hold what is cached. */
    ghost predicate Owned()
      reads this`entries, this`spare, this`held, this`lent
    {
      && Apart(entries) && Distinct(spare) && |spare| <= MAX_SPARES
      && (forall e :: e in entries ==> e.buffer !in spare && e.buffer !in lent)
      && (forall b :: b in spare ==> b !in held && b !in lent)
      && (forall b :: b in held ==> b !in lent)
    }

    ghost predicate Valid()
      reads this`entries, this`bytes, this`spare, this`held, this`lent, this`recency
    {
      && Owned() && AllCacheable(recency)
      && Distinct(recency) && LongestFit(source, capacity, recency, Keys())
      && bytes == Size(source, Keys())
    }

    /** The same, before what does not fit is evicted. */
    ghost predicate Loose()
      reads this`entries, this`bytes, this`spare, this`held, this`lent, this`recency
    {
      && Owned() && AllCacheable(recency)
      && Distinct(recency) && NearFit(source, capacity, recency, Keys())
      && bytes == Size(source, Keys())
    }

    /** Every cached buffer holds what its chunk decodes to. */
    ghost predicate Sound()
      reads this`entries, set e | e in entries :: e.buffer
    {
      forall e :: e in entries ==> source(e.key) == Ok(e.buffer.bytes)
    }

    /** The buffers the cache holds on to. */
    ghost function Pool(): set<Buffer>
      reads this`entries, this`spare
    {
      (set e | e in entries :: e.buffer) + (set b | b in spare)
    }

    constructor (capacity: nat, source: Source)
      ensures Valid() && Sound()
      ensures this.capacity == capacity && this.source == source
      ensures entries == [] && held == multiset{} && lent == {} && recency == [] && spare == []
      ensures hits == misses == races == 0
    {
      this.capacity, this.source := capacity, source;
      entries, bytes, spare, held := [], 0, [], multiset{};
      hits, misses, races := 0, 0, 0;
      lent, recency := {}, [];
    }

    /** The cached chunk at `key`, which is then the most recently used. */
    method Get(key: ChunkKey) returns (hit: Option<Buffer>)
      requires Valid() && Sound()
      modifies this`entries, this`held, this`recency
      ensures Valid() && Sound()
      ensures Pool() == old(Pool())
      ensures hit.Some? <==> key in old(Keys())
      ensures hit.Some? ==>
        && source(key) == Ok(hit.value.bytes) && held == old(held) + multiset{hit.value}
        && recency == Touch(old(recency), key) && multiset(entries) == old(multiset(entries))
      ensures hit.None? ==> entries == old(entries) && held == old(held) && recency == old(recency)
    {
      hide LongestFit, Apart, Distinct, Touch, Size, KeysOf;
      var at := Position(key);
      if at == |entries| {
        return None;
      }
      assert entries[at] in entries;
      hit := Some(entries[at].buffer);
      Use(at);
    }

    method Position(key: ChunkKey) returns (at: nat)
      ensures at <= |entries| && (at < |entries| <==> key in Keys())
      ensures at < |entries| ==> entries[at].key == key
    {
      at := 0;
      while at < |entries| && entries[at].key != key
        invariant at <= |entries|
        invariant forall i :: 0 <= i < at ==> entries[i].key != key
      {
        at := at + 1;
      }
      if at < |entries| {
        assert Keys()[at] == key;
      }
    }

    lemma KeyAt(at: nat)
      requires at < |entries|
      ensures entries[at].key in Keys()
    {
      assert Keys()[at] == entries[at].key;
    }

    method Use(at: nat)
      requires Valid() && Sound() && at < |entries|
      modifies this`entries, this`held, this`recency
      ensures Valid() && Sound()
      ensures entries == old(entries[..at] + entries[at + 1..] + [entries[at]])
      ensures multiset(entries) == old(multiset(entries)) && Pool() == old(Pool())
      ensures source(old(entries[at].key)) == Ok(old(entries[at].buffer).bytes)
      ensures held == old(held) + multiset{old(entries[at].buffer)}
      ensures recency == Touch(old(recency), old(entries[at].key))
    {
      hide LongestFit, Apart, Distinct, Touch, Size, KeysOf, Cacheable, AllCacheable;
      var entry := entries[at];
      KeyAt(at);
      CachedIsCacheable(entry.key);
      TouchCacheable(entry.key);
      HitKeeps(source, capacity, recency, entries, at);
      SameMembers(entries, entries[..at] + entries[at + 1..] + [entry]);
      entries := entries[..at] + entries[at + 1..] + [entry];
      held := held + multiset{entry.buffer};
      recency := Touch(recency, entry.key);
    }

    /** Lend a buffer: the last spare put by, or a fresh one when there is none. */
    method TakeSpare() returns (buffer: Buffer)
      requires Valid() && Sound()
      modifies this`spare, this`lent
      ensures Valid() && Sound()
      ensures lent == old(lent) + {buffer} && buffer !in old(lent) && Pool() <= old(Pool())
      ensures buffer in old(Pool()) || fresh(buffer)
      ensures old(spare) == [] ==> fresh(buffer) && buffer.bytes == [] && spare == []
      ensures old(spare) != [] ==> buffer == old(spare[|spare| - 1]) && spare == old(spare[..|spare| - 1])
    {
      hide LongestFit, Apart, Touch, Size;
      if spare == [] {
        buffer := new Buffer([]);
      } else {
        buffer := spare[|spare| - 1];
        spare := spare[..|spare| - 1];
      }
      lent := lent + {buffer};
    }

    /** Decoding `key` into the lent buffer, or into one of the decoder's own; the
        lent one is then dropped. */
    method Decode(key: ChunkKey, buffer: Buffer, own: bool) returns (decoded: Result<Buffer, string>)
      requires Valid() && Sound() && buffer in lent
      modifies buffer, this`lent, this`held
      ensures Valid() && Sound()
      ensures lent == old(lent) - {buffer} && Pool() == old(Pool())
      ensures decoded.Ok? <==> source(key).Ok?
      ensures decoded.Ok? ==>
        && source(key) == Ok(decoded.value.bytes) && (decoded.value == buffer || fresh(decoded.value))
        && held == old(held) + multiset{decoded.value} && Mine(decoded.value)
      ensures decoded.Err? ==> decoded.error == source(key).error && held == old(held)
    {
      hide LongestFit, Apart, Touch, Size;
      lent := lent - {buffer};
      if source(key).Err? {
        return Err(source(key).error);
      }
      if own {
        var other := new Buffer(source(key).value);
        decoded := Ok(other);
      } else {
        buffer.bytes := source(key).value;
        decoded := Ok(buffer);
      }
      held := held + multiset{decoded.value};
    }

    /** In one reader's hands, and nowhere else. */
    ghost predicate Mine(buffer: Buffer)
      reads this`entries, this`held
    {
      buffer in held && forall e :: e in entries ==> e.buffer != buffer
    }

    /** A reader is done with its handle. */
    method Release(buffer: Buffer)
      requires Valid() && Sound() && buffer in held
      modifies this`held
      ensures Valid() && Sound() && held == old(held) - multiset{buffer}
    {
      hide LongestFit, Apart, Touch, Size;
      held := held - multiset{buffer};
    }

    /** Keep a decoded chunk, evicting the least recently used ones until it fits.
        A chunk larger than the cache is not kept, and of two threads that decoded
        the same chunk only the first's is. */
    method Insert(key: ChunkKey, chunk: Buffer)
      requires Valid() && Sound() && Mine(chunk) && source(key) == Ok(chunk.bytes)
      modifies this`entries, this`bytes, this`spare, this`races, this`recency
      ensures Valid() && Sound()
      ensures !Cacheable(key) ==> entries == old(entries) && recency == old(recency) && races == old(races)
      ensures Cacheable(key) && key in old(Keys()) ==>
        entries == old(entries) && recency == old(recency) && races == old(races) + 1
      ensures Cacheable(key) && key !in old(Keys()) ==>
        && races == old(races) && recency == Touch(old(recency), key)
        && entries != [] && entries[|entries| - 1] == Entry(key, chunk)
        && |entries| <= |old(entries)| + 1
        && entries == (old(entries) + [Entry(key, chunk)])[|old(entries)| + 1 - |entries|..]
      ensures old(spare) <= spare && Pool() <= old(Pool()) + {chunk}
    {
      hide LongestFit, NearFit, Apart, Touch, Size, KeysOf, Distinct, Valid, Loose, Owned, AllCacheable;
      if capacity == 0 || |chunk.bytes| > capacity {
        return;
      }
      var at := Position(key);
      if at < |entries| {
        races := races + 1;
        return;
      }
      Append(key, chunk);
      MakeRoom(key, chunk);
    }

    /** Evict the least recently used chunks until the rest fits. The one just kept stays. */
    method MakeRoom(key: ChunkKey, chunk: Buffer)
      requires Loose() && Sound() && Cacheable(key)
      requires entries != [] && entries[|entries| - 1] == Entry(key, chunk)
      modifies this`entries, this`bytes, this`spare
      ensures Valid() && Sound() && 0 < |entries| <= |old(entries)|
      ensures entries == old(entries)[|old(entries)| - |entries|..]
      ensures old(spare) <= spare && Pool() <= old(Pool())
    {
      hide LongestFit, NearFit, Apart, Touch, Size, KeysOf, Distinct, Valid, Loose, Owned, AllCacheable;
      while bytes > capacity
        invariant Loose() && Sound() && 0 < |entries| <= |old(entries)|
        invariant entries == old(entries)[|old(entries)| - |entries|..]
        invariant old(spare) <= spare && Pool() <= old(Pool())
        decreases |entries|
      {
        OneFits(key, chunk);
        Evict();
      }
      Fits();
    }

    lemma OneFits(key: ChunkKey, chunk: Buffer)
      requires Loose() && Cacheable(key) && bytes > capacity
      requires entries != [] && entries[|entries| - 1] == Entry(key, chunk)
      ensures |entries| > 1
    {
      if |entries| == 1 {
        assert Keys() == [key];
        SizeOne(source, key);
      }
    }

    lemma Fits()
      requires Loose() && bytes <= capacity
      ensures Valid()
    {
    }

    method Append(key: ChunkKey, chunk: Buffer)
      requires Valid() && Sound() && Mine(chunk) && Cacheable(key) && source(key) == Ok(chunk.bytes)
      requires key !in Keys()
      modifies this`entries, this`bytes, this`recency
      ensures Loose() && Sound()
      ensures entries == old(entries) + [Entry(key, chunk)] && recency == Touch(old(recency), key)
      ensures Pool() <= old(Pool()) + {chunk}
    {
      hide LongestFit, NearFit, Touch, Size, Distinct;
      MissOverflows(source, capacity, recency, Keys(), key);
      TouchDistinct(recency, key);
      TouchCacheable(key);
      SizeConcat(source, Keys(), [key]);
      SizeOne(source, key);
      assert KeysOf(entries + [Entry(key, chunk)]) == KeysOf(entries) + [key];
      entries := entries + [Entry(key, chunk)];
      bytes := bytes + |chunk.bytes|;
      recency := Touch(recency, key);
    }

    /** Drop the least recently used chunk. Its buffer is kept back unless someone
        still reads it, or enough are kept already. */
    method Evict()
      requires Loose() && Sound() && bytes > capacity
      modifies this`entries, this`bytes, this`spare
      ensures Loose() && Sound()
      ensures old(entries) != [] && entries == old(entries[1..]) && Pool() <= old(Pool())
      ensures var b := old(entries[0]).buffer;
        spare == if |old(spare)| < MAX_SPARES && b !in held then old(spare) + [b] else old(spare)
    {
      hide LongestFit, NearFit, Touch, Size;
      SomethingCached();
      EvictOverflows(source, capacity, recency, Keys());
      assert KeysOf(entries[1..]) == KeysOf(entries)[1..];
      var evicted := entries[0];
      assert evicted in entries;
      bytes := bytes - |evicted.buffer.bytes|;
      entries := entries[1..];
      if |spare| < MAX_SPARES {
        if evicted.buffer !in held {
          spare := spare + [evicted.buffer];
        }
      }
    }

    lemma SomethingCached()
      requires Loose() && bytes > capacity
      ensures entries != []
    {
    }

    /** A chunk's handle, from the cache or from the decoder. No buffer a reader has
        is written to. */
    method GetOrDecode(key: ChunkKey) returns (chunk: Result<Buffer, string>)
      requires Valid() && Sound()
      modifies this, Pool()
      ensures Valid() && Sound() && lent == old(lent) && fresh(Pool() - old(Pool()))
      ensures chunk.Ok? <==> source(key).Ok?
      ensures chunk.Ok? ==> source(key) == Ok(chunk.value.bytes) && held == old(held) + multiset{chunk.value}
      ensures chunk.Err? ==> chunk.error == source(key).error && held == old(held)
      ensures recency == if Cacheable(key) then Touch(old(recency), key) else old(recency)
      ensures key in old(Keys()) ==> hits == old(hits) + 1 && misses == old(misses)
      ensures key !in old(Keys()) ==> hits == old(hits) && misses == old(misses) + 1
      ensures races == old(races)
      ensures forall b :: b in old(held) ==> b.bytes == old(b.bytes)
    {
      hide LongestFit, NearFit, Distinct, Apart, Touch, Size, KeysOf, Owned, AllCacheable, Cacheable, Valid;
      if key in Keys() {
        CachedIsCacheable(key);
      }
      var hit := Get(key);
      if hit.Some? {
        hits := hits + 1;
        return Ok(hit.value);
      }
      misses := misses + 1;
      chunk := DecodeAndKeep(key);
    }

    method DecodeAndKeep(key: ChunkKey) returns (chunk: Result<Buffer, string>)
      requires Valid() && Sound() && key !in Keys()
      modifies this`entries, this`bytes, this`spare, this`lent, this`held, this`races, this`recency, Pool()
      ensures Valid() && Sound() && lent == old(lent) && fresh(Pool() - old(Pool()))
      ensures chunk.Ok? <==> source(key).Ok?
      ensures chunk.Ok? ==> source(key) == Ok(chunk.value.bytes) && held == old(held) + multiset{chunk.value}
      ensures chunk.Err? ==> chunk.error == source(key).error && held == old(held)
      ensures recency == if Cacheable(key) then Touch(old(recency), key) else old(recency)
      ensures races == old(races)
      ensures forall b :: b in old(held) ==> b.bytes == old(b.bytes)
    {
      hide LongestFit, NearFit, Distinct, Apart, Touch, Size;
      var buffer := TakeSpare();
      var own: bool := *;
      chunk := Decode(key, buffer, own);
      if chunk.Ok? {
        Insert(key, chunk.value);
      }
    }

    /** Put `n` bytes of a chunk, from byte `start` of it, at `out[lo..]`, and let go of it. */
    method ReadInto(key: ChunkKey, start: nat, out: array<byte>, lo: nat, n: nat) returns (done: Result<(), string>)
      requires Valid() && Sound() && lo + n <= out.Length
      requires source(key).Ok? ==> start + n <= |source(key).value|
      modifies this, Pool(), out
      ensures Valid() && Sound() && lent == old(lent) && held == old(held) && fresh(Pool() - old(Pool()))
      ensures done.Ok? <==> source(key).Ok?
      ensures done.Ok? ==> out[lo..lo + n] == source(key).value[start..start + n]
      ensures done.Err? ==> done.error == source(key).error && out[..] == old(out[..])
      ensures out[..lo] == old(out[..lo]) && out[lo + n..] == old(out[lo + n..])
      ensures recency == if Cacheable(key) then Touch(old(recency), key) else old(recency)
      ensures forall b :: b in old(held) ==> b.bytes == old(b.bytes)
    {
      hide LongestFit, Apart, Touch, Size;
      var decoded := GetOrDecode(key);
      if decoded.Err? {
        return Err(decoded.error);
      }
      CopyOut(decoded.value.bytes, start, out, lo, n);
      Release(decoded.value);
      done := Ok(());
    }
  }
}
