/** Claims on a buffer that many threads fill. */
module Scatter {
  import opened Words
  import opened Pool

  /** A claimed range, by its start and end. */
  datatype Claim = Claim(start: nat, end: nat) {
    predicate IsEmpty() { start >= end }

    /** What two claims of some bytes each must not do: have one in common. */
    ghost predicate SharesByte(other: Claim) {
      exists x :: Has(x) && other.Has(x)
    }

    predicate Has(x: int) { start <= x < end }

    /** The test the buffer makes. */
    predicate Conflicts(other: Claim) {
      start < other.end && other.start < end
    }
  }

  datatype Refusal = OutOfRange | Overlap

  lemma ConflictIsSharing(a: Claim, b: Claim)
    requires !a.IsEmpty() && !b.IsEmpty()
    ensures a.Conflicts(b) <==> a.SharesByte(b)
  {
    if a.Conflicts(b) {
      var x := Max(a.start, b.start);
      assert a.Has(x) && b.Has(x);
    }
  }

  /** An empty claim shares no byte with anything, yet one held strictly inside a
      range keeps that range from being claimed. */
  lemma EmptyClaimConflicts(held: Claim, wanted: Claim)
    requires held.IsEmpty() && held.start == held.end && !wanted.IsEmpty()
    ensures !held.SharesByte(wanted)
    ensures held.Conflicts(wanted) <==> wanted.start < held.start < wanted.end
  {
  }

  ghost predicate InBuffer(claims: seq<Claim>, len: nat) {
    forall i :: 0 <= i < |claims| ==> claims[i].start <= claims[i].end <= len
  }

  ghost predicate Apart(claims: seq<Claim>) {
    forall i, j :: 0 <= i < |claims| && 0 <= j < |claims| && i != j ==> !claims[i].SharesByte(claims[j])
  }

  ghost predicate HaveBytes(claims: seq<Claim>) {
    forall i :: 0 <= i < |claims| ==> !claims[i].IsEmpty()
  }

  class ScatterBuffer {
    const len: nat
    /** Ranges currently handed out. */
    var claimed: seq<Claim>

    /** Claims lie in the buffer, and no byte is claimed twice. */
    ghost predicate Valid()
      reads this
    {
      len < U64 && InBuffer(claimed, len) && Apart(claimed)
    }

    ghost predicate NoneEmpty()
      reads this
    {
      HaveBytes(claimed)
    }

    constructor (len: nat)
      requires len < U64
      ensures Valid() && this.len == len && claimed == []
    {
      this.len := len;
      claimed := [];
    }

    /** Take `[offset, offset + n)` for exclusive use. */
    method Take(offset: nat, n: nat) returns (taken: Result<Claim, Refusal>)
      requires Valid() && offset < U64 && n < U64
      modifies this`claimed
      ensures Valid()
      ensures taken == Err(OutOfRange) <==> offset + n > len
      ensures taken == Err(Overlap) <==>
        offset + n <= len && n > 0 && exists c :: c in old(claimed) && c.Conflicts(Claim(offset, offset + n))
      ensures taken.Err? ==> claimed == old(claimed)
      ensures taken.Ok? ==> taken.value == Claim(offset, offset + n) && claimed == old(claimed) + [taken.value]
      ensures taken.Ok? && n > 0 ==> forall c :: c in old(claimed) ==> !c.SharesByte(taken.value)
      ensures n > 0 && old(NoneEmpty()) ==> NoneEmpty()
    {
      if offset + n >= U64 || offset + n > len {
        return Err(OutOfRange);
      }
      var wanted := Claim(offset, offset + n);
      var i := 0;
      while n > 0 && i < |claimed|
        invariant i <= |claimed|
        invariant forall k :: 0 <= k < i ==> !claimed[k].Conflicts(wanted)
      {
        if claimed[i].Conflicts(wanted) {
          assert claimed[i] in claimed;
          return Err(Overlap);
        }
        i := i + 1;
      }
      NewShares(claimed, wanted);
      claimed := claimed + [wanted];
      taken := Ok(wanted);
    }

    /** Give a range back: the first claim that starts where it does is taken off
        the list, the last one filling its place. */
    method Drop(offset: nat)
      requires Valid()
      modifies this`claimed
      ensures Valid()
      ensures old(NoneEmpty()) ==> NoneEmpty()
      ensures (forall c :: c in old(claimed) ==> c.start != offset) ==> claimed == old(claimed)
      ensures (exists c :: c in old(claimed) && c.start == offset) ==>
        exists k :: FirstAt(old(claimed), offset, k) && claimed == Swapped(old(claimed), k)
      ensures old(NoneEmpty()) ==>
        forall c :: c in old(claimed) && c.start == offset ==>
          multiset(claimed) == old(multiset(claimed)) - multiset{c} && c !in claimed
    {
      hide InBuffer, Apart, HaveBytes;
      var i := 0;
      while i < |claimed| && claimed[i].start != offset
        invariant i <= |claimed|
        invariant forall k :: 0 <= k < i ==> claimed[k].start != offset
      {
        i := i + 1;
      }
      if i == |claimed| {
        return;
      }
      var last := claimed[|claimed| - 1];
      SwapKeeps(claimed, i, len);
      SwapRemoved(claimed, i);
      if HaveBytes(claimed) {
        SwapDropsOne(claimed, i);
      }
      assert FirstAt(claimed, offset, i);
      claimed := claimed[i := last][..|claimed| - 1];
    }
  }

  /** Claim `k` is the first that starts at `offset`. */
  ghost predicate FirstAt(s: seq<Claim>, offset: nat, k: nat) {
    k < |s| && s[k].start == offset && forall j :: 0 <= j < k ==> s[j].start != offset
  }

  /** A claim's place filled by the last one. */
  ghost function Swapped(s: seq<Claim>, i: nat): seq<Claim>
    requires i < |s|
  {
    s[i := s[|s| - 1]][..|s| - 1]
  }

  /** Dropping a slice releases its own claim, unless an empty claim at the same start
      comes first in the list. */
  lemma DropsItsOwn(s: seq<Claim>, j: nat, k: nat)
    requires Apart(s) && j < |s| && !s[j].IsEmpty() && FirstAt(s, s[j].start, k)
    ensures s[k] == s[j] <==> !s[k].IsEmpty()
  {
    if k != j && !s[k].IsEmpty() {
      assert !s[k].SharesByte(s[j]);
      assert s[k].Has(s[j].start) && s[j].Has(s[j].start);
    }
  }

  lemma SwapKeeps(s: seq<Claim>, i: nat, len: nat)
    requires i < |s| && InBuffer(s, len) && Apart(s)
    ensures InBuffer(Swapped(s, i), len) && Apart(Swapped(s, i))
    ensures HaveBytes(s) ==> HaveBytes(Swapped(s, i))
  {
    var t := Swapped(s, i);
    forall j, k | 0 <= j < |t| && 0 <= k < |t| && j != k ensures !t[j].SharesByte(t[k]) {
      assert t[j] == s[if j == i then |s| - 1 else j] && t[k] == s[if k == i then |s| - 1 else k];
    }
  }

  /** Two claims of some bytes each never start at the same place, so exactly the
      one that is dropped goes. */
  lemma SwapDropsOne(s: seq<Claim>, i: nat)
    requires i < |s| && Apart(s) && HaveBytes(s)
    ensures forall c :: c in s && c.start == s[i].start ==> c == s[i]
    ensures s[i] !in Swapped(s, i)
  {
    forall j | 0 <= j < |s| && s[j].start == s[i].start ensures j == i {
      assert s[i].Has(s[i].start) && s[j].Has(s[i].start);
    }
  }

  /** A range that conflicts with no claim shares no byte with any, and an empty
      one has none to share. */
  lemma NewShares(claimed: seq<Claim>, wanted: Claim)
    requires !wanted.IsEmpty() ==> forall k :: 0 <= k < |claimed| ==> !claimed[k].Conflicts(wanted)
    ensures forall k :: 0 <= k < |claimed| ==> !claimed[k].SharesByte(wanted) && !wanted.SharesByte(claimed[k])
  {
    forall k | 0 <= k < |claimed|
      ensures !claimed[k].SharesByte(wanted) && !wanted.SharesByte(claimed[k])
    {
      if claimed[k].SharesByte(wanted) || wanted.SharesByte(claimed[k]) {
        assert !wanted.IsEmpty() && claimed[k].Conflicts(wanted);
      }
    }
  }

  lemma SwapRemoved(s: seq<Claim>, i: nat)
    requires i < |s|
    ensures multiset(Swapped(s, i)) == multiset(s) - multiset{s[i]}
  {
    var last := s[|s| - 1];
    var init := s[..|s| - 1];
    assert s == init + [last];
    if i < |s| - 1 {
      assert s[i := last][..|s| - 1] == init[i := last];
      assert multiset(init[i := last]) == multiset(init)[init[i] := multiset(init)[init[i]] - 1] + multiset{last};
    } else {
      assert s[i := last][..|s| - 1] == init;
    }
  }

  function ClaimOf(c: Config, id: nat): Claim
    requires id < |c.chunks|
  {
    Claim(c.chunks[id].offset, c.chunks[id].offset + c.chunks[id].len)
  }

  /** The claims a part's buffer holds are the ranges of its claimed chunks. */
  ghost predicate Holds(c: Config, claimed: multiset<nat>, part: nat, claims: seq<Claim>) {
    && (forall h :: h in claimed && h < |c.chunks| && c.chunks[h].part == part ==> ClaimOf(c, h) in claims)
    && (forall k :: 0 <= k < |claims| ==> HeldBy(c, claimed, part, claims[k]))
  }

  ghost predicate HeldBy(c: Config, claimed: multiset<nat>, part: nat, claim: Claim) {
    exists h :: h in claimed && h < |c.chunks| && c.chunks[h].part == part && ClaimOf(c, h) == claim
  }

  /** When the pool says a chunk can be claimed, its part's buffer hands it out,
      and the other way round. */
  lemma PoolClaims(c: Config, claimed: multiset<nat>, id: nat, claims: seq<Claim>)
    requires id < |c.chunks| && c.chunks[id].part < |c.sizes| && Holds(c, claimed, c.chunks[id].part, claims)
    ensures Claimable(c, claimed, id) <==>
      && ClaimOf(c, id).end <= c.sizes[c.chunks[id].part]
      && forall k :: 0 <= k < |claims| ==> !claims[k].Conflicts(ClaimOf(c, id))
  {
    if Claimable(c, claimed, id) {
      forall k | 0 <= k < |claims| ensures !claims[k].Conflicts(ClaimOf(c, id)) {
        assert HeldBy(c, claimed, c.chunks[id].part, claims[k]);
      }
    }
    if forall k :: 0 <= k < |claims| ==> !claims[k].Conflicts(ClaimOf(c, id)) {
      forall h | h in claimed && h < |c.chunks| ensures !c.Overlaps(h, id) {
        if c.chunks[h].part == c.chunks[id].part {
          assert ClaimOf(c, h) in claims;
        }
      }
    }
  }
}
