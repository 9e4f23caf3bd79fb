/** The server's plans, kept by id and by session. */
module Registry {
  import opened Words

  type SessionId = nat
  type Ticket = seq<byte>

  /** One prepared transfer. */
  class TransferEntry {
    const requestId: nat
    const session: SessionId
    const ticket: Ticket
    /** When it was last fetched from. */
    var lastUsed: nat

    constructor (requestId: nat, session: SessionId, ticket: Ticket, now: nat)
      ensures this.requestId == requestId && this.session == session && this.ticket == ticket && lastUsed == now
    {
      this.requestId, this.session, this.ticket, lastUsed := requestId, session, ticket, now;
    }

    predicate IsExpired(now: nat, ttl: nat)
      reads this
    {
      now > lastUsed && now - lastUsed > ttl
    }
  }

  datatype Refusal = NoSuchPlan | Unauthorized

  ghost predicate Distinct(ids: seq<nat>) {
    forall i, j :: 0 <= i < j < |ids| ==> ids[i] != ids[j]
  }

  /** The ids that still name a plan. */
  function Retain(ids: seq<nat>, entries: map<nat, TransferEntry>): (kept: seq<nat>) {
    if ids == [] then []
    else
      var rest := Retain(ids[..|ids| - 1], entries);
      if ids[|ids| - 1] in entries then rest + [ids[|ids| - 1]] else rest
  }

  lemma {:induction false} RetainKeeps(ids: seq<nat>, entries: map<nat, TransferEntry>)
    ensures forall id :: id in Retain(ids, entries) <==> id in ids && id in entries
    ensures |Retain(ids, entries)| <= |ids|
    ensures Distinct(ids) ==> Distinct(Retain(ids, entries))
    ensures (forall id :: id in ids ==> id in entries) ==> Retain(ids, entries) == ids
    decreases |ids|
  {
    if ids != [] {
      var init, last := ids[..|ids| - 1], ids[|ids| - 1];
      RetainKeeps(init, entries);
      assert ids == init + [last];
      if Distinct(ids) {
        DistinctParts(init, last);
        DistinctSnoc(Retain(init, entries), last);
      }
    }
  }

  const U32: nat := 0x1_0000_0000

  /** The id a counter gives. */
  function Drawn(counter: nat): nat {
    if counter == 0 then 1 else counter
  }

  type Plans = map<nat, TransferEntry>
  type Sessions = map<SessionId, seq<nat>>

  /** Both maps index the same plans, and no session is over its cap. */
  ghost predicate Agree(entries: Plans, bySession: Sessions, cap: nat) {
    && (forall id :: id in entries ==> Listed(entries, bySession, id))
    && (forall s :: s in bySession ==> Owns(entries, s, bySession[s], cap))
  }

  ghost predicate Listed(entries: Plans, bySession: Sessions, id: nat)
    requires id in entries
  {
    && entries[id].requestId == id && 0 < id < U32
    && entries[id].session in bySession && id in bySession[entries[id].session]
  }

  ghost predicate Owns(entries: Plans, s: SessionId, ids: seq<nat>, cap: nat) {
    && |ids| <= cap && Distinct(ids)
    && forall id :: id in ids ==> id in entries && entries[id].session == s
  }

  ghost function IdsOf(bySession: Sessions, s: SessionId): seq<nat> {
    if s in bySession then bySession[s] else []
  }

  /** An id's place filled by the last one. */
  function SwapRemove(ids: seq<nat>, at: nat): (left: seq<nat>)
    requires at < |ids|
    ensures |left| == |ids| - 1
  {
    ids[at := ids[|ids| - 1]][..|ids| - 1]
  }

  lemma SwapRemoved(ids: seq<nat>, at: nat)
    requires at < |ids| && Distinct(ids)
    ensures Distinct(SwapRemove(ids, at))
    ensures forall id :: id in SwapRemove(ids, at) <==> id in ids && id != ids[at]
  {
    var left, last := SwapRemove(ids, at), |ids| - 1;
    forall k | 0 <= k < |left| ensures left[k] == ids[if k == at then last else k] && left[k] != ids[at] {
    }
    forall id | id in ids && id != ids[at] ensures id in left {
      var k :| 0 <= k < |ids| && ids[k] == id;
      assert left[if k == last then at else k] == id;
    }
  }

  /** Evicting one of a session's plans. */
  lemma EvictAgrees(entries: Plans, bySession: Sessions, cap: nat, s: SessionId, at: nat)
    requires Agree(entries, bySession, cap) && s in bySession && at < |bySession[s]|
    ensures Agree(entries - {bySession[s][at]}, bySession[s := SwapRemove(bySession[s], at)], cap)
  {
    var gone := bySession[s][at];
    SwapRemoved(bySession[s], at);
    var entries', bySession' := entries - {gone}, bySession[s := SwapRemove(bySession[s], at)];
    forall id | id in entries' ensures Listed(entries', bySession', id) {
      assert Listed(entries, bySession, id);
    }
    forall t | t in bySession' ensures Owns(entries', t, bySession'[t], cap) {
      assert Owns(entries, t, bySession[t], cap) && Owns(entries, s, bySession[s], cap);
    }
  }

  /** Adding a plan to a session with room for it, under an id nobody has. */
  lemma AddAgrees(entries: Plans, bySession: Sessions, cap: nat, entry: TransferEntry)
    requires Agree(entries, bySession, cap) && 0 < entry.requestId < U32 && entry.requestId !in entries
    requires |IdsOf(bySession, entry.session)| < cap
    ensures Agree(entries[entry.requestId := entry],
                  bySession[entry.session := IdsOf(bySession, entry.session) + [entry.requestId]], cap)
  {
    var s, new' := entry.session, entry.requestId;
    var ids := IdsOf(bySession, s);
    var entries', bySession' := entries[new' := entry], bySession[s := ids + [new']];
    forall id | id in entries' ensures Listed(entries', bySession', id) {
      if id != new' {
        assert Listed(entries, bySession, id);
      }
    }
    forall t | t in bySession' ensures Owns(entries', t, bySession'[t], cap) {
      if t in bySession {
        assert Owns(entries, t, bySession[t], cap);
        assert new' !in bySession[t];
      }
    }
  }

  /** Under an id some plan still has, the maps come apart: the id is listed twice in
      one session, or in a session whose plan it no longer is. */
  lemma CollisionDisagrees(entries: Plans, bySession: Sessions, cap: nat, entry: TransferEntry)
    requires Agree(entries, bySession, cap) && entry.requestId in entries
    ensures !Agree(entries[entry.requestId := entry],
                   bySession[entry.session := IdsOf(bySession, entry.session) + [entry.requestId]], cap)
  {
    var s, id := entry.session, entry.requestId;
    var ids := IdsOf(bySession, s);
    var entries', bySession' := entries[id := entry], bySession[s := ids + [id]];
    assert Listed(entries, bySession, id);
    var t := entries[id].session;
    if t == s {
      var k :| 0 <= k < |ids| && ids[k] == id;
      assert (ids + [id])[k] == (ids + [id])[|ids|];
      assert !Owns(entries', s, bySession'[s], cap);
    } else {
      assert !Owns(entries', t, bySession'[t], cap);
    }
  }

  lemma SessionOwns(entries: Plans, bySession: Sessions, cap: nat, s: SessionId)
    requires Agree(entries, bySession, cap)
    ensures Owns(entries, s, IdsOf(bySession, s), cap)
  {
  }

  /** A session's empty list changes nothing. */
  lemma StillAgrees(entries: Plans, bySession: Sessions, cap: nat, s: SessionId)
    requires Agree(entries, bySession, cap)
    ensures Agree(entries, bySession[s := IdsOf(bySession, s)], cap)
  {
    var bySession' := bySession[s := IdsOf(bySession, s)];
    forall id | id in entries ensures Listed(entries, bySession', id) {
      assert Listed(entries, bySession, id);
    }
    forall t | t in bySession' ensures Owns(entries, t, bySession'[t], cap) {
      SessionOwns(entries, bySession, cap, t);
    }
  }

  /** Of the plans `ids`, none was used before `v`. */
  ghost predicate Oldest(entries: Plans, ids: seq<nat>, v: nat)
    reads set id | id in entries :: entries[id]
  {
    && v in ids && v in entries
    && forall id :: id in ids && id in entries ==> entries[v].lastUsed <= entries[id].lastUsed
  }

  class TransferRegistry {
    const cap: nat
    const ttl: nat
    var entries: Plans
    var bySession: Sessions
    var nextId: nat

    ghost predicate Valid()
      reads this
    {
      cap > 0 && nextId < U32 && Agree(entries, bySession, cap)
    }

    /** The plans of one session. */
    ghost function PlansOf(s: SessionId): seq<nat>
      reads this
    {
      IdsOf(bySession, s)
    }

    constructor (cap: nat, ttl: nat)
      requires cap > 0
      ensures Valid() && entries == map[] && bySession == map[] && nextId == 1
      ensures this.cap == cap && this.ttl == ttl
    {
      this.cap, this.ttl := cap, ttl;
      entries, bySession, nextId := map[], map[], 1;
    }

    /** The position in `ids` of the plan with the smallest last use, the first of several. */
    method LeastRecentlyUsed(ids: seq<nat>) returns (at: nat)
      requires ids != [] && forall id :: id in ids ==> id in entries
      ensures at < |ids|
      ensures forall k :: 0 <= k < |ids| ==> entries[ids[at]].lastUsed <= entries[ids[k]].lastUsed
      ensures forall k :: 0 <= k < at ==> entries[ids[at]].lastUsed < entries[ids[k]].lastUsed
    {
      at := 0;
      for k := 1 to |ids|
        invariant at < k
        invariant forall j :: 0 <= j < k ==> entries[ids[at]].lastUsed <= entries[ids[j]].lastUsed
        invariant forall j :: 0 <= j < at ==> entries[ids[at]].lastUsed < entries[ids[j]].lastUsed
      {
        if entries[ids[k]].lastUsed < entries[ids[at]].lastUsed {
          at := k;
        }
      }
    }

    /** Drop the plan a session has not touched for longest. */
    method EvictOldest(session: SessionId) returns (ghost v: nat)
      requires Valid() && session in bySession && bySession[session] != []
      modifies this`entries, this`bySession
      ensures Valid() && entries == old(entries) - {v} && Oldest(old(entries), old(bySession)[session], v)
      ensures session in bySession && |bySession[session]| == old(|bySession[session]|) - 1
      ensures forall s :: s != session ==> IdsOf(bySession, s) == IdsOf(old(bySession), s)
    {
      hide Agree;
      var ids := bySession[session];
      SessionOwns(entries, bySession, cap, session);
      var position := LeastRecentlyUsed(ids);
      EvictAgrees(entries, bySession, cap, session, position);
      v := ids[position];
      entries := entries - {ids[position]};
      bySession := bySession[session := SwapRemove(ids, position)];
    }

    /** Drop what a session has least recently used until it has room for one more. */
    method MakeRoom(session: SessionId) returns (ghost evicted: set<nat>)
      requires Valid()
      modifies this`entries, this`bySession
      ensures Valid() && |IdsOf(bySession, session)| < cap && entries == old(entries) - evicted
      ensures |IdsOf(old(bySession), session)| < cap ==> evicted == {}
      ensures |IdsOf(old(bySession), session)| >= cap ==>
        exists v :: evicted == {v} && Oldest(old(entries), IdsOf(old(bySession), session), v)
      ensures forall s :: s != session ==> IdsOf(bySession, s) == IdsOf(old(bySession), s)
    {
      hide Agree, Oldest, Retain;
      var ids := if session in bySession then bySession[session] else [];
      RetainKeeps(ids, entries);
      SessionOwns(entries, bySession, cap, session);
      StillAgrees(entries, bySession, cap, session);
      bySession := bySession[session := Retain(ids, entries)];
      evicted := {};
      while |bySession[session]| >= cap
        invariant Valid() && session in bySession && |bySession[session]| <= cap
        invariant forall s :: s != session ==> IdsOf(bySession, s) == IdsOf(old(bySession), s)
        invariant evicted == {} ==> entries == old(entries) && bySession[session] == ids
        invariant evicted != {} ==>
          && |bySession[session]| < cap == |ids| && entries == old(entries) - evicted
          && exists v :: evicted == {v} && Oldest(old(entries), ids, v)
        decreases |bySession[session]|
      {
        ghost var v := EvictOldest(session);
        evicted := {v};
      }
    }

    /** The id after the last one: the counter is 32 bits wide, and 0 is left out. */
    method NextRequestId() returns (id: nat)
      requires nextId < U32
      modifies this`nextId
      ensures id == Drawn(old(nextId)) && 0 < id < U32 && nextId == (id + 1) % U32
    {
      id, nextId := nextId, (nextId + 1) % U32;
      while id == 0
        invariant id == 0 || (id == Drawn(old(nextId)) && 0 < id < U32 && nextId == (id + 1) % U32)
        invariant id == 0 ==> old(nextId) == 0 && nextId == 1
        decreases if id == 0 then 1 else 0
      {
        id, nextId := nextId, (nextId + 1) % U32;
      }
    }

    /** The counter has not come round to an id that is still in use. */
    ghost predicate Ahead()
      reads this
    {
      forall id :: id in entries ==> id < nextId
    }

    /** Register a resolved selection. A session at its cap loses the plan it has
        not touched for longest, and nobody else loses anything. The maps still
        agree exactly when the id drawn is not one of a plan left. */
    method Insert(session: SessionId, ticket: Ticket, now: nat) returns (entry: TransferEntry, ghost evicted: set<nat>)
      requires Valid()
      modifies this
      ensures fresh(entry) && entry.requestId == Drawn(old(nextId)) && nextId == (entry.requestId + 1) % U32
      ensures entry.session == session && entry.ticket == ticket && entry.lastUsed == now
      ensures old(|PlansOf(session)|) < cap ==> evicted == {}
      ensures old(|PlansOf(session)|) >= cap ==>
        exists v :: evicted == {v} && Oldest(old(entries), old(PlansOf(session)), v)
      ensures entries == (old(entries) - evicted)[entry.requestId := entry]
      ensures forall s :: s != session ==> IdsOf(bySession, s) == IdsOf(old(bySession), s)
      ensures Valid() <==> entry.requestId !in old(entries) - evicted
      ensures old(Ahead()) && old(nextId) + 1 < U32 ==> Valid() && Ahead()
    {
      hide Agree, Oldest;
      var id := NextRequestId();
      entry := new TransferEntry(id, session, ticket, now);
      evicted := MakeRoom(session);
      if id in entries {
        CollisionDisagrees(entries, bySession, cap, entry);
      } else {
        AddAgrees(entries, bySession, cap, entry);
      }
      bySession := bySession[session := (if session in bySession then bySession[session] else []) + [entry.requestId]];
      entries := entries[entry.requestId := entry];
    }

    /** The plan with this id, for its own session and ticket only. An expired one is
        removed, one that is found is touched. */
    method Fetch(requestId: nat, ticket: Ticket, session: SessionId, now: nat)
      returns (found: Result<TransferEntry, Refusal>)
      requires Valid()
      modifies this`entries, this`bySession, set id | id in entries :: entries[id]
      ensures Valid()
      ensures requestId !in old(entries) ==> found == Err(NoSuchPlan) && entries == old(entries)
      ensures requestId in old(entries) && old(entries[requestId].lastUsed) + ttl < now ==>
        found == Err(NoSuchPlan) && entries == old(entries) - {requestId}
      ensures requestId in old(entries) && now <= old(entries[requestId].lastUsed) + ttl ==>
        && entries == old(entries) && bySession == old(bySession)
        && found == if entries[requestId].ticket == ticket && entries[requestId].session == session
                    then Ok(entries[requestId]) else Err(Unauthorized)
      ensures found.Ok? ==> found.value.lastUsed == now
      ensures forall id :: id in old(entries) && (found.Err? || id != requestId) ==>
        old(entries)[id].lastUsed == old(entries[id].lastUsed)
    {
      hide Agree;
      if requestId !in entries {
        return Err(NoSuchPlan);
      }
      var entry := entries[requestId];
      if entry.IsExpired(now, ttl) {
        Remove(requestId);
        return Err(NoSuchPlan);
      }
      if entry.ticket != ticket || entry.session != session {
        return Err(Unauthorized);
      }
      EntryNamed(entries, bySession, cap);
      entry.lastUsed := now;
      found := Ok(entry);
    }

    method Remove(requestId: nat)
      requires Valid()
      modifies this`entries, this`bySession
      ensures Valid() && entries == old(entries) - {requestId}
      ensures forall s :: PlansOf(s) == if requestId in old(entries) && old(entries)[requestId].session == s
                                        then Filtered(old(PlansOf(s)), requestId) else old(PlansOf(s))
    {
      hide Agree;
      if requestId in entries {
        var s := entries[requestId].session;
        RemoveAgrees(entries, bySession, cap, requestId);
        entries := entries - {requestId};
        if s in bySession {
          bySession := bySession[s := Filtered(bySession[s], requestId)];
        }
      }
    }

    /** Remove a session and all its plans. */
    method RemoveSession(session: SessionId) returns (dropped: nat)
      requires Valid()
      modifies this`entries, this`bySession
      ensures Valid() && session !in bySession
      ensures forall id :: id in entries <==> id in old(entries) && old(entries)[id].session != session
      ensures forall id :: id in entries ==> entries[id] == old(entries)[id]
      ensures forall s :: s != session ==> IdsOf(bySession, s) == IdsOf(old(bySession), s)
      ensures dropped == |IdsOf(old(bySession), session)|
    {
      hide Agree;
      if session !in bySession {
        NoneOf(entries, bySession, cap, session);
        return 0;
      }
      var ids := bySession[session];
      DropAgrees(entries, bySession, cap, session);
      var left := entries;
      for k := 0 to |ids|
        invariant left == entries - (set id | id in ids[..k])
      {
        assert ids[..k + 1] == ids[..k] + [ids[k]];
        left := left - {ids[k]};
      }
      assert ids[..|ids|] == ids;
      entries, bySession := left, bySession - {session};
      dropped := |ids|;
    }

    /** Keep the plans that survive, and the lists of live sessions that have any. */
    method Sweep(now: nat, live: set<SessionId>) returns (dropped: nat)
      requires Valid()
      modifies this`entries, this`bySession
      ensures Valid()
      ensures entries == map id | id in old(entries) && Survives(old(entries)[id], now, live) :: old(entries)[id]
      ensures forall s :: s in bySession ==> s in live && bySession[s] != []
      ensures forall s :: PlansOf(s) == Retain(old(PlansOf(s)), entries)
      ensures dropped + |entries| == old(|entries|)
    {
      hide Agree, Retain;
      var kept := map id |
        id in entries && !entries[id].IsExpired(now, ttl) && entries[id].session in live :: entries[id];
      var lists := map s |
        s in bySession && Retain(bySession[s], kept) != [] && s in live :: Retain(bySession[s], kept);
      SweepAgrees(entries, bySession, cap, kept, live, lists);
      assert forall s :: IdsOf(lists, s) == Retain(PlansOf(s), kept);
      SubmapSmaller(kept, entries);
      dropped := |entries| - |kept|;
      entries, bySession := kept, lists;
    }

    /** Used no longer ago than plans may rest, by a session that is still there. */
    ghost predicate Survives(entry: TransferEntry, now: nat, live: set<SessionId>)
      reads entry
    {
      now <= entry.lastUsed + ttl && entry.session in live
    }
  }

  /** The ids other than one. */
  function Filtered(ids: seq<nat>, gone: nat): seq<nat> {
    if ids == [] then []
    else
      var rest := Filtered(ids[..|ids| - 1], gone);
      if ids[|ids| - 1] != gone then rest + [ids[|ids| - 1]] else rest
  }

  lemma {:induction false} FilteredKeeps(ids: seq<nat>, gone: nat)
    ensures forall id :: id in Filtered(ids, gone) <==> id in ids && id != gone
    ensures |Filtered(ids, gone)| <= |ids|
    ensures Distinct(ids) ==> Distinct(Filtered(ids, gone))
    decreases |ids|
  {
    if ids != [] {
      var init, last := ids[..|ids| - 1], ids[|ids| - 1];
      FilteredKeeps(init, gone);
      assert ids == init + [last];
      if Distinct(ids) {
        DistinctParts(init, last);
        DistinctSnoc(Filtered(init, gone), last);
      }
    }
  }

  lemma DistinctParts(init: seq<nat>, last: nat)
    requires Distinct(init + [last])
    ensures Distinct(init) && last !in init
  {
    var ids := init + [last];
    forall k | 0 <= k < |init| ensures init[k] != last {
      assert ids[k] == init[k] && ids[|init|] == last;
    }
    forall i, j | 0 <= i < j < |init| ensures init[i] != init[j] {
      assert ids[i] == init[i] && ids[j] == init[j];
    }
  }

  lemma DistinctSnoc(init: seq<nat>, last: nat)
    ensures Distinct(init) && last !in init ==> Distinct(init + [last])
  {
  }

  lemma EntryNamed(entries: Plans, bySession: Sessions, cap: nat)
    requires Agree(entries, bySession, cap)
    ensures forall a, b :: a in entries && b in entries && entries[a] == entries[b] ==> a == b
  {
    forall a, b | a in entries && b in entries && entries[a] == entries[b] ensures a == b {
      assert Listed(entries, bySession, a) && Listed(entries, bySession, b);
    }
  }

  lemma RemoveAgrees(entries: Plans, bySession: Sessions, cap: nat, gone: nat)
    requires Agree(entries, bySession, cap) && gone in entries
    ensures entries[gone].session in bySession
    ensures var s := entries[gone].session;
      Agree(entries - {gone}, bySession[s := Filtered(bySession[s], gone)], cap)
  {
    var s := entries[gone].session;
    assert Listed(entries, bySession, gone);
    FilteredKeeps(bySession[s], gone);
    var entries', bySession' := entries - {gone}, bySession[s := Filtered(bySession[s], gone)];
    forall id | id in entries' ensures Listed(entries', bySession', id) {
      assert Listed(entries, bySession, id);
    }
    forall t | t in bySession' ensures Owns(entries', t, bySession'[t], cap) {
      assert Owns(entries, t, bySession[t], cap);
    }
  }

  lemma DropAgrees(entries: Plans, bySession: Sessions, cap: nat, s: SessionId)
    requires Agree(entries, bySession, cap) && s in bySession
    ensures var entries' := entries - (set id | id in bySession[s]);
      && Agree(entries', bySession - {s}, cap)
      && forall id :: id in entries' <==> id in entries && entries[id].session != s
  {
    var entries' := entries - (set id | id in bySession[s]);
    assert Owns(entries, s, bySession[s], cap);
    forall id | id in entries
      ensures Listed(entries, bySession, id) && (id in bySession[s] <==> entries[id].session == s)
    {
      assert Listed(entries, bySession, id);
    }
    forall t | t in bySession - {s} ensures Owns(entries', t, bySession[t], cap) {
      assert Owns(entries, t, bySession[t], cap);
    }
  }

  lemma NoneOf(entries: Plans, bySession: Sessions, cap: nat, s: SessionId)
    requires Agree(entries, bySession, cap) && s !in bySession
    ensures forall id :: id in entries ==> entries[id].session != s
  {
    forall id | id in entries ensures entries[id].session != s {
      assert Listed(entries, bySession, id);
    }
  }

  lemma SweepAgrees(entries: Plans, bySession: Sessions, cap: nat, kept: Plans, live: set<SessionId>, lists: Sessions)
    requires Agree(entries, bySession, cap)
    requires forall id :: id in kept ==> id in entries && kept[id] == entries[id] && entries[id].session in live
    requires lists == map s |
      s in bySession && Retain(bySession[s], kept) != [] && s in live :: Retain(bySession[s], kept)
    ensures Agree(kept, lists, cap)
    ensures forall s :: IdsOf(lists, s) == Retain(IdsOf(bySession, s), kept)
  {
    forall id | id in kept ensures Listed(kept, lists, id) {
      assert Listed(entries, bySession, id);
      RetainKeeps(bySession[entries[id].session], kept);
    }
    forall s | s in lists ensures Owns(kept, s, lists[s], cap) {
      assert Owns(entries, s, bySession[s], cap);
      RetainKeeps(bySession[s], kept);
    }
    forall s ensures IdsOf(lists, s) == Retain(IdsOf(bySession, s), kept) {
      if s in bySession && s !in live {
        assert Owns(entries, s, bySession[s], cap);
        RetainKeeps(bySession[s], kept);
        NothingRetained(bySession[s], kept);
      }
    }
  }

  lemma {:induction false} NothingRetained(ids: seq<nat>, kept: Plans)
    requires forall id :: id in ids ==> id !in kept
    ensures Retain(ids, kept) == []
    decreases |ids|
  {
    if ids != [] {
      NothingRetained(ids[..|ids| - 1], kept);
    }
  }

  lemma SubmapSmaller(a: Plans, b: Plans)
    requires a.Keys <= b.Keys
    ensures |a| <= |b|
  {
    KeysSmaller(a.Keys, b.Keys);
    assert |a| == |a.Keys| && |b| == |b.Keys|;
  }

  lemma KeysSmaller(a: set<nat>, b: set<nat>)
    requires a <= b
    ensures |a| <= |b|
  {
    assert b == a + (b - a);
  }
}
