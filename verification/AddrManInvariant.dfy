/** The consistency conditions Check_ states, proved inductive over every operation. */
module AddrManInvariant {
  import opened AddrManModel
  import opened Order

  type Infos = map<int, Info>

  ghost function Untried(m: Infos): set<int> {
    set id | id in m && !m[id].fInTried
  }

  ghost function Tried(m: Infos): set<int> {
    set id | id in m && m[id].fInTried
  }

  ghost predicate Indexed(n: int, m: Infos, addrs: map<NetAddr, int>) {
    && 0 <= n && (forall id :: id in m ==> 0 <= id < n)
    && (forall id :: id in m ==> m[id].service.net in addrs && addrs[m[id].service.net] == id)
    && (forall a :: a in addrs ==> addrs[a] in m && m[addrs[a]].service.net == a)
  }

  ghost predicate Shuffled(m: Infos, v: seq<int>) {
    && (forall id :: id in m ==> 0 <= m[id].nRandomPos < |v| && v[m[id].nRandomPos] == id)
    && (forall i :: 0 <= i < |v| ==> v[i] in m && m[v[i]].nRandomPos == i)
  }

  ghost predicate NewTable(e: Env, key: nat, m: Infos, t: Table) {
    && (forall c :: c in t ==>
         t[c] in m && c.bucket < NEW_BUCKET_COUNT && c == e.CellIn(key, m[t[c]].service, c.bucket))
    && (forall id :: id in m ==> m[id].nRefCount == |Refs(t, id)|)
  }

  ghost predicate TriedTable(e: Env, key: nat, m: Infos, t: Table) {
    && (forall c :: c in t ==> t[c] in m && m[t[c]].fInTried && c == e.TriedCell(key, m[t[c]].service))
    && (forall id :: id in m && m[id].fInTried ==>
         e.TriedCell(key, m[id].service) in t && t[e.TriedCell(key, m[id].service)] == id)
  }

  ghost predicate Entry(i: Info, pending: bool) {
    && (i.fInTried ==> i.nRefCount == 0 && i.nLastSuccess != 0)
    && (!i.fInTried ==> 0 <= i.nRefCount <= NEW_BUCKETS_PER_ADDRESS && (i.nRefCount == 0 <==> pending))
    && i.nLastTry >= 0 && i.nLastSuccess >= 0
  }

  /** z holds the ids an operation is still finding a bucket for. */
  ghost predicate Entries(m: Infos, z: set<int>) {
    forall id :: id in m ==> Entry(m[id], id in z)
  }

  ghost predicate Counted(m: Infos, nNew: int, nTried: int) {
    nNew == |Untried(m)| && nTried == |Tried(m)|
  }

  /** A tried cell never empties, so every pending collision still collides. */
  ghost predicate Colliding(e: Env, key: nat, n: int, m: Infos, t: Table, xs: set<int>) {
    && (forall id :: id in xs ==> id < n)
    && (forall id :: id in xs && id in m ==> e.TriedCell(key, m[id].service) in t)
  }

  /** All of the invariant but the state of the pending collisions, which eviction suspends. */
  ghost predicate Core(e: Env, s: State, z: set<int>) {
    && Indexed(s.nIdCount, s.mapInfo, s.mapAddr)
    && Shuffled(s.mapInfo, s.vRandom)
    && NewTable(e, s.nKey, s.mapInfo, s.vvNew)
    && TriedTable(e, s.nKey, s.mapInfo, s.vvTried)
    && Entries(s.mapInfo, z)
    && Counted(s.mapInfo, s.nNew, s.nTried)
  }

  ghost predicate Pending(e: Env, s: State) {
    Colliding(e, s.nKey, s.nIdCount, s.mapInfo, s.vvTried, s.collisions)
  }

  /** Check_ finds nothing to report, and every pending collision is one. */
  ghost predicate Consistent(e: Env, s: State) {
    Core(e, s, {}) && Pending(e, s)
  }

  // ---- what an operation that spares part of the entries need not reprove

  ghost predicate SameServices(m: Infos, w: Infos) {
    m.Keys == w.Keys && forall id :: id in m ==> m[id].service == w[id].service
  }

  ghost predicate SamePositions(m: Infos, w: Infos) {
    m.Keys == w.Keys && forall id :: id in m ==> m[id].nRandomPos == w[id].nRandomPos
  }

  ghost predicate SameRefs(m: Infos, w: Infos) {
    m.Keys == w.Keys && forall id :: id in m ==> m[id].nRefCount == w[id].nRefCount
  }

  ghost predicate SameSides(m: Infos, w: Infos) {
    m.Keys == w.Keys && forall id :: id in m ==> m[id].fInTried == w[id].fInTried
  }

  lemma KeepsIndex(n: int, m: Infos, w: Infos, addrs: map<NetAddr, int>)
    requires Indexed(n, m, addrs) && SameServices(m, w)
    ensures Indexed(n, w, addrs)
  {}

  lemma KeepsShuffle(m: Infos, w: Infos, v: seq<int>)
    requires Shuffled(m, v) && SamePositions(m, w)
    ensures Shuffled(w, v)
  {}

  lemma KeepsNew(e: Env, key: nat, m: Infos, w: Infos, t: Table)
    requires NewTable(e, key, m, t) && SameServices(m, w) && SameRefs(m, w)
    ensures NewTable(e, key, w, t)
  {
    forall id | id in w ensures w[id].nRefCount == m[id].nRefCount && w[id].service == m[id].service {}
    forall c | c in t ensures t[c] in w && c == e.CellIn(key, w[t[c]].service, c.bucket) {}
  }

  lemma KeepsTried(e: Env, key: nat, m: Infos, w: Infos, t: Table)
    requires TriedTable(e, key, m, t) && SameServices(m, w) && SameSides(m, w)
    ensures TriedTable(e, key, w, t)
  {
    forall id | id in w ensures w[id].fInTried == m[id].fInTried && w[id].service == m[id].service {}
    forall c | c in t ensures t[c] in w && w[t[c]].fInTried {}
  }

  lemma KeepsCounts(m: Infos, w: Infos, nNew: int, nTried: int)
    requires Counted(m, nNew, nTried) && SameSides(m, w)
    ensures Counted(w, nNew, nTried)
  {
    forall id | id in w ensures w[id].fInTried == m[id].fInTried {}
    assert Untried(w) == Untried(m);
    assert Tried(w) == Tried(m);
  }

  lemma KeepsColliding(e: Env, key: nat, n: int, m: Infos, w: Infos, t: Table, xs: set<int>)
    requires Colliding(e, key, n, m, t, xs) && SameServices(m, w)
    ensures Colliding(e, key, n, w, t, xs)
  {}

  ghost predicate SameSeat(i: Info, j: Info) {
    && i.service == j.service && i.nRefCount == j.nRefCount && i.fInTried == j.fInTried
    && i.nRandomPos == j.nRandomPos
  }

  /** One entry rewritten without touching what the tables rely on. */
  lemma Resettled(e: Env, s: State, z: set<int>, id: int, i: Info)
    requires Core(e, s, z) && id in s.mapInfo && SameSeat(s.mapInfo[id], i) && Entry(i, id in z)
    ensures Core(e, SetInfo(s, id, i), z)
    ensures Pending(e, s) ==> Pending(e, SetInfo(s, id, i))
  {
    hide Indexed, Shuffled, NewTable, TriedTable, Counted, Colliding;
    var m, w := s.mapInfo, SetInfo(s, id, i).mapInfo;
    KeepsIndex(s.nIdCount, m, w, s.mapAddr);
    KeepsShuffle(m, w, s.vRandom);
    KeepsNew(e, s.nKey, m, w, s.vvNew);
    KeepsTried(e, s.nKey, m, w, s.vvTried);
    KeepsCounts(m, w, s.nNew, s.nTried);
    if Pending(e, s) { KeepsColliding(e, s.nKey, s.nIdCount, m, w, s.vvTried, s.collisions); }
  }

  // ---- SwapRandom

  lemma SwapShuffles(s: State, i: int, j: int)
    requires Shuffled(s.mapInfo, s.vRandom) && 0 <= i < |s.vRandom| && 0 <= j < |s.vRandom|
    ensures CanSwap(s, i, j) && Shuffled(SwapRandom(s, i, j).mapInfo, SwapRandom(s, i, j).vRandom)
  {
    if i != j {
      var m, v := s.mapInfo, s.vRandom;
      var a, b := v[i], v[j];
      assert a != b;
      var w, u := SwapRandom(s, i, j).mapInfo, SwapRandom(s, i, j).vRandom;
      assert w.Keys == m.Keys;
      forall id | id in w ensures 0 <= w[id].nRandomPos < |u| && u[w[id].nRandomPos] == id {}
      forall k | 0 <= k < |u| ensures u[k] in w && w[u[k]].nRandomPos == k {}
    }
  }

  ghost predicate SameButPos(i: Info, j: Info) {
    i.(nRandomPos := j.nRandomPos) == j
  }

  lemma SwapKeeps(s: State, i: int, j: int)
    requires CanSwap(s, i, j)
    ensures SwapRandom(s, i, j).mapInfo.Keys == s.mapInfo.Keys
    ensures forall id :: id in s.mapInfo ==> SameButPos(SwapRandom(s, i, j).mapInfo[id], s.mapInfo[id])
  {}

  lemma Swapped(e: Env, s: State, z: set<int>, i: int, j: int)
    requires Core(e, s, z) && 0 <= i < |s.vRandom| && 0 <= j < |s.vRandom|
    ensures CanSwap(s, i, j) && Core(e, SwapRandom(s, i, j), z)
    ensures Pending(e, s) ==> Pending(e, SwapRandom(s, i, j))
  {
    hide Indexed, Shuffled, NewTable, TriedTable, Counted, Colliding;
    SwapShuffles(s, i, j);
    SwapKeeps(s, i, j);
    var m, w := s.mapInfo, SwapRandom(s, i, j).mapInfo;
    KeepsIndex(s.nIdCount, m, w, s.mapAddr);
    KeepsNew(e, s.nKey, m, w, s.vvNew);
    KeepsTried(e, s.nKey, m, w, s.vvTried);
    KeepsCounts(m, w, s.nNew, s.nTried);
    if Pending(e, s) { KeepsColliding(e, s.nKey, s.nIdCount, m, w, s.vvTried, s.collisions); }
  }

  // ---- Delete

  lemma DropIndex(n: int, m: Infos, addrs: map<NetAddr, int>, id: int)
    requires Indexed(n, m, addrs) && id in m
    ensures Indexed(n, m - {id}, addrs - {m[id].service.net})
  {}

  lemma DropShuffle(m: Infos, v: seq<int>, id: int)
    requires Shuffled(m, v) && id in m && m[id].nRandomPos == |v| - 1
    ensures Shuffled(m - {id}, v[..|v| - 1])
  {}

  lemma DropNew(e: Env, key: nat, m: Infos, t: Table, id: int)
    requires NewTable(e, key, m, t) && id in m && m[id].nRefCount == 0
    ensures NewTable(e, key, m - {id}, t)
  {
    forall c | c in t ensures t[c] in m - {id} {
      assert c in Refs(t, t[c]);
    }
  }

  lemma DropTried(e: Env, key: nat, m: Infos, t: Table, id: int)
    requires TriedTable(e, key, m, t) && id in m && !m[id].fInTried
    ensures TriedTable(e, key, m - {id}, t)
  {}

  lemma DropCounts(m: Infos, nNew: int, nTried: int, id: int)
    requires Counted(m, nNew, nTried) && id in m && !m[id].fInTried
    ensures Counted(m - {id}, nNew - 1, nTried)
  {
    assert Untried(m - {id}) == Untried(m) - {id};
    assert Tried(m - {id}) == Tried(m);
  }

  lemma SwappedToEnd(s: State, id: int)
    requires Shuffled(s.mapInfo, s.vRandom) && id in s.mapInfo
    ensures var i, last := s.mapInfo[id].nRandomPos, |s.vRandom| - 1;
            && 0 <= i <= last && CanSwap(s, i, last)
            && var t := SwapRandom(s, i, last);
               && id in t.mapInfo && t.mapInfo[id].nRandomPos == last && |t.vRandom| == |s.vRandom|
               && t.nKey == s.nKey && t.nIdCount == s.nIdCount && t.mapAddr == s.mapAddr
               && t.vvNew == s.vvNew && t.vvTried == s.vvTried && t.nNew == s.nNew && t.nTried == s.nTried
  {}

  lemma Deleted(e: Env, s: State, z: set<int>, id: int)
    requires Core(e, s, z) && id in s.mapInfo && !s.mapInfo[id].fInTried && s.mapInfo[id].nRefCount == 0
    ensures CanDelete(s, id) && Core(e, Delete(s, id), z - {id})
    ensures Delete(s, id).mapInfo.Keys == s.mapInfo.Keys - {id}
    ensures forall x :: x in Delete(s, id).mapInfo ==> SameButPos(Delete(s, id).mapInfo[x], s.mapInfo[x])
  {
    hide Indexed, Shuffled, NewTable, TriedTable, Counted, SwapRandom;
    var i, last := s.mapInfo[id].nRandomPos, |s.vRandom| - 1;
    SwappedToEnd(s, id);
    Swapped(e, s, z, i, last);
    SwapKeeps(s, i, last);
    var t := SwapRandom(s, i, last);
    DropIndex(t.nIdCount, t.mapInfo, t.mapAddr, id);
    DropShuffle(t.mapInfo, t.vRandom, id);
    DropNew(e, t.nKey, t.mapInfo, t.vvNew, id);
    DropTried(e, t.nKey, t.mapInfo, t.vvTried, id);
    DropCounts(t.mapInfo, t.nNew, t.nTried, id);
  }

  // ---- the new table gains or loses cells of one entry

  lemma Rereffed(e: Env, key: nat, m: Infos, t: Table, id: int, u: Table)
    requires NewTable(e, key, m, t) && id in m
    requires forall x :: x in m && x != id ==> Refs(u, x) == Refs(t, x)
    requires forall c :: c in u ==> u[c] in m
    requires forall c :: c in Refs(u, id) ==>
               c.bucket < NEW_BUCKET_COUNT && c == e.CellIn(key, m[id].service, c.bucket)
    ensures NewTable(e, key, m[id := m[id].(nRefCount := |Refs(u, id)|)], u)
  {
    var w := m[id := m[id].(nRefCount := |Refs(u, id)|)];
    assert w.Keys == m.Keys;
    forall c | c in u
      ensures c.bucket < NEW_BUCKET_COUNT && c == e.CellIn(key, m[u[c]].service, c.bucket)
    {
      assert c in Refs(u, u[c]);
    }
  }

  /** The other six conjuncts, when only a reference count changes. */
  lemma Recounted(e: Env, s: State, z: set<int>, id: int, n: nat, t: Table, y: set<int>)
    requires Core(e, s, z) && id in s.mapInfo && !s.mapInfo[id].fInTried && n <= NEW_BUCKETS_PER_ADDRESS
    requires y == if n == 0 then z + {id} else z - {id}
    requires NewTable(e, s.nKey, s.mapInfo[id := s.mapInfo[id].(nRefCount := n)], t)
    ensures Core(e, s.(mapInfo := s.mapInfo[id := s.mapInfo[id].(nRefCount := n)], vvNew := t), y)
  {
    hide Indexed, Shuffled, NewTable, TriedTable, Counted;
    var m, w := s.mapInfo, s.mapInfo[id := s.mapInfo[id].(nRefCount := n)];
    KeepsIndex(s.nIdCount, m, w, s.mapAddr);
    KeepsShuffle(m, w, s.vRandom);
    KeepsTried(e, s.nKey, m, w, s.vvTried);
    KeepsCounts(m, w, s.nNew, s.nTried);
  }

  lemma Unreffed(e: Env, s: State, z: set<int>, c: Cell)
    requires Core(e, s, z) && c in s.vvNew
    ensures var id := s.vvNew[c];
            && id in s.mapInfo && s.mapInfo[id].nRefCount > 0 && id !in z && !s.mapInfo[id].fInTried
            && Core(e, Unref(s, c), if s.mapInfo[id].nRefCount == 1 then z + {id} else z)
  {
    hide Indexed, Shuffled, TriedTable, Counted;
    var id := s.vvNew[c];
    assert c in Refs(s.vvNew, id);
    var u := s.vvNew - {c};
    assert Refs(u, id) == Refs(s.vvNew, id) - {c};
    forall x | x in s.mapInfo && x != id ensures Refs(u, x) == Refs(s.vvNew, x) {}
    Rereffed(e, s.nKey, s.mapInfo, s.vvNew, id, u);
    hide NewTable;
    Recounted(e, s, z, id, |Refs(u, id)|, u, if |Refs(u, id)| == 0 then z + {id} else z - {id});
    assert id !in z ==> z - {id} == z;
  }

  lemma ClearedCell(e: Env, s: State, z: set<int>, c: Cell)
    requires Core(e, s, z)
    ensures CanClear(s, c) && Core(e, ClearNew(s, c), z) && c !in ClearNew(s, c).vvNew
    ensures c in s.vvNew ==> s.vvNew[c] in s.mapInfo && s.vvNew[c] !in z
    ensures ClearNew(s, c).mapInfo.Keys ==
              if c in s.vvNew && s.mapInfo[s.vvNew[c]].nRefCount == 1 then s.mapInfo.Keys - {s.vvNew[c]}
              else s.mapInfo.Keys
    ensures forall x :: x in ClearNew(s, c).mapInfo ==>
              && ClearNew(s, c).mapInfo[x].service == s.mapInfo[x].service
              && ((c in s.vvNew && x == s.vvNew[c]) || SameButPos(ClearNew(s, c).mapInfo[x], s.mapInfo[x]))
  {
    if c in s.vvNew {
      Unreffed(e, s, z, c);
      hide Indexed, Shuffled, NewTable, TriedTable, Entries, Counted;
      var id := s.vvNew[c];
      var t := Unref(s, c);
      if s.mapInfo[id].nRefCount == 1 {
        Deleted(e, t, z + {id}, id);
        assert z + {id} - {id} == z;
      }
    }
  }

  lemma Entered(e: Env, s: State, z: set<int>, id: int, c: Cell)
    requires Core(e, s, z) && id in s.mapInfo && !s.mapInfo[id].fInTried && c !in s.vvNew
    requires s.mapInfo[id].nRefCount < NEW_BUCKETS_PER_ADDRESS
    requires c.bucket < NEW_BUCKET_COUNT && c == e.CellIn(s.nKey, s.mapInfo[id].service, c.bucket)
    ensures Core(e, Enter(s, id, c), z - {id})
  {
    hide Indexed, Shuffled, TriedTable, Counted;
    var u := s.vvNew[c := id];
    assert Refs(u, id) == Refs(s.vvNew, id) + {c};
    forall x | x in s.mapInfo && x != id ensures Refs(u, x) == Refs(s.vvNew, x) {}
    Rereffed(e, s.nKey, s.mapInfo, s.vvNew, id, u);
    hide NewTable;
    Recounted(e, s, z, id, |Refs(u, id)|, u, z - {id});
  }

  // ---- MakeTried

  lemma RefsDropped(e: Env, s: State, z: set<int>, id: int)
    requires Core(e, s, z) && id in s.mapInfo && !s.mapInfo[id].fInTried
    ensures Core(e, DropRefs(s, id), z + {id})
  {
    hide Indexed, Shuffled, TriedTable, Counted;
    var u := s.vvNew - Refs(s.vvNew, id);
    assert Refs(u, id) == {};
    forall x | x in s.mapInfo && x != id ensures Refs(u, x) == Refs(s.vvNew, x) {}
    Rereffed(e, s.nKey, s.mapInfo, s.vvNew, id, u);
    hide NewTable;
    Recounted(e, s, z, id, 0, u, z + {id});
  }

  lemma EvictTried(e: Env, key: nat, m: Infos, t: Table, c: Cell)
    requires TriedTable(e, key, m, t) && c in t
    ensures t[c] in m && TriedTable(e, key, m[t[c] := m[t[c]].(fInTried := false)], t - {c})
  {}

  lemma EvictCounts(m: Infos, nNew: int, nTried: int, id: int)
    requires Counted(m, nNew, nTried) && id in m && m[id].fInTried
    ensures Counted(m[id := m[id].(fInTried := false)], nNew + 1, nTried - 1)
  {
    var w := m[id := m[id].(fInTried := false)];
    assert Untried(w) == Untried(m) + {id};
    assert Tried(w) == Tried(m) - {id};
  }

  lemma Evicted(e: Env, s: State, z: set<int>, c: Cell)
    requires Core(e, s, z) && c in s.vvTried
    ensures s.vvTried[c] in s.mapInfo && s.mapInfo[s.vvTried[c]].fInTried && s.mapInfo[s.vvTried[c]].nRefCount == 0
    ensures Core(e, Evict(s, c), z + {s.vvTried[c]})
  {
    hide Indexed, Shuffled, NewTable, Counted;
    var id := s.vvTried[c];
    EvictTried(e, s.nKey, s.mapInfo, s.vvTried, c);
    hide TriedTable;
    var m, w := s.mapInfo, Evict(s, c).mapInfo;
    KeepsIndex(s.nIdCount, m, w, s.mapAddr);
    KeepsShuffle(m, w, s.vRandom);
    KeepsNew(e, s.nKey, m, w, s.vvNew);
    EvictCounts(m, s.nNew, s.nTried, id);
  }

  lemma TakeTriedTable(e: Env, key: nat, m: Infos, t: Table, id: int)
    requires TriedTable(e, key, m, t) && id in m && !m[id].fInTried
    requires e.TriedCell(key, m[id].service) !in t
    ensures TriedTable(e, key, m[id := m[id].(fInTried := true)], t[e.TriedCell(key, m[id].service) := id])
  {}

  lemma TakeTriedCounts(m: Infos, nNew: int, nTried: int, id: int)
    requires Counted(m, nNew, nTried) && id in m && !m[id].fInTried
    ensures Counted(m[id := m[id].(fInTried := true)], nNew - 1, nTried + 1)
  {
    var w := m[id := m[id].(fInTried := true)];
    assert Untried(w) == Untried(m) - {id};
    assert Tried(w) == Tried(m) + {id};
  }

  lemma TriedTaken(e: Env, s: State, z: set<int>, id: int, c: Cell)
    requires Core(e, s, z) && id in z && id in s.mapInfo && !s.mapInfo[id].fInTried && s.mapInfo[id].nLastSuccess != 0
    requires c == e.TriedCell(s.nKey, s.mapInfo[id].service) && c !in s.vvTried
    ensures Core(e, TakeTried(s, id, c), z - {id})
  {
    hide Indexed, Shuffled, NewTable, TriedTable, Counted;
    var m, w := s.mapInfo, TakeTried(s, id, c).mapInfo;
    TakeTriedTable(e, s.nKey, m, s.vvTried, id);
    KeepsIndex(s.nIdCount, m, w, s.mapAddr);
    KeepsShuffle(m, w, s.vRandom);
    KeepsNew(e, s.nKey, m, w, s.vvNew);
    TakeTriedCounts(m, s.nNew, s.nTried, id);
  }

  /** Entries may go, new ids may come, and no tried cell empties. */
  ghost predicate Evolves(s: State, t: State) {
    && t.nKey == s.nKey && s.nIdCount <= t.nIdCount && t.collisions <= s.collisions
    && s.vvTried.Keys <= t.vvTried.Keys
    && forall id :: id in t.mapInfo && id < s.nIdCount ==>
         id in s.mapInfo && t.mapInfo[id].service == s.mapInfo[id].service
  }

  lemma StillPending(e: Env, s: State, t: State)
    requires Pending(e, s) && Evolves(s, t)
    ensures Pending(e, t)
  {}

  lemma ClearKeeps(s: State, c: Cell)
    requires CanClear(s, c)
    ensures var t := ClearNew(s, c);
            t.nKey == s.nKey && t.nIdCount == s.nIdCount && t.collisions == s.collisions && t.vvTried == s.vvTried
  {}

  /** The evicted entry always gets its primary new cell, whoever held it. */
  lemma Rehoused(e: Env, s: State, z: set<int>, id: int, n: Cell)
    requires Core(e, s, z + {id}) && id !in z && id in s.mapInfo && !s.mapInfo[id].fInTried &&
              s.mapInfo[id].nRefCount == 0
    requires n.bucket < NEW_BUCKET_COUNT && n == e.CellIn(s.nKey, s.mapInfo[id].service, n.bucket)
    ensures CanClear(s, n) && id in ClearNew(s, n).mapInfo && ClearNew(s, n).mapInfo[id].nRefCount == 0
    ensures n !in ClearNew(s, n).vvNew
    ensures forall x :: x in z && x in s.mapInfo ==>
              x in ClearNew(s, n).mapInfo && SameButPos(ClearNew(s, n).mapInfo[x], s.mapInfo[x])
    ensures Core(e, Enter(ClearNew(s, n), id, n), z)
    ensures Evolves(s, Enter(ClearNew(s, n), id, n))
  {
    hide Core, CanClear, ClearNew;
    ClearedCell(e, s, z + {id}, n);
    ClearKeeps(s, n);
    var t := ClearNew(s, n);
    assert SameButPos(t.mapInfo[id], s.mapInfo[id]);
    Entered(e, t, z + {id}, id, n);
    assert z + {id} - {id} == z;
  }

  /** Moving an entry to the tried table keeps every condition, and none of the asserts on the way can fire. */
  lemma MadeTried(e: Env, s: State, id: int)
    requires Core(e, s, {}) && id in s.mapInfo && !s.mapInfo[id].fInTried && s.mapInfo[id].nLastSuccess != 0
    ensures CanMakeTried(e, s, id)
    ensures Core(e, MakeTried(e, s, id), {}) && Evolves(s, MakeTried(e, s, id))
    ensures var t := MakeTried(e, s, id); id in t.mapInfo && t.mapInfo[id].fInTried
  {
    hide Core, CanClear, ClearNew, Env.TriedCell, Env.NewCell;
    var c := e.TriedCell(s.nKey, s.mapInfo[id].service);
    RefsDropped(e, s, {}, id);
    assert {} + {id} == {id};
    var t := DropRefs(s, id);
    if c in t.vvTried {
      Evicted(e, t, {id}, c);
      var holder := t.vvTried[c];
      var u := Evict(t, c);
      var n := e.NewCell(s.nKey, u.mapInfo[holder].service, u.mapInfo[holder].source);
      assert n.bucket < NEW_BUCKET_COUNT && n == e.CellIn(s.nKey, u.mapInfo[holder].service, n.bucket) by {
        NewCellIn(e, s.nKey, u.mapInfo[holder].service, u.mapInfo[holder].source);
      }
      Rehoused(e, u, {id}, holder, n);
      var w := Enter(ClearNew(u, n), holder, n);
      ClearKeeps(u, n);
      assert SameButPos(w.mapInfo[id], s.mapInfo[id].(nRefCount := 0));
      TriedTaken(e, w, {id}, id, c);
    } else {
      TriedTaken(e, t, {id}, id, c);
    }
    assert {id} - {id} == {};
  }

  /** What MakeTried finds on the way when the tried cell is taken. */
  lemma EvictionOnTheWay(e: Env, s: State, id: int)
    requires Core(e, s, {}) && id in s.mapInfo && !s.mapInfo[id].fInTried
    requires e.TriedCell(s.nKey, s.mapInfo[id].service) in s.vvTried
    ensures var c := e.TriedCell(s.nKey, s.mapInfo[id].service);
            && s.vvTried[c] in s.mapInfo && s.vvTried[c] != id
            && var u := Evict(DropRefs(s, id), c);
               var n := e.NewCell(s.nKey, s.mapInfo[s.vvTried[c]].service, s.mapInfo[s.vvTried[c]].source);
               && CanClear(u, n) && n !in ClearNew(u, n).vvNew && id in ClearNew(u, n).mapInfo
               && s.vvTried[c] in ClearNew(u, n).mapInfo && ClearNew(u, n).mapInfo[s.vvTried[c]].nRefCount == 0
               && ClearNew(u, n).vvTried == u.vvTried
  {
    hide Core, CanClear, ClearNew, Env.TriedCell, Env.NewCell;
    var c := e.TriedCell(s.nKey, s.mapInfo[id].service);
    RefsDropped(e, s, {}, id);
    assert {} + {id} == {id};
    var t := DropRefs(s, id);
    Evicted(e, t, {id}, c);
    var holder := t.vvTried[c];
    var u := Evict(t, c);
    var n := e.NewCell(s.nKey, u.mapInfo[holder].service, u.mapInfo[holder].source);
    NewCellIn(e, s.nKey, u.mapInfo[holder].service, u.mapInfo[holder].source);
    Rehoused(e, u, {id}, holder, n);
    ClearKeeps(u, n);
  }

  lemma NewCellIn(e: Env, key: nat, a: Service, source: NetAddr)
    ensures var n := e.NewCell(key, a, source); n.bucket < NEW_BUCKET_COUNT && n == e.CellIn(key, a, n.bucket)
  {}

  // ---- Good_

  lemma NotedWell(e: Env, s: State, a: Service, time: int)
    requires Consistent(e, s) && time > 0
    ensures Consistent(e, Noted(s, a, time))
  {
    hide Indexed, Shuffled, NewTable, TriedTable, Counted, Colliding;
    var t := s.(nLastGood := time);
    if Exact(s, a) {
      var id := s.mapAddr[a.net];
      Resettled(e, t, {}, id, Succeeded(s.mapInfo[id], time));
    }
  }

  lemma GoodInTheNewTable(e: Env, s: State, a: Service, test: bool, time: int)
    requires Consistent(e, s) && time > 0 && Promotes(e, s, a) && !(test && Collides(e, s, a))
    ensures CanGood(e, s, a, test, time) && Consistent(e, Good(e, s, a, test, time))
  {
    hide Core, Pending, CanMakeTried, MakeTried;
    NotedWell(e, s, a, time);
    var t := Noted(s, a, time);
    MadeTried(e, t, s.mapAddr[a.net]);
    StillPending(e, t, MakeTried(e, t, s.mapAddr[a.net]));
  }

  lemma GoodOnceMore(e: Env, s: State, a: Service, test: bool, time: int)
    requires Consistent(e, s) && time > 0
    ensures CanGood(e, s, a, test, time) && Consistent(e, Good(e, s, a, test, time))
  {
    if Promotes(e, s, a) && !(test && Collides(e, s, a)) {
      GoodInTheNewTable(e, s, a, test, time);
    } else {
      NotedWell(e, s, a, time);
      hide Indexed, Shuffled, NewTable, TriedTable, Counted, Entries;
      assert Promotes(e, s, a) ==> s.mapAddr[a.net] < s.nIdCount;
    }
  }

  // ---- Add_

  lemma GrowNew(e: Env, key: nat, m: Infos, t: Table, id: int, i: Info)
    requires NewTable(e, key, m, t) && id !in m && i.nRefCount == 0
    ensures NewTable(e, key, m[id := i], t)
  {
    forall c | c in t ensures t[c] != id {}
    assert Refs(t, id) == {};
  }

  lemma GrowIndex(n: int, m: Infos, addrs: map<NetAddr, int>, i: Info)
    requires Indexed(n, m, addrs) && i.service.net !in addrs
    ensures Indexed(n + 1, m[n := i], addrs[i.service.net := n])
  {}

  lemma GrowShuffle(m: Infos, v: seq<int>, id: int, i: Info)
    requires Shuffled(m, v) && id !in m && i.nRandomPos == |v|
    ensures Shuffled(m[id := i], v + [id])
  {
    var w := v + [id];
    forall k | 0 <= k < |w| ensures w[k] in m[id := i] && m[id := i][w[k]].nRandomPos == k {}
  }

  lemma GrowTried(e: Env, key: nat, n: int, m: Infos, t: Table, i: Info)
    requires TriedTable(e, key, m, t) && n !in m && !i.fInTried
    ensures TriedTable(e, key, m[n := i], t)
  {}

  lemma GrowCounts(m: Infos, nNew: int, nTried: int, id: int, i: Info)
    requires Counted(m, nNew, nTried) && id !in m && !i.fInTried
    ensures Counted(m[id := i], nNew + 1, nTried)
  {
    assert Untried(m[id := i]) == Untried(m) + {id};
    assert Tried(m[id := i]) == Tried(m);
  }

  lemma Created(e: Env, s: State, addr: Address, source: NetAddr, nTime: nat)
    requires Core(e, s, {}) && addr.service.net !in s.mapAddr
    ensures var t := Create(s, addr, source, nTime).(nNew := s.nNew + 1);
            Core(e, t, {s.nIdCount}) && Evolves(s, t)
  {
    hide Shuffled, NewTable, TriedTable, Counted;
    var t := Create(s, addr, source, nTime).(nNew := s.nNew + 1);
    var i := t.mapInfo[s.nIdCount];
    GrowShuffle(s.mapInfo, s.vRandom, s.nIdCount, i);
    GrowIndex(s.nIdCount, s.mapInfo, s.mapAddr, i);
    hide Indexed;
    GrowNew(e, s.nKey, s.mapInfo, s.vvNew, s.nIdCount, i);
    GrowTried(e, s.nKey, s.nIdCount, s.mapInfo, s.vvTried, i);
    GrowCounts(s.mapInfo, s.nNew, s.nTried, s.nIdCount, i);
  }

  /** Whichever way the fight for a new cell ends, no entry is left without one. */
  lemma Filed(e: Env, s: State, id: int, c: Cell, now: int)
    requires id in s.mapInfo && Core(e, s, if s.mapInfo[id].nRefCount == 0 then {id} else {}) && Pending(e, s)
    requires !s.mapInfo[id].fInTried && s.mapInfo[id].nRefCount < NEW_BUCKETS_PER_ADDRESS
    requires c.bucket < NEW_BUCKET_COUNT && c == e.CellIn(s.nKey, s.mapInfo[id].service, c.bucket)
    ensures CanFile(s, id, c, now) && Consistent(e, File(s, id, c, now))
  {
    var z := if s.mapInfo[id].nRefCount == 0 then {id} else {};
    if c in s.vvNew && s.vvNew[c] == id {
      Unreffed(e, s, z, c);
    } else if Overwrites(s, id, c, now) {
      FiledOver(e, s, id, c, z);
    } else if s.mapInfo[id].nRefCount == 0 {
      hide Core, CanDelete, Delete, Pending;
      Deleted(e, s, {id}, id);
      DeleteKeeps(s, id);
      StillPending(e, s, Delete(s, id));
      assert {id} - {id} == {};
    }
  }

  lemma DeleteKeeps(s: State, id: int)
    requires CanDelete(s, id)
    ensures var t := Delete(s, id);
            t.nKey == s.nKey && t.nIdCount == s.nIdCount && t.collisions == s.collisions && t.vvTried == s.vvTried
  {}

  lemma FiledOver(e: Env, s: State, id: int, c: Cell, z: set<int>)
    requires id in s.mapInfo && Core(e, s, z) && Pending(e, s) && !(c in s.vvNew && s.vvNew[c] == id)
    requires !s.mapInfo[id].fInTried && s.mapInfo[id].nRefCount < NEW_BUCKETS_PER_ADDRESS
    requires c.bucket < NEW_BUCKET_COUNT && c == e.CellIn(s.nKey, s.mapInfo[id].service, c.bucket) && z <= {id}
    ensures CanClear(s, c) && id in ClearNew(s, c).mapInfo && Consistent(e, Enter(ClearNew(s, c), id, c))
  {
    hide Core, CanClear, ClearNew, Pending;
    ClearedCell(e, s, z, c);
    ClearKeeps(s, c);
    var t := ClearNew(s, c);
    assert SameButPos(t.mapInfo[id], s.mapInfo[id]);
    Entered(e, t, z, id, c);
    StillPending(e, s, Enter(t, id, c));
    assert z - {id} == {};
  }

  lemma EntryOf(e: Env, s: State, id: int)
    requires Core(e, s, {}) && id in s.mapInfo
    ensures Entry(s.mapInfo[id], false)
  {
    hide Indexed, Shuffled, NewTable, TriedTable, Counted;
  }

  lemma KnownIsListed(e: Env, s: State, a: NetAddr)
    requires Core(e, s, {})
    ensures Known(s, a) <==> a in s.mapAddr
  {}

  lemma RecordedWell(e: Env, s: State, addr: Address, source: NetAddr, penalty: int, now: int)
    requires Consistent(e, s)
    ensures var t := Recorded(s, addr, source, penalty, now);
            && Pending(e, t)
            && Core(e, t, if Known(s, addr.service.net) then {} else {s.nIdCount})
  {
    hide Core, Pending;
    var a := addr.service.net;
    KnownIsListed(e, s, a);
    if Known(s, a) {
      EntryOf(e, s, s.mapAddr[a]);
      Resettled(e, s, {}, s.mapAddr[a], Refreshed(s.mapInfo[s.mapAddr[a]], addr, Penalty(addr, source, penalty), now));
    } else {
      Created(e, s, addr, source, Max0(addr.nTime - Penalty(addr, source, penalty)));
      StillPending(e, s, Recorded(s, addr, source, penalty, now));
    }
  }

  lemma Added(e: Env, s: State, addr: Address, source: NetAddr, penalty: int, now: int, draw: nat)
    requires Consistent(e, s)
    ensures CanAdd(e, s, addr, source, penalty, now, draw)
    ensures Consistent(e, Add(e, s, addr, source, penalty, now, draw))
  {
    RecordedWell(e, s, addr, source, penalty, now);
    var t := Recorded(s, addr, source, penalty, now);
    if e.routable(addr.service.net) {
      var id := AddedId(s, addr);
      assert Known(s, addr.service.net) ==> Entry(s.mapInfo[id], false);
      if Files(e, s, addr, source, penalty, now, draw) {
        hide Core, Pending, CanFile, File;
        NewCellIn(e, s.nKey, t.mapInfo[id].service, source);
        Filed(e, t, id, e.NewCell(s.nKey, t.mapInfo[id].service, source), now);
      } else {
        assert Known(s, addr.service.net);
      }
    }
  }

  // ---- the operations that only touch statistics

  lemma Restated(e: Env, s: State, a: Service, i: Info)
    requires Consistent(e, s) && Exact(s, a)
    requires var j := s.mapInfo[s.mapAddr[a.net]];
             SameSeat(i, j) && i.nLastSuccess == j.nLastSuccess && i.nLastTry >= 0
    ensures Consistent(e, SetInfo(s, s.mapAddr[a.net], i))
  {
    hide Core, Pending;
    EntryOf(e, s, s.mapAddr[a.net]);
    Resettled(e, s, {}, s.mapAddr[a.net], i);
  }

  // ---- GetAddr_

  lemma AllListed(e: Env, s: State)
    requires Core(e, s, {})
    ensures Listed(s)
  {}

  /** got lists the entries of the first n positions that are any good, none twice. */
  ghost predicate Gathering(s: State, n: nat, limit: nat, now: int, got: seq<int>) {
    && n <= |s.vRandom| && (forall i :: 0 <= i < |got| ==> got[i] in s.vRandom[..n])
    && Presentable(s, limit, now, got) && LookedAt(s, n, now, got)
  }

  ghost predicate Presentable(s: State, limit: nat, now: int, got: seq<int>) {
    && |got| <= limit
    && (forall i :: 0 <= i < |got| ==> got[i] in s.mapInfo && !IsTerrible(s.mapInfo[got[i]], now))
    && (forall i, j :: 0 <= i < j < |got| ==> got[i] != got[j])
  }

  /** Each of the first n positions holds a terrible entry or one of those gathered. */
  ghost predicate LookedAt(s: State, n: nat, now: int, got: seq<int>) {
    n <= |s.vRandom| && forall i :: 0 <= i < n ==> Dealt(s, now, got, s.vRandom[i])
  }

  ghost predicate Dealt(s: State, now: int, got: seq<int>, id: int) {
    id in s.mapInfo && (IsTerrible(s.mapInfo[id], now) || id in got)
  }

  /** The limit is reached, or no entry that is any good is missing. */
  ghost predicate Exhaustive(s: State, limit: nat, now: int, got: seq<int>) {
    |got| == limit || forall id :: id in s.mapInfo && !IsTerrible(s.mapInfo[id], now) ==> id in got
  }

  lemma AllLookedAt(e: Env, s: State, limit: nat, now: int, got: seq<int>)
    requires Consistent(e, s) && LookedAt(s, |s.vRandom|, now, got)
    ensures Exhaustive(s, limit, now, got)
  {
    hide IsTerrible, Indexed, NewTable, TriedTable, Entries, Counted, Pending;
    forall id | id in s.mapInfo && !IsTerrible(s.mapInfo[id], now) ensures id in got {
      assert Dealt(s, now, got, s.vRandom[s.mapInfo[id].nRandomPos]);
    }
  }

  lemma LookedAtNext(s: State, n: nat, now: int, got: seq<int>)
    requires LookedAt(s, n, now, got) && n < |s.vRandom| && s.vRandom[n] in s.mapInfo
    ensures var id := s.vRandom[n];
            LookedAt(s, n + 1, now, if IsTerrible(s.mapInfo[id], now) then got else got + [id])
  {
    hide IsTerrible;
    var id := s.vRandom[n];
    var more := if IsTerrible(s.mapInfo[id], now) then got else got + [id];
    forall i | 0 <= i < n + 1 ensures Dealt(s, now, more, s.vRandom[i]) {
      if i < n { assert Dealt(s, now, got, s.vRandom[i]); }
    }
  }

  lemma LookedAtThroughSwap(s: State, n: nat, k: nat, now: int, got: seq<int>)
    requires LookedAt(s, n, now, got) && n <= k < |s.vRandom| && CanSwap(s, n, k)
    ensures LookedAt(SwapRandom(s, n, k), n, now, got)
  {
    SwapKeeps(s, n, k);
    var t := SwapRandom(s, n, k);
    assert t.vRandom[..n] == s.vRandom[..n];
    hide IsTerrible, SwapRandom;
    forall i | 0 <= i < n ensures Dealt(t, now, got, t.vRandom[i]) {
      var id := s.vRandom[i];
      assert t.vRandom[..n][i] == s.vRandom[..n][i];
      assert Dealt(s, now, got, id);
      TerribleAside(t.mapInfo[id], s.mapInfo[id], now);
    }
  }

  lemma SwapAhead(e: Env, s: State, n: nat, k: nat, limit: nat, now: int, got: seq<int>)
    requires Consistent(e, s) && Gathering(s, n, limit, now, got) && n <= k < |s.vRandom|
    ensures CanSwap(s, n, k) && Consistent(e, SwapRandom(s, n, k)) && Gathering(SwapRandom(s, n, k), n, limit, now, got)
    ensures |SwapRandom(s, n, k).vRandom| == |s.vRandom|
    ensures SwapRandom(s, n, k).mapInfo.Keys == s.mapInfo.Keys && SwapRandom(s, n, k).vRandom[n] in s.mapInfo
    ensures SwapRandom(s, n, k).vRandom[n] !in SwapRandom(s, n, k).vRandom[..n]
  {
    hide Core, Pending, LookedAt;
    Swapped(e, s, {}, n, k);
    SwapKeeps(s, n, k);
    LookedAtThroughSwap(s, n, k, now, got);
    var t := SwapRandom(s, n, k);
    assert t.vRandom[..n] == s.vRandom[..n];
    AllListed(e, s);
    NoRepeats(e, t, n);
    hide IsTerrible;
    forall i | 0 <= i < |got| ensures !IsTerrible(t.mapInfo[got[i]], now) {
      assert SameButPos(t.mapInfo[got[i]], s.mapInfo[got[i]]);
      TerribleAside(t.mapInfo[got[i]], s.mapInfo[got[i]], now);
    }
  }

  lemma TerribleAside(i: Info, j: Info, now: int)
    requires SameButPos(i, j)
    ensures IsTerrible(i, now) == IsTerrible(j, now)
  {}

  /** GetAddr_ keeps the tables and returns entries that are known, distinct and not terrible: as many as the limit
      allows, or all there are. */
  lemma {:induction false} Gathered(e: Env, s: State, n: nat, limit: nat, rnd: nat -> nat, now: int, got: seq<int>)
    requires Consistent(e, s) && Gathering(s, n, limit, now, got)
    ensures Listed(s)
    ensures var (t, ids) := Gather(s, n, limit, rnd, now, got);
            && Consistent(e, t) && t.mapInfo.Keys == s.mapInfo.Keys && Presentable(t, limit, now, ids)
            && Exhaustive(t, limit, now, ids)
    decreases |s.vRandom| - n
  {
    hide Core, Pending, IsTerrible, Draw, SwapRandom, LookedAt;
    if n >= |s.vRandom| { AllLookedAt(e, s, limit, now, got); }
    AllListed(e, s);
    if n < |s.vRandom| && |got| < limit {
      var k := Draw(rnd(n), n, |s.vRandom|);
      SwapAhead(e, s, n, k, limit, now, got);
      var t := SwapRandom(s, n, k);
      var id := t.vRandom[n];
      assert t.vRandom[..n + 1] == t.vRandom[..n] + [id];
      var more := if IsTerrible(t.mapInfo[id], now) then got else got + [id];
      LookedAtNext(t, n, now, got);
      assert Gathering(t, n + 1, limit, now, more);
      Gathered(e, t, n + 1, limit, rnd, now, more);
    }
  }

  lemma NoRepeats(e: Env, s: State, n: nat)
    requires Core(e, s, {}) && n < |s.vRandom|
    ensures s.vRandom[n] !in s.vRandom[..n]
  {}

  // ---- ResolveCollisions_

  lemma Settled(e: Env, s: State, id: int)
    requires Consistent(e, s)
    ensures Consistent(e, s.(collisions := s.collisions - {id}))
  {
    hide Indexed, Shuffled, NewTable, TriedTable, Entries, Counted;
  }

  lemma Resolved(e: Env, s: State, id: int, now: int)
    requires Consistent(e, s) && now > 0
    ensures CanResolve(e, s, id, now) && Consistent(e, Resolve(e, s, id, now))
  {
    hide Consistent, Good, CanGood, IsTerrible, Postpones;
    Settled(e, s, id);
    if Resolves(e, s, id, now) {
      GoodOnceMore(e, s, s.mapInfo[id].service, false, now);
      Settled(e, Good(e, s, s.mapInfo[id].service, false, now), id);
    }
  }

  /** ResolveCollisions_ on the collisions in todo, smallest id first. */
  ghost function ResolveAll(e: Env, s: State, todo: set<int>, now: int): (t: State)
    requires Consistent(e, s) && now > 0
    ensures Consistent(e, t)
    decreases |todo|
  {
    if todo == {} then s
    else
      var id := Least(todo);
      Resolved(e, s, id, now);
      ResolveAll(e, Resolve(e, s, id, now), todo - {id}, now)
  }

  /** A pending collision always names an occupied tried cell: the branch for a cell that has
      become free is dead code, and SelectTriedCollision_ never indexes mapInfo with -1. */
  lemma CollisionNamesAnEntry(e: Env, s: State, id: int)
    requires Consistent(e, s) && id in s.collisions && id in s.mapInfo
    ensures var c := e.TriedCell(s.nKey, s.mapInfo[id].service);
            c in s.vvTried && s.vvTried[c] in s.mapInfo && s.mapInfo[s.vvTried[c]].fInTried
  {}

  // ---- every run

  datatype Op =
    | OpAdd(addr: Address, source: NetAddr, penalty: int, now: int, draw: nat)
    | OpGood(service: Service, testBeforeEvict: bool, time: int)
    | OpAttempt(service: Service, countFailure: bool, time: int)
    | OpConnected(service: Service, seen: nat)
    | OpSetServices(service: Service, flags: Services)
    | OpGetAddr(rnd: nat -> nat, now: int)
    | OpResolveCollisions(now: int)
    | OpSelectTriedCollision(id: int)

  /** The clock readings are positive. */
  predicate Timely(op: Op) {
    match op
    case OpGood(_, _, time) => time > 0
    case OpAttempt(_, _, time) => time > 0
    case OpResolveCollisions(now) => now > 0
    case _ => true
  }

  ghost function Step(e: Env, s: State, op: Op): (t: State)
    requires Consistent(e, s) && Timely(op)
    ensures Consistent(e, t)
  {
    match op
    case OpAdd(addr, source, penalty, now, draw) =>
      Added(e, s, addr, source, penalty, now, draw);
      Add(e, s, addr, source, penalty, now, draw)
    case OpGood(a, test, time) =>
      GoodOnceMore(e, s, a, test, time);
      Good(e, s, a, test, time)
    case OpAttempt(a, count, time) =>
      Attempted(e, s, a, count, time);
      Attempt(s, a, count, time)
    case OpConnected(a, time) =>
      ConnectedWell(e, s, a, time);
      Connected(s, a, time)
    case OpSetServices(a, flags) =>
      ServicesSet(e, s, a, flags);
      SetServices(s, a, flags)
    case OpGetAddr(rnd, now) =>
      Gathered(e, s, 0, GetAddrLimit(|s.vRandom|), rnd, now, []);
      Gather(s, 0, GetAddrLimit(|s.vRandom|), rnd, now, []).0
    case OpResolveCollisions(now) => ResolveAll(e, s, s.collisions, now)
    case OpSelectTriedCollision(id) =>
      SelectedWell(e, s, id);
      Selected(s, id)
  }

  lemma Attempted(e: Env, s: State, a: Service, count: bool, time: int)
    requires Consistent(e, s) && time > 0
    ensures Consistent(e, Attempt(s, a, count, time))
  {
    hide Core, Pending;
    if Exact(s, a) {
      Restated(e, s, a, Attempt(s, a, count, time).mapInfo[s.mapAddr[a.net]]);
    }
  }

  lemma ConnectedWell(e: Env, s: State, a: Service, time: nat)
    requires Consistent(e, s)
    ensures Consistent(e, Connected(s, a, time))
  {
    hide Core, Pending;
    if Exact(s, a) {
      EntryOf(e, s, s.mapAddr[a.net]);
      Restated(e, s, a, s.mapInfo[s.mapAddr[a.net]].(nTime := time));
    }
  }

  lemma ServicesSet(e: Env, s: State, a: Service, flags: Services)
    requires Consistent(e, s)
    ensures Consistent(e, SetServices(s, a, flags))
  {
    hide Core, Pending;
    if Exact(s, a) {
      EntryOf(e, s, s.mapAddr[a.net]);
      Restated(e, s, a, s.mapInfo[s.mapAddr[a.net]].(nServices := flags));
    }
  }

  lemma SelectedWell(e: Env, s: State, id: int)
    requires Consistent(e, s)
    ensures Consistent(e, Selected(s, id))
  {
    hide Indexed, Shuffled, NewTable, TriedTable, Entries, Counted;
  }

  ghost function Run(e: Env, s: State, ops: seq<Op>): (t: State)
    requires Consistent(e, s) && forall i :: 0 <= i < |ops| ==> Timely(ops[i])
    ensures Consistent(e, t)
    decreases |ops|
  {
    if ops == [] then s else Run(e, Step(e, s, ops[0]), ops[1..])
  }

  lemma ClearedIsConsistent(e: Env, key: nat)
    ensures Consistent(e, Cleared(key))
  {
    assert Untried(map[]) == {} && Tried(map[]) == {};
  }

  /** The address manager is consistent after every run that starts with a cleared one. */
  lemma EveryRunIsConsistent(e: Env, key: nat, ops: seq<Op>)
    requires forall i :: 0 <= i < |ops| ==> Timely(ops[i])
    ensures Consistent(e, Cleared(key)) && Consistent(e, Run(e, Cleared(key), ops))
  {
    ClearedIsConsistent(e, key);
  }
}
