/** The address manager as the object it is: tables, indexes and counters updated in place.
    Every method performs the transition of the same name in AddrManModel. */
module AddrMan {
  import opened Powers
  import M = AddrManModel
  import I = AddrManInvariant
  import F = AddrManEffects
  import opened Order

  ghost function Grid(n: nat, m: nat): set<M.Cell> {
    set b: nat, p: nat | b < n && p < m :: M.Cell(b, p)
  }

  ghost function Cells(a: array2<int>): M.Table
    reads a
  {
    map c | c in Grid(a.Length0, a.Length1) && a[c.bucket, c.pos] != -1 :: a[c.bucket, c.pos]
  }

  /** What a write of v at cell c does to the table. */
  ghost function Written(t: M.Table, c: M.Cell, v: int): M.Table {
    if v == -1 then t - {c} else t[c := v]
  }

  /** An assignment to one cell of a bucket table. */
  method Put(a: array2<int>, b: nat, p: nat, v: int)
    requires b < a.Length0 && p < a.Length1
    modifies a
    ensures forall i, j :: 0 <= i < a.Length0 && 0 <= j < a.Length1 && !(i == b && j == p) ==> a[i, j] == old(a[i, j])
    ensures a[b, p] == v && Cells(a) == Written(old(Cells(a)), M.Cell(b, p), v)
  {
    assert M.Cell(b, p) in Grid(a.Length0, a.Length1);
    a[b, p] := v;
    assert Cells(a) == Written(old(Cells(a)), M.Cell(b, p), v);
  }

  lemma CellAt(a: array2<int>, b: nat, p: nat)
    requires b < a.Length0 && p < a.Length1
    ensures var c := M.Cell(b, p); (c in Cells(a) <==> a[b, p] != -1) && (c in Cells(a) ==> Cells(a)[c] == a[b, p])
  {
    assert M.Cell(b, p) in Grid(a.Length0, a.Length1);
  }

  /** The cells of id in the buckets below b. */
  ghost function RefsBelow(t: M.Table, id: int, b: nat): set<M.Cell> {
    set c | c in M.Refs(t, id) && c.bucket < b
  }

  lemma RefsBelowEnds(e: M.Env, s: M.State, id: int)
    requires I.Core(e, s, {}) && id in s.mapInfo
    ensures s.mapInfo[id].nRefCount == |M.Refs(s.vvNew, id)| && id != -1
    ensures RefsBelow(s.vvNew, id, 0) == {} && RefsBelow(s.vvNew, id, M.NEW_BUCKET_COUNT) == M.Refs(s.vvNew, id)
  {
    hide I.Shuffled, I.TriedTable, I.Entries, I.Counted;
  }

  lemma RefsBelowNext(e: M.Env, s: M.State, id: int, b: nat)
    requires I.Core(e, s, {}) && id in s.mapInfo && b < M.NEW_BUCKET_COUNT
    ensures var c := e.CellIn(s.nKey, s.mapInfo[id].service, b);
            && c !in RefsBelow(s.vvNew, id, b) && (c in s.vvNew && s.vvNew[c] == id <==> c in M.Refs(s.vvNew, id))
            && RefsBelow(s.vvNew, id, b + 1) == RefsBelow(s.vvNew, id, b) + if c in M.Refs(s.vvNew, id) then {c} else {}
  {
    hide I.Indexed, I.Shuffled, I.TriedTable, I.Entries, I.Counted;
    var c := e.CellIn(s.nKey, s.mapInfo[id].service, b);
    forall x | x in M.Refs(s.vvNew, id) && x.bucket == b ensures x == c {}
  }

  /** s once id has left the new buckets below b. */
  ghost function LeftBelow(s: M.State, id: int, b: nat): M.State
    requires id in s.mapInfo
  {
    var gone := RefsBelow(s.vvNew, id, b);
    s.(vvNew := s.vvNew - gone,
       mapInfo := s.mapInfo[id := s.mapInfo[id].(nRefCount := |M.Refs(s.vvNew, id)| - |gone|)])
  }

  lemma LeftNoneAndAll(e: M.Env, s: M.State, id: int)
    requires I.Core(e, s, {}) && id in s.mapInfo
    ensures id != -1 && LeftBelow(s, id, 0) == s && LeftBelow(s, id, M.NEW_BUCKET_COUNT) == M.DropRefs(s, id)
  {
    hide I.Core, M.Refs, RefsBelow;
    RefsBelowEnds(e, s, id);
  }

  lemma LeftKeeps(s: M.State, id: int, b: nat)
    requires id in s.mapInfo
    ensures var t := LeftBelow(s, id, b);
            id in t.mapInfo && t.mapInfo[id].service == s.mapInfo[id].service && t.nKey == s.nKey
  {}

  lemma LeftOneMore(e: M.Env, s: M.State, id: int, b: nat)
    requires I.Core(e, s, {}) && id in s.mapInfo && b < M.NEW_BUCKET_COUNT
    ensures var c := e.CellIn(s.nKey, s.mapInfo[id].service, b);
            var t := LeftBelow(s, id, b);
            LeftBelow(s, id, b + 1) == if c in t.vvNew && t.vvNew[c] == id then M.Unref(t, c) else t
  {
    hide I.Core, M.Refs, RefsBelow, M.Env.CellIn;
    RefsBelowNext(e, s, id, b);
    var c := e.CellIn(s.nKey, s.mapInfo[id].service, b);
    var xs := RefsBelow(s.vvNew, id, b);
    assert s.vvNew - xs - {c} == s.vvNew - (xs + {c});
  }

  /** A change of nNew passes through ClearNew unseen. */
  lemma NewCountAside(s: M.State, c: M.Cell, k: int)
    requires M.CanClear(s, c)
    ensures var s' := s.(nNew := s.nNew + k);
            M.CanClear(s', c) && M.ClearNew(s', c) == M.ClearNew(s, c).(nNew := M.ClearNew(s, c).nNew + k)
  {}

  lemma NewCellFits(e: M.Env, key: nat, a: M.Service, source: M.NetAddr)
    ensures var n := e.NewCell(key, a, source); n.bucket < M.NEW_BUCKET_COUNT && n.pos < M.BUCKET_SIZE
  {}

  ghost predicate RoomFor(e: M.Env, s: M.State, c: M.Cell)
    requires c in s.vvTried && s.vvTried[c] in s.mapInfo
  {
    var holder := s.vvTried[c];
    var n := e.NewCell(s.nKey, s.mapInfo[holder].service, s.mapInfo[holder].source);
    var u := M.Evict(s, c);
    && holder != -1 && M.CanClear(u, n) && n !in M.ClearNew(u, n).vvNew
    && holder in M.ClearNew(u, n).mapInfo && M.ClearNew(u, n).mapInfo[holder].nRefCount == 0
  }

  /** s once the holder of tried cell c has been evicted and has its primary new cell. */
  ghost function Rehomed(e: M.Env, s: M.State, c: M.Cell): M.State
    requires c in s.vvTried && s.vvTried[c] in s.mapInfo && RoomFor(e, s, c)
  {
    var holder := s.vvTried[c];
    var n := e.NewCell(s.nKey, s.mapInfo[holder].service, s.mapInfo[holder].source);
    M.Enter(M.ClearNew(M.Evict(s, c), n), holder, n)
  }

  lemma TriedCellFits(e: M.Env, key: nat, a: M.Service)
    ensures e.TriedCell(key, a).bucket < M.TRIED_BUCKET_COUNT && e.TriedCell(key, a).pos < M.BUCKET_SIZE
  {}

  /** MakeTried in the order the object performs it: nNew drops first. */
  lemma MadeTriedSteps(e: M.Env, s: M.State, id: int)
    requires I.Core(e, s, {}) && id in s.mapInfo && !s.mapInfo[id].fInTried && M.CanMakeTried(e, s, id)
    ensures id != -1
    ensures var c := e.TriedCell(s.nKey, s.mapInfo[id].service);
            var d := M.DropRefs(s, id);
            var t := d.(nNew := s.nNew - 1);
            && (c !in s.vvTried ==>
                 M.MakeTried(e, s, id) == t.(mapInfo := t.mapInfo[id := t.mapInfo[id].(fInTried := true)],
                                             vvTried := t.vvTried[c := id], nTried := t.nTried + 1))
            && (c in s.vvTried ==>
                 && s.vvTried[c] in t.mapInfo && RoomFor(e, t, c)
                 && var u := Rehomed(e, t, c);
                    && id in u.mapInfo
                    && M.MakeTried(e, s, id) == u.(mapInfo := u.mapInfo[id := u.mapInfo[id].(fInTried := true)],
                                                vvTried := u.vvTried[c := id], nTried := u.nTried + 1))
  {
    hide I.Core, M.CanClear, M.ClearNew, M.Env.NewCell, M.Env.TriedCell, M.Refs;
    RefsBelowEnds(e, s, id);
    var c := e.TriedCell(s.nKey, s.mapInfo[id].service);
    if c in s.vvTried {
      I.EvictionOnTheWay(e, s, id);
      RefsBelowEnds(e, s, s.vvTried[c]);
      var u := M.Evict(M.DropRefs(s, id), c);
      var n := e.NewCell(s.nKey, s.mapInfo[s.vvTried[c]].service, s.mapInfo[s.vvTried[c]].source);
      NewCountAside(u, n, -1);
      assert M.Evict(M.DropRefs(s, id).(nNew := s.nNew - 1), c) == u.(nNew := u.nNew - 1);
    }
  }

  lemma NotMinusOne(e: M.Env, s: M.State, id: int)
    requires I.Core(e, s, {}) && id in s.mapInfo
    ensures id != -1
  {}

  lemma BucketAside(e: M.Env, s: M.State, t: M.State, id: int)
    requires id in s.mapInfo && id in t.mapInfo && s.nKey == t.nKey && s.vvNew == t.vvNew
    requires s.mapInfo[id].service == t.mapInfo[id].service
    ensures M.InSomeBucket(e, s, id) == M.InSomeBucket(e, t, id)
  {
    forall b: nat ensures M.HoldsIn(e, s, id, b) == M.HoldsIn(e, t, id, b) {}
  }

  /** Before filing, every cell names an entry and id is a proper one. */
  lemma FilingIsOwn(e: M.Env, s: M.State, id: int, z: set<int>, c: M.Cell)
    requires I.Core(e, s, z) && id in s.mapInfo
    ensures id != -1 && (c in s.vvNew ==> s.vvNew[c] in s.mapInfo)
  {
    hide I.Shuffled, I.TriedTable, I.Counted, I.Entries;
  }

  function AddressOf(i: M.Info): M.Address {
    M.Address(i.service, i.nTime, i.nServices)
  }

  /** a is the address of an entry worth passing on. */
  ghost predicate Offers(s: M.State, a: M.Address, now: int) {
    exists id :: OfferedBy(s, a, now, id)
  }

  ghost predicate OfferedBy(s: M.State, a: M.Address, now: int, id: int) {
    id in s.mapInfo && a == AddressOf(s.mapInfo[id]) && !M.IsTerrible(s.mapInfo[id], now)
  }

  lemma OffersAreDistinct(e: M.Env, s: M.State, limit: nat, now: int, ids: seq<int>, addrs: seq<M.Address>)
    requires I.Consistent(e, s) && I.Presentable(s, limit, now, ids) && |ids| == |addrs|
    requires forall i :: 0 <= i < |ids| ==> addrs[i] == AddressOf(s.mapInfo[ids[i]])
    ensures forall i :: 0 <= i < |addrs| ==> Offers(s, addrs[i], now)
    ensures forall i, j :: 0 <= i < j < |addrs| ==> addrs[i].service.net != addrs[j].service.net
  {
    hide I.Shuffled, I.NewTable, I.TriedTable, I.Counted, I.Entries, I.Pending, M.IsTerrible;
    forall i | 0 <= i < |addrs| ensures Offers(s, addrs[i], now) {
      assert OfferedBy(s, addrs[i], now, ids[i]);
    }
    forall i, j | 0 <= i < j < |addrs| ensures addrs[i].service.net != addrs[j].service.net {
      assert ids[i] != ids[j];
      assert s.mapAddr[s.mapInfo[ids[i]].service.net] == ids[i];
      assert s.mapAddr[s.mapInfo[ids[j]].service.net] == ids[j];
    }
  }

  /** Where GetAddr_ stands after n steps from s: ids are the entries behind the addresses gathered. */
  ghost predicate Offering(e: M.Env, s: M.State, t: M.State, n: nat, rnd: nat -> nat, now: int,
                           ids: seq<int>, addrs: seq<M.Address>)
  {
    var limit := M.GetAddrLimit(|s.vRandom|);
    && I.Consistent(e, t) && M.Listed(t) && M.Listed(s) && |t.vRandom| == |s.vRandom|
    && I.Gathering(t, n, limit, now, ids)
    && M.Gather(t, n, limit, rnd, now, ids) == M.Gather(s, 0, limit, rnd, now, [])
    && |ids| == |addrs| && forall i :: 0 <= i < |ids| ==> addrs[i] == AddressOf(t.mapInfo[ids[i]])
  }

  lemma OfferingBegins(e: M.Env, s: M.State, rnd: nat -> nat, now: int)
    requires I.Consistent(e, s)
    ensures M.Listed(s) && Offering(e, s, s, 0, rnd, now, [], [])
  {
    hide I.Pending;
    I.AllListed(e, s);
    hide I.Core;
  }

  lemma SwapKeepsAddress(s: M.State, i: int, j: int, id: int)
    requires M.CanSwap(s, i, j) && id in s.mapInfo
    ensures id in M.SwapRandom(s, i, j).mapInfo &&
              AddressOf(M.SwapRandom(s, i, j).mapInfo[id]) == AddressOf(s.mapInfo[id])
  {}

  lemma OfferingNext(e: M.Env, s: M.State, t: M.State, n: nat, rnd: nat -> nat, now: int,
                     ids: seq<int>, addrs: seq<M.Address>)
    requires Offering(e, s, t, n, rnd, now, ids, addrs) && n < |t.vRandom| && |ids| < M.GetAddrLimit(|s.vRandom|)
    ensures var k := M.Draw(rnd(n), n, |t.vRandom|);
            && M.CanSwap(t, n, k)
            && var u := M.SwapRandom(t, n, k);
               && |u.vRandom| == |t.vRandom| && u.vRandom[n] in u.mapInfo
               && var i := u.mapInfo[u.vRandom[n]];
                  if M.IsTerrible(i, now) then Offering(e, s, u, n + 1, rnd, now, ids, addrs)
                  else Offering(e, s, u, n + 1, rnd, now, ids + [u.vRandom[n]], addrs + [AddressOf(i)])
  {
    hide I.Core, I.Pending, M.IsTerrible, M.Draw, M.SwapRandom, I.LookedAt;
    var limit := M.GetAddrLimit(|s.vRandom|);
    var k := M.Draw(rnd(n), n, |t.vRandom|);
    I.SwapAhead(e, t, n, k, limit, now, ids);
    I.SwapKeeps(t, n, k);
    var u := M.SwapRandom(t, n, k);
    I.AllListed(e, u);
    assert u.vRandom[..n + 1] == u.vRandom[..n] + [u.vRandom[n]];
    I.LookedAtNext(u, n, now, ids);
    forall i | 0 <= i < |ids| ensures addrs[i] == AddressOf(u.mapInfo[ids[i]]) {
      assert ids[i] in t.mapInfo;
      SwapKeepsAddress(t, n, k, ids[i]);
    }
  }

  lemma OfferingEnds(e: M.Env, s: M.State, t: M.State, n: nat, rnd: nat -> nat, now: int,
                     ids: seq<int>, addrs: seq<M.Address>)
    requires Offering(e, s, t, n, rnd, now, ids, addrs)
    requires n >= |t.vRandom| || |ids| >= M.GetAddrLimit(|s.vRandom|)
    ensures I.Consistent(e, t) && M.Listed(s) && (t, ids) == M.Gather(s, 0, M.GetAddrLimit(|s.vRandom|), rnd, now, [])
    ensures |addrs| <= M.GetAddrLimit(|s.vRandom|) && Addressed(t, ids, addrs)
    ensures I.Exhaustive(t, M.GetAddrLimit(|s.vRandom|), now, ids)
    ensures forall i :: 0 <= i < |addrs| ==> Offers(t, addrs[i], now)
    ensures forall i, j :: 0 <= i < j < |addrs| ==> addrs[i].service.net != addrs[j].service.net
  {
    hide I.Core, I.Pending, M.IsTerrible, M.Draw, M.SwapRandom;
    OffersAreDistinct(e, t, M.GetAddrLimit(|s.vRandom|), now, ids, addrs);
    if n >= |t.vRandom| { I.AllLookedAt(e, t, M.GetAddrLimit(|s.vRandom|), now, ids); }
  }

  /** addrs are the addresses of the entries ids. */
  ghost predicate Addressed(s: M.State, ids: seq<int>, addrs: seq<M.Address>) {
    |addrs| == |ids| && forall i :: 0 <= i < |ids| ==> ids[i] in s.mapInfo && addrs[i] == AddressOf(s.mapInfo[ids[i]])
  }

  lemma TriedHolderKnown(e: M.Env, s: M.State, c: M.Cell)
    requires I.Core(e, s, {}) && c in s.vvTried
    ensures s.vvTried[c] in s.mapInfo
  {}

  /** The first n buckets from a random one on do not hold the entry. */
  ghost predicate NotAmong(e: M.Env, s: M.State, id: int, nRnd: nat, n: nat)
    requires id in s.mapInfo
  {
    forall b: nat :: b < M.NEW_BUCKET_COUNT && (b - nRnd) % M.NEW_BUCKET_COUNT < n ==> !M.HoldsIn(e, s, id, b)
  }

  lemma NotAmongNone(e: M.Env, s: M.State, id: int, nRnd: nat)
    requires id in s.mapInfo
    ensures NotAmong(e, s, id, nRnd, 0)
  {}

  lemma Rotation(b: nat, nRnd: nat, n: nat)
    requires b < M.NEW_BUCKET_COUNT && n < M.NEW_BUCKET_COUNT && (b - nRnd) % M.NEW_BUCKET_COUNT == n
    ensures b == (n + nRnd) % M.NEW_BUCKET_COUNT
  {}

  lemma NotAmongNext(e: M.Env, s: M.State, id: int, nRnd: nat, n: nat)
    requires id in s.mapInfo && n < M.NEW_BUCKET_COUNT && NotAmong(e, s, id, nRnd, n)
    requires !M.HoldsIn(e, s, id, (n + nRnd) % M.NEW_BUCKET_COUNT)
    ensures NotAmong(e, s, id, nRnd, n + 1)
  {
    hide M.HoldsIn;
    forall b: nat | b < M.NEW_BUCKET_COUNT && (b - nRnd) % M.NEW_BUCKET_COUNT == n
      ensures !M.HoldsIn(e, s, id, b)
    {
      Rotation(b, nRnd, n);
    }
  }

  lemma NotAmongAll(e: M.Env, s: M.State, id: int, nRnd: nat)
    requires id in s.mapInfo && NotAmong(e, s, id, nRnd, M.NEW_BUCKET_COUNT)
    ensures !M.InSomeBucket(e, s, id)
  {
    hide M.HoldsIn;
  }

  lemma CellInFits(e: M.Env, key: nat, a: M.Service, b: nat)
    ensures e.CellIn(key, a, b).bucket == b && e.CellIn(key, a, b).pos < M.BUCKET_SIZE
  {}

  class AddrMan {
    const e: M.Env
    var nKey: nat
    var nIdCount: int
    var mapInfo: map<int, M.Info>
    var mapAddr: map<M.NetAddr, int>
    var vRandom: seq<int>
    var nTried: int
    const vvTried: array2<int>
    var nNew: int
    const vvNew: array2<int>
    var nLastGood: int
    var m_tried_collisions: set<int>

    ghost predicate Shaped() {
      && vvTried.Length0 == M.TRIED_BUCKET_COUNT && vvTried.Length1 == M.BUCKET_SIZE
      && vvNew.Length0 == M.NEW_BUCKET_COUNT && vvNew.Length1 == M.BUCKET_SIZE
      && vvTried != vvNew
    }

    ghost function State(): M.State
      reads this, vvTried, vvNew
    {
      M.State(nKey, nIdCount, mapInfo, mapAddr, vRandom, nTried, Cells(vvTried), nNew, Cells(vvNew),
              nLastGood, m_tried_collisions)
    }

    ghost predicate Valid()
      reads this, vvTried, vvNew
    {
      Shaped() && I.Consistent(e, State())
    }

    /** Clear() as the constructor runs it; key stands for GetRandHash(). */
    constructor (env: M.Env, key: nat)
      ensures Valid() && fresh(vvTried) && fresh(vvNew) && e == env
      ensures State() == M.Cleared(key)
    {
      e := env;
      nKey, nIdCount, nTried, nNew, nLastGood := key, 0, 0, 0, 1;
      mapInfo, mapAddr, vRandom, m_tried_collisions := map[], map[], [], {};
      vvTried := new int[M.TRIED_BUCKET_COUNT, M.BUCKET_SIZE]((_, _) => -1);
      vvNew := new int[M.NEW_BUCKET_COUNT, M.BUCKET_SIZE]((_, _) => -1);
      new;
      assert Cells(vvTried) == map[] && Cells(vvNew) == map[];
      I.ClearedIsConsistent(env, key);
    }

    method SwapRandom(nRndPos1: nat, nRndPos2: nat)
      requires M.CanSwap(State(), nRndPos1, nRndPos2)
      modifies this`mapInfo, this`vRandom
      ensures State() == M.SwapRandom(old(State()), nRndPos1, nRndPos2)
    {
      if nRndPos1 == nRndPos2 {
        return;
      }
      assert nRndPos1 < |vRandom| && nRndPos2 < |vRandom|;
      var nId1 := vRandom[nRndPos1];
      var nId2 := vRandom[nRndPos2];
      assert nId1 in mapInfo;
      assert nId2 in mapInfo;
      mapInfo := mapInfo[nId1 := mapInfo[nId1].(nRandomPos := nRndPos2)];
      mapInfo := mapInfo[nId2 := mapInfo[nId2].(nRandomPos := nRndPos1)];
      vRandom := vRandom[nRndPos1 := nId2];
      vRandom := vRandom[nRndPos2 := nId1];
    }

    method Delete(nId: int)
      requires M.CanDelete(State(), nId)
      modifies this`mapInfo, this`mapAddr, this`vRandom, this`nNew
      ensures State() == M.Delete(old(State()), nId)
    {
      assert nId in mapInfo;
      var info := mapInfo[nId];
      assert !info.fInTried;
      assert info.nRefCount == 0;
      SwapRandom(info.nRandomPos, |vRandom| - 1);
      vRandom := vRandom[..|vRandom| - 1];
      mapAddr := mapAddr - {info.service.net};
      mapInfo := mapInfo - {nId};
      nNew := nNew - 1;
    }

    method ClearNew(nUBucket: nat, nUBucketPos: nat)
      requires Shaped() && nUBucket < vvNew.Length0 && nUBucketPos < vvNew.Length1
      requires M.CanClear(State(), M.Cell(nUBucket, nUBucketPos))
      modifies this`mapInfo, this`mapAddr, this`vRandom, this`nNew, vvNew
      ensures State() == M.ClearNew(old(State()), M.Cell(nUBucket, nUBucketPos))
    {
      CellAt(vvNew, nUBucket, nUBucketPos);
      if vvNew[nUBucket, nUBucketPos] != -1 {
        var nIdDelete := vvNew[nUBucket, nUBucketPos];
        var infoDelete := mapInfo[nIdDelete];
        assert infoDelete.nRefCount > 0;
        mapInfo := mapInfo[nIdDelete := infoDelete.(nRefCount := infoDelete.nRefCount - 1)];
        Put(vvNew, nUBucket, nUBucketPos, -1);
        if mapInfo[nIdDelete].nRefCount == 0 {
          Delete(nIdDelete);
        }
      }
    }
  
    /** One round of the first loop of MakeTried. */
    method LeaveBucket(nId: int, bucket: nat)
      requires Shaped() && nId in mapInfo && nId != -1 && bucket < M.NEW_BUCKET_COUNT
      modifies this`mapInfo, vvNew
      ensures var s, c := old(State()), e.CellIn(nKey, old(mapInfo[nId]).service, bucket);
              State() == if c in s.vvNew && s.vvNew[c] == nId then M.Unref(s, c) else s
    {
      var pos := e.CellIn(nKey, mapInfo[nId].service, bucket).pos;
      CellAt(vvNew, bucket, pos);
      hide Cells;
      if vvNew[bucket, pos] == nId {
        Put(vvNew, bucket, pos, -1);
        mapInfo := mapInfo[nId := mapInfo[nId].(nRefCount := mapInfo[nId].nRefCount - 1)];
      }
    }

    /** The first loop of MakeTried: nId leaves every new bucket, and its count drops to zero. */
    method LeaveNewBuckets(nId: int)
      requires Shaped() && I.Core(e, State(), {}) && nId in mapInfo
      modifies this`mapInfo, vvNew
      ensures State() == M.DropRefs(old(State()), nId)
    {
      hide I.Core, Cells, LeftBelow, M.DropRefs, M.Unref, M.Env.CellIn;
      ghost var s := State();
      LeftNoneAndAll(e, s, nId);
      for bucket := 0 to M.NEW_BUCKET_COUNT
        invariant nId in mapInfo && State() == LeftBelow(s, nId, bucket)
      {
        LeftKeeps(s, nId, bucket);
        LeaveBucket(nId, bucket);
        LeftOneMore(e, s, nId, bucket);
        LeftKeeps(s, nId, bucket + 1);
      }
    }
  
    /** The tried cell c is taken: its holder moves back to the new table, over whoever is there. */
    method MakeRoom(c: M.Cell)
      requires Shaped() && c.bucket < M.TRIED_BUCKET_COUNT && c.pos < M.BUCKET_SIZE
      requires c in State().vvTried && State().vvTried[c] in mapInfo
      requires RoomFor(e, State(), c)
      modifies this`mapInfo, this`mapAddr, this`vRandom, this`nNew, this`nTried, vvNew, vvTried
      ensures State() == Rehomed(e, old(State()), c) && vvTried[c.bucket, c.pos] == -1
    {
      hide M.CanClear, M.ClearNew, Cells, M.Env.NewCell;
      ghost var s := State();
      CellAt(vvTried, c.bucket, c.pos);
      var nIdEvict := vvTried[c.bucket, c.pos];
      assert nIdEvict in mapInfo;
      var n := e.NewCell(nKey, mapInfo[nIdEvict].service, mapInfo[nIdEvict].source);
      NewCellFits(e, nKey, mapInfo[nIdEvict].service, mapInfo[nIdEvict].source);
      NewCountAside(M.Evict(s, c), n, -1);

      mapInfo := mapInfo[nIdEvict := mapInfo[nIdEvict].(fInTried := false)];
      Put(vvTried, c.bucket, c.pos, -1);
      nTried := nTried - 1;
      assert State() == M.Evict(s, c).(nNew := s.nNew);

      ClearNew(n.bucket, n.pos);
      CellAt(vvNew, n.bucket, n.pos);
      assert vvNew[n.bucket, n.pos] == -1;

      mapInfo := mapInfo[nIdEvict := mapInfo[nIdEvict].(nRefCount := 1)];
      Put(vvNew, n.bucket, n.pos, nIdEvict);
      nNew := nNew + 1;
    }
  
    method MakeTried(nId: int)
      requires Shaped() && I.Core(e, State(), {})
      requires nId in mapInfo && !mapInfo[nId].fInTried && mapInfo[nId].nLastSuccess != 0
      modifies this`mapInfo, this`mapAddr, this`vRandom, this`nNew, this`nTried, vvNew, vvTried
      ensures M.CanMakeTried(e, old(State()), nId) && State() == M.MakeTried(e, old(State()), nId)
    {
      hide I.Core, M.CanClear, M.ClearNew, Cells, M.Env.NewCell, M.Env.TriedCell, M.Refs, I.Evolves, I.SameButPos;
      ghost var s := State();
      I.MadeTried(e, s, nId);
      MadeTriedSteps(e, s, nId);
      LeaveNewBuckets(nId);
      nNew := nNew - 1;
      assert mapInfo[nId].nRefCount == 0;

      var c := e.TriedCell(nKey, mapInfo[nId].service);
      TriedCellFits(e, nKey, mapInfo[nId].service);
      CellAt(vvTried, c.bucket, c.pos);
      ghost var t := State();
      if vvTried[c.bucket, c.pos] != -1 {
        MakeRoom(c);
      }
      assert vvTried[c.bucket, c.pos] == -1;

      Put(vvTried, c.bucket, c.pos, nId);
      nTried := nTried + 1;
      mapInfo := mapInfo[nId := mapInfo[nId].(fInTried := true)];
    }
  
    method Find(addr: M.NetAddr) returns (found: bool, nId: int)
      ensures found <==> M.Known(State(), addr)
      ensures found ==> nId == mapAddr[addr]
    {
      found, nId := false, 0;
      if addr in mapAddr {
        nId := mapAddr[addr];
        found := nId in mapInfo;
      }
    }

    /** The search of Good_ for a bucket nId is in, starting at a random one. */
    method FindBucket(nId: int, nRnd: nat) returns (nUBucket: int)
      requires Shaped() && nId in mapInfo && nId != -1
      ensures nUBucket == -1 <==> !M.InSomeBucket(e, State(), nId)
    {
      hide Cells, NotAmong, M.Env.CellIn;
      nUBucket := -1;
      NotAmongNone(e, State(), nId, nRnd);
      for n := 0 to M.NEW_BUCKET_COUNT
        invariant nUBucket == -1 && NotAmong(e, State(), nId, nRnd, n)
      {
        var nB := (n + nRnd) % M.NEW_BUCKET_COUNT;
        var c := e.CellIn(nKey, mapInfo[nId].service, nB);
        CellInFits(e, nKey, mapInfo[nId].service, nB);
        CellAt(vvNew, nB, c.pos);
        if vvNew[nB, c.pos] == nId {
          nUBucket := nB;
          assert M.HoldsIn(e, State(), nId, nB);
          return;
        }
        NotAmongNext(e, State(), nId, nRnd, n);
      }
      NotAmongAll(e, State(), nId, nRnd);
    }

    method Good(addr: M.Service, test_before_evict: bool, nTime: int, nRnd: nat)
      requires Valid() && nTime > 0
      modifies this, vvNew, vvTried
      ensures Valid() && M.CanGood(e, old(State()), addr, test_before_evict, nTime)
      ensures State() == M.Good(e, old(State()), addr, test_before_evict, nTime)
      ensures F.GoodEffect(e, old(State()), State(), addr, test_before_evict, nTime)
    {
      hide F.GoodEffect, I.Core, I.Pending, Cells, M.Env.TriedCell, M.CanMakeTried, M.MakeTried, M.InSomeBucket;
      ghost var s := State();
      I.GoodOnceMore(e, s, addr, test_before_evict, nTime);
      F.GoodTakesEffect(e, s, addr, test_before_evict, nTime);
      I.NotedWell(e, s, addr, nTime);
      nLastGood := nTime;
      var found, nId := Find(addr.net);
      if !found {
        return;
      }
      if mapInfo[nId].service != addr {
        return;
      }
      mapInfo := mapInfo[nId := mapInfo[nId].(nLastSuccess := nTime, nLastTry := nTime, nAttempts := 0)];
      assert State() == M.Noted(s, addr, nTime);
      if mapInfo[nId].fInTried {
        return;
      }
      NotMinusOne(e, s, nId);
      var nUBucket := FindBucket(nId, nRnd);
      BucketAside(e, s, State(), nId);
      if nUBucket == -1 {
        return;
      }
      var c := e.TriedCell(nKey, addr);
      TriedCellFits(e, nKey, addr);
      CellAt(vvTried, c.bucket, c.pos);
      if test_before_evict && vvTried[c.bucket, c.pos] != -1 {
        if |m_tried_collisions| < M.SET_TRIED_COLLISION_SIZE {
          m_tried_collisions := m_tried_collisions + {nId};
        }
      } else {
        MakeTried(nId);
      }
    }
  
    /** The last part of Add_: nId contends for new cell c. */
    method File(nId: int, c: M.Cell, now: int)
      requires Shaped() && c.bucket < M.NEW_BUCKET_COUNT && c.pos < M.BUCKET_SIZE && nId != -1
      requires c in State().vvNew ==> State().vvNew[c] in mapInfo
      requires M.CanFile(State(), nId, c, now)
      modifies this`mapInfo, this`mapAddr, this`vRandom, this`nNew, vvNew
      ensures State() == M.File(old(State()), nId, c, now)
    {
      hide M.CanClear, M.ClearNew, M.CanDelete, M.Delete, M.IsTerrible, Cells;
      CellAt(vvNew, c.bucket, c.pos);
      if vvNew[c.bucket, c.pos] != nId {
        var fInsert := vvNew[c.bucket, c.pos] == -1;
        if !fInsert {
          var infoExisting := mapInfo[vvNew[c.bucket, c.pos]];
          if M.IsTerrible(infoExisting, now) || (infoExisting.nRefCount > 1 && mapInfo[nId].nRefCount == 0) {
            fInsert := true;
          }
        }
        if fInsert {
          ClearNew(c.bucket, c.pos);
          mapInfo := mapInfo[nId := mapInfo[nId].(nRefCount := mapInfo[nId].nRefCount + 1)];
          Put(vvNew, c.bucket, c.pos, nId);
        } else {
          if mapInfo[nId].nRefCount == 0 {
            Delete(nId);
          }
        }
      }
    }

    /** The stochastic test's 2^refcount, by repeated doubling. */
    method Factor(nRefCount: int) returns (nFactor: nat)
      ensures nFactor == Pow2(M.Max0(nRefCount))
    {
      nFactor := 1;
      var n := 0;
      while n < nRefCount
        invariant n == 0 || n <= nRefCount
        invariant n >= 0 && nFactor == Pow2(n)
      {
        nFactor := nFactor * 2;
        n := n + 1;
      }
    }

    method Create(addr: M.Address, addrSource: M.NetAddr) returns (nId: int)
      modifies this`nIdCount, this`mapInfo, this`mapAddr, this`vRandom
      ensures nId == old(nIdCount) && State() == M.Create(old(State()), addr, addrSource, addr.nTime)
    {
      nId := nIdCount;
      nIdCount := nIdCount + 1;
      mapInfo := mapInfo[nId := M.Info(addr.service, addr.nTime, addr.nServices, addrSource, 0, 0, 0, 0, 0, false, -1)];
      mapAddr := mapAddr[addr.service.net := nId];
      mapInfo := mapInfo[nId := mapInfo[nId].(nRandomPos := |vRandom|)];
      vRandom := vRandom + [nId];
    }

    /** The branch of Add_ for a known address; stop says it returns without looking for a bucket. */
    method Refresh(nId: int, addr: M.Address, nTimePenalty: int, now: int, draw: nat) returns (stop: bool)
      requires nId in mapInfo
      modifies this`mapInfo
      ensures State() == M.SetInfo(old(State()), nId, M.Refreshed(old(mapInfo[nId]), addr, nTimePenalty, now))
      ensures stop <==> M.Declines(M.Refreshed(old(mapInfo[nId]), addr, nTimePenalty, now), addr, draw)
    {
      hide Cells, Pow2;
      var fCurrentlyOnline := now - addr.nTime < 24 * 60 * 60;
      var nUpdateInterval := if fCurrentlyOnline then 60 * 60 else 24 * 60 * 60;
      var pinfo := mapInfo[nId];
      if addr.nTime != 0 && (pinfo.nTime == 0 || pinfo.nTime < addr.nTime - nUpdateInterval - nTimePenalty) {
        pinfo := pinfo.(nTime := M.Max0(addr.nTime - nTimePenalty));
      }
      pinfo := pinfo.(nServices := pinfo.nServices + addr.nServices);
      mapInfo := mapInfo[nId := pinfo];
      if addr.nTime == 0 || (pinfo.nTime != 0 && addr.nTime <= pinfo.nTime) {
        return true;
      }
      if pinfo.fInTried {
        return true;
      }
      if pinfo.nRefCount == M.NEW_BUCKETS_PER_ADDRESS {
        return true;
      }
      var nFactor := Factor(pinfo.nRefCount);
      stop := nFactor > 1 && draw != 0;
    }

    /** The entry of an address is brought up to date or made; stop says that no bucket is looked for. */
    method Record(addr: M.Address, source: M.NetAddr, penalty: int, now: int, draw: nat)
      returns (nId: int, fNew: bool, stop: bool)
      modifies this`nIdCount, this`mapInfo, this`mapAddr, this`vRandom, this`nNew
      ensures State() == M.Recorded(old(State()), addr, source, penalty, now) && nId == M.AddedId(old(State()), addr)
      ensures fNew <==> !M.Known(old(State()), addr.service.net)
      ensures stop <==>
                && !fNew
                && M.Declines(M.Refreshed(old(State()).mapInfo[nId], addr, M.Penalty(addr, source, penalty), now),
                              addr, draw)
    {
      hide Cells, M.Declines, M.Refreshed, M.Max0;
      fNew, stop := false, false;
      var found;
      found, nId := Find(addr.service.net);
      var nTimePenalty := penalty;
      if addr.service.net == source {
        nTimePenalty := 0;
      }
      if found {
        stop := Refresh(nId, addr, nTimePenalty, now, draw);
      } else {
        nId := Create(addr, source);
        mapInfo := mapInfo[nId := mapInfo[nId].(nTime := M.Max0(mapInfo[nId].nTime - nTimePenalty))];
        nNew := nNew + 1;
        fNew := true;
      }
    }

    /** now stands for GetAdjustedTime() and draw for RandomInt(nFactor). */
    method Add(addr: M.Address, source: M.NetAddr, penalty: int, now: int, draw: nat) returns (fNew: bool)
      requires Valid()
      modifies this, vvNew, vvTried
      ensures Valid() && M.CanAdd(e, old(State()), addr, source, penalty, now, draw)
      ensures State() == M.Add(e, old(State()), addr, source, penalty, now, draw)
      ensures F.AddEffect(e, old(State()), State(), addr, source, penalty, now, draw)
      ensures fNew <==> e.routable(addr.service.net) && addr.service.net !in old(mapAddr)
    {
      hide F.AddEffect, I.Core, I.Pending, Cells, M.CanFile, M.File, M.Env.NewCell, M.Declines, M.Refreshed, M.Max0,
           M.Recorded;
      ghost var s := State();
      I.Added(e, s, addr, source, penalty, now, draw);
      I.KnownIsListed(e, s, addr.service.net);
      F.AddTakesEffect(e, s, addr, source, penalty, now, draw);
      I.RecordedWell(e, s, addr, source, penalty, now);
      fNew := false;
      if !e.routable(addr.service.net) {
        return;
      }
      var nId, stop;
      nId, fNew, stop := Record(addr, source, penalty, now, draw);
      if stop {
        return;
      }
      var c := e.NewCell(nKey, mapInfo[nId].service, source);
      NewCellFits(e, nKey, mapInfo[nId].service, source);
      FilingIsOwn(e, State(), nId, if fNew then {s.nIdCount} else {}, c);
      File(nId, c, now);
    }

    method Attempt(addr: M.Service, fCountFailure: bool, nTime: int)
      requires Valid() && nTime > 0
      modifies this`mapInfo
      ensures Valid() && State() == M.Attempt(old(State()), addr, fCountFailure, nTime)
    {
      hide I.Core, I.Pending, Cells;
      I.Attempted(e, State(), addr, fCountFailure, nTime);
      var found, nId := Find(addr.net);
      if !found {
        return;
      }
      if mapInfo[nId].service != addr {
        return;
      }
      var info := mapInfo[nId].(nLastTry := nTime);
      if fCountFailure && info.nLastCountAttempt < nLastGood {
        info := info.(nLastCountAttempt := nTime);
        info := info.(nAttempts := info.nAttempts + 1);
      }
      mapInfo := mapInfo[nId := info];
    }

    method Connected(addr: M.Service, nTime: nat)
      requires Valid()
      modifies this`mapInfo
      ensures Valid() && State() == M.Connected(old(State()), addr, nTime)
    {
      hide I.Core, I.Pending, Cells;
      I.ConnectedWell(e, State(), addr, nTime);
      var found, nId := Find(addr.net);
      if !found {
        return;
      }
      if mapInfo[nId].service != addr {
        return;
      }
      if nTime - mapInfo[nId].nTime > 20 * 60 {
        mapInfo := mapInfo[nId := mapInfo[nId].(nTime := nTime)];
      }
    }

    method SetServices(addr: M.Service, nServices: M.Services)
      requires Valid()
      modifies this`mapInfo
      ensures Valid() && State() == M.SetServices(old(State()), addr, nServices)
    {
      hide I.Core, I.Pending, Cells;
      I.ServicesSet(e, State(), addr, nServices);
      var found, nId := Find(addr.net);
      if !found {
        return;
      }
      if mapInfo[nId].service != addr {
        return;
      }
      mapInfo := mapInfo[nId := mapInfo[nId].(nServices := nServices)];
    }
  
    /** rnd(n) stands for the random draw of step n. */
    method GetAddr(rnd: nat -> nat, now: int) returns (vAddr: seq<M.Address>)
      requires Valid()
      modifies this`mapInfo, this`vRandom
      ensures Valid() && M.Listed(old(State()))
      ensures var (t, ids) := M.Gather(old(State()), 0, M.GetAddrLimit(|old(vRandom)|), rnd, now, []);
              State() == t && Addressed(t, ids, vAddr) && I.Exhaustive(t, M.GetAddrLimit(|old(vRandom)|), now, ids)
      ensures |vAddr| <= M.GETADDR_MAX && 100 * |vAddr| <= M.GETADDR_MAX_PCT * |vRandom|
      ensures forall i :: 0 <= i < |vAddr| ==> Offers(State(), vAddr[i], now)
      ensures forall i, j :: 0 <= i < j < |vAddr| ==> vAddr[i].service.net != vAddr[j].service.net
    {
      hide Offering, I.Consistent, Cells, M.IsTerrible, M.SwapRandom, M.Draw, M.Gather, Offers, M.Listed;
      ghost var s := State();
      OfferingBegins(e, s, rnd, now);
      var nNodes := M.GETADDR_MAX_PCT * |vRandom| / 100;
      if nNodes > M.GETADDR_MAX {
        nNodes := M.GETADDR_MAX;
      }
      vAddr := [];
      ghost var ids: seq<int> := [];
      var n := 0;
      while n < |vRandom| && |vAddr| < nNodes
        invariant n <= |vRandom| && |ids| == |vAddr| && |vRandom| == |s.vRandom|
        invariant Offering(e, s, State(), n, rnd, now, ids, vAddr)
      {
        var nRndPos := M.Draw(rnd(n), n, |vRandom|);
        OfferingNext(e, s, State(), n, rnd, now, ids, vAddr);
        SwapRandom(n, nRndPos);
        assert vRandom[n] in mapInfo;
        var ai := mapInfo[vRandom[n]];
        if !M.IsTerrible(ai, now) {
          vAddr := vAddr + [AddressOf(ai)];
          ids := ids + [vRandom[n]];
        }
        n := n + 1;
      }
      OfferingEnds(e, s, State(), n, rnd, now, ids, vAddr);
    }
  
    /** One collision of ResolveCollisions_; erase says it leaves the list. */
    method ResolveCollision(id_new: int, now: int, nRnd: nat)
      requires Valid() && now > 0
      modifies this, vvNew, vvTried
      ensures Valid() && M.CanResolve(e, old(State()), id_new, now)
      ensures State() == M.Resolve(e, old(State()), id_new, now)
      ensures id_new in old(m_tried_collisions) ==> F.ResolveEffect(e, old(State()), State(), id_new, now)
    {
      hide F.ResolveEffect, I.Core, I.Pending, Cells, M.Env.TriedCell, M.CanGood, M.Good;
      ghost var s := State();
      I.Resolved(e, s, id_new, now);
      if id_new in m_tried_collisions { F.ResolveTakesEffect(e, s, id_new, now); }
      var erase_collision := false;
      if id_new !in mapInfo {
        erase_collision := true;
      } else {
        var info_new := mapInfo[id_new];
        var c := e.TriedCell(nKey, info_new.service);
        TriedCellFits(e, nKey, info_new.service);
        CellAt(vvTried, c.bucket, c.pos);
        if !e.valid(info_new.service) {
          erase_collision := true;
        } else if vvTried[c.bucket, c.pos] != -1 {
          var id_old := vvTried[c.bucket, c.pos];
          TriedHolderKnown(e, s, c);
          var info_old := mapInfo[id_old];
          if now - info_old.nLastSuccess < M.REPLACEMENT_HOURS * (60 * 60) {
            erase_collision := true;
          } else if now - info_old.nLastTry < M.REPLACEMENT_HOURS * (60 * 60) {
            if now - info_old.nLastTry > 60 {
              Good(info_new.service, false, now, nRnd);
              erase_collision := true;
            }
          }
        } else {
          Good(info_new.service, false, now, nRnd);
          erase_collision := true;
        }
      }
      if erase_collision {
        m_tried_collisions := m_tried_collisions - {id_new};
      }
    }

    /** nRnd(id) stands for the random start Good_ draws when it is called for collision id. */
    method ResolveCollisions(now: int, nRnd: int -> nat)
      requires Valid() && now > 0
      modifies this, vvNew, vvTried
      ensures Valid() && State() == I.ResolveAll(e, old(State()), old(m_tried_collisions), now)
    {
      hide I.Consistent, Cells, M.Resolve, M.CanResolve;
      ghost var s := State();
      var todo := m_tried_collisions;
      while todo != {}
        invariant Valid() && I.ResolveAll(e, State(), todo, now) == I.ResolveAll(e, s, s.collisions, now)
        decreases |todo|
      {
        HasLeast(todo);
        var id_new :| id_new in todo && forall x :: x in todo ==> id_new <= x;
        assert id_new == Least(todo);
        ResolveCollision(id_new, now, nRnd(id_new));
        todo := todo - {id_new};
      }
    }

    /** id_new stands for the randomly chosen pending collision. */
    method SelectTriedCollision(id_new: int) returns (found: bool, info: M.Info)
      requires Valid() && (m_tried_collisions != {} ==> id_new in m_tried_collisions)
      modifies this`m_tried_collisions
      ensures Valid() && State() == M.Selected(old(State()), id_new)
      ensures found <==> id_new in old(m_tried_collisions) && id_new in mapInfo
      ensures found ==> var c := e.TriedCell(nKey, mapInfo[id_new].service);
                        && c in State().vvTried && State().vvTried[c] in mapInfo
                        && info == mapInfo[State().vvTried[c]] && info.fInTried
    {
      hide I.Core, I.Pending, Cells, M.Env.TriedCell;
      I.SelectedWell(e, State(), id_new);
      found, info := false, M.Info(M.Service(M.NetAddr([]), 0), 0, {}, M.NetAddr([]), 0, 0, 0, 0, 0, false, -1);
      if |m_tried_collisions| == 0 {
        return;
      }
      if id_new !in mapInfo {
        m_tried_collisions := m_tried_collisions - {id_new};
        return;
      }
      var c := e.TriedCell(nKey, mapInfo[id_new].service);
      I.CollisionNamesAnEntry(e, State(), id_new);
      TriedCellFits(e, nKey, mapInfo[id_new].service);
      CellAt(vvTried, c.bucket, c.pos);
      found, info := true, mapInfo[vvTried[c.bucket, c.pos]];
    }
  }
}
