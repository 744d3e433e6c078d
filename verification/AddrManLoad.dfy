/** Reading an address manager back: nothing is lost, and the tables come out as they were, up to
    a renumbering of the ids. */
module AddrManLoad {
  import opened AddrManModel
  import opened AddrManDisk
  import opened AddrManSteps
  import I = AddrManInvariant
  import opened Order

  datatype Outcome = Failed | Read(state: State, nLost: nat, nLostUnk: nat)

  /** What keeps Delete's asserts quiet whatever the file held. */
  ghost predicate Sound(t: State) {
    I.Shuffled(t.mapInfo, t.vRandom) && forall id :: id in t.mapInfo ==> id < t.nIdCount
  }

  // ---- what a serialized state loads as

  /** All ids in the order their entries are read. */
  ghost function ReadOrder(s: State): seq<int> { NewIds(s) + TriedIds(s) }

  ghost function Renumber(s: State, id: int): int { Number(ReadOrder(s), id) }

  /** The entry survives but for what is memory-only. */
  function Survives(i: Info, pos: int): Info {
    i.(nLastTry := 0, nLastCountAttempt := 0, nRandomPos := pos)
  }

  ghost predicate Restores(s: State, t: State) {
    && t.nKey == s.nKey && t.nNew == s.nNew && t.nTried == s.nTried
    && t.nIdCount == |s.mapInfo| && t.nLastGood == 1 && t.collisions == {}
    && t.vvNew == (map c | c in s.vvNew :: Renumber(s, s.vvNew[c]))
    && t.vvTried == (map c | c in s.vvTried :: Renumber(s, s.vvTried[c]))
    && t.mapAddr == (map a | a in s.mapAddr :: Renumber(s, s.mapAddr[a]))
    && (forall k :: k in t.mapInfo <==> 0 <= k < |s.mapInfo|)
    && (forall id :: id in s.mapInfo ==> Renumber(s, id) in t.mapInfo)
    && (forall id :: id in s.mapInfo ==> t.mapInfo[Renumber(s, id)] == Survives(s.mapInfo[id], Renumber(s, id)))
    && |t.vRandom| == |s.mapInfo| && forall k :: 0 <= k < |t.vRandom| ==> t.vRandom[k] == k
  }

  lemma OrderCovers(e: Env, s: State)
    requires I.Consistent(e, s)
    ensures Distinct(ReadOrder(s)) && |ReadOrder(s)| == s.nNew + s.nTried == |s.mapInfo|
    ensures forall id :: id in ReadOrder(s) <==> id in s.mapInfo
    ensures forall k :: 0 <= k < |ReadOrder(s)| ==>
              ReadOrder(s)[k] in s.mapInfo && s.mapInfo[ReadOrder(s)[k]].fInTried == (k >= s.nNew)
    ensures |NewIds(s)| == s.nNew && s.nTried >= 0
  {
    hide I.Consistent, Select, Ascending;
    IdsCounted(e, s);
    var v, w := NewIds(s), TriedIds(s);
    hide NewIds, TriedIds;
    forall k | 0 <= k < |v + w|
      ensures (v + w)[k] in s.mapInfo && s.mapInfo[(v + w)[k]].fInTried == (k >= s.nNew)
    {
      assert if k < |v| then (v + w)[k] in v else (v + w)[k] in w;
    }
    DistinctCounts(v + w, s.mapInfo.Keys);
  }


  /** The k-th entry read. */
  ghost function Kth(s: State, k: nat): Info
    requires k < |ReadOrder(s)| && ReadOrder(s)[k] in s.mapInfo
  {
    s.mapInfo[ReadOrder(s)[k]]
  }

  ghost predicate Covered(s: State) {
    && |ReadOrder(s)| == s.nNew + s.nTried && s.nNew >= 0 && s.nTried >= 0
    && forall k :: 0 <= k < |ReadOrder(s)| ==>
         ReadOrder(s)[k] in s.mapInfo && Kth(s, k).fInTried == (k >= s.nNew)
  }

  ghost predicate LoadedInfos(s: State, n: nat, m: I.Infos, v: seq<int>)
    requires Covered(s) && n <= |ReadOrder(s)|
  {
    && |v| == n && (forall k :: 0 <= k < n ==> v[k] == k)
    && (forall k :: k in m <==> 0 <= k < n)
    && forall k :: 0 <= k < n ==> m[k] == Survives(Kth(s, k), k).(nRefCount := 0)
  }

  ghost predicate LoadedAddrs(s: State, n: nat, addrs: map<NetAddr, int>)
    requires Covered(s) && n <= |ReadOrder(s)|
  {
    && (forall k :: 0 <= k < n ==> Kth(s, k).service.net in addrs && addrs[Kth(s, k).service.net] == k)
    && forall a :: a in addrs ==> 0 <= addrs[a] < n && Kth(s, addrs[a]).service.net == a
  }

  ghost predicate LoadedTried(e: Env, s: State, n: nat, t: Table)
    requires Covered(s) && n <= |ReadOrder(s)|
  {
    && (forall k :: s.nNew <= k < n ==>
          e.TriedCell(s.nKey, Kth(s, k).service) in t && t[e.TriedCell(s.nKey, Kth(s, k).service)] == k)
    && forall c :: c in t ==> s.nNew <= t[c] < n && c == e.TriedCell(s.nKey, Kth(s, t[c]).service)
  }

  /** The state once the first n entries of the file are in. */
  ghost predicate Loading(e: Env, s: State, n: nat, t: State) {
    && Covered(s) && n <= |ReadOrder(s)| && t.nKey == s.nKey
    && LoadedInfos(s, n, t.mapInfo, t.vRandom) && LoadedAddrs(s, n, t.mapAddr) && LoadedTried(e, s, n, t.vvTried)
  }

  lemma CoveredByOrder(e: Env, s: State)
    requires I.Consistent(e, s)
    ensures Covered(s)
  {
    hide I.Consistent, ReadOrder;
    OrderCovers(e, s);
  }

  /** No two entries share an address or a tried cell. */
  lemma KeptApart(e: Env, s: State, j: nat, k: nat)
    requires I.Consistent(e, s) && Covered(s) && j < k < |ReadOrder(s)|
    ensures Kth(s, j).service.net != Kth(s, k).service.net
    ensures Kth(s, j).fInTried && Kth(s, k).fInTried ==>
              e.TriedCell(s.nKey, Kth(s, j).service) != e.TriedCell(s.nKey, Kth(s, k).service)
  {
    hide I.Shuffled, I.NewTable, I.Entries, I.Counted, I.Pending, ReadOrder, Env.TriedCell;
    assert ReadOrder(s)[j] != ReadOrder(s)[k] by {
      hide I.Core;
      OrderCovers(e, s);
    }
  }

  lemma AddrsLoad(e: Env, s: State, n: nat, addrs: map<NetAddr, int>)
    requires I.Consistent(e, s) && Covered(s) && n < |ReadOrder(s)| && LoadedAddrs(s, n, addrs)
    ensures LoadedAddrs(s, n + 1, addrs[Kth(s, n).service.net := n])
  {
    hide I.Consistent, ReadOrder;
    forall k: nat | k < n ensures Kth(s, k).service.net != Kth(s, n).service.net {
      KeptApart(e, s, k, n);
    }
  }

  lemma TriedLoad(e: Env, s: State, n: nat, t: Table)
    requires I.Consistent(e, s) && Covered(s) && s.nNew <= n < |ReadOrder(s)| && LoadedTried(e, s, n, t)
    ensures var c := e.TriedCell(s.nKey, Kth(s, n).service);
            c !in t && LoadedTried(e, s, n + 1, t[c := n])
  {
    hide I.Consistent, ReadOrder, Env.TriedCell;
    forall k: nat | s.nNew <= k < n
      ensures e.TriedCell(s.nKey, Kth(s, k).service) != e.TriedCell(s.nKey, Kth(s, n).service)
    {
      KeptApart(e, s, k, n);
    }
  }

  lemma InfosLoad(s: State, n: nat, m: I.Infos, v: seq<int>, i: Info)
    requires Covered(s) && n < |ReadOrder(s)| && LoadedInfos(s, n, m, v)
    requires i == Survives(Kth(s, n), n).(nRefCount := 0)
    ensures LoadedInfos(s, n + 1, m[n := i], v + [n])
  {
    hide ReadOrder;
  }

  lemma EntryLoadsNew(e: Env, s: State, n: nat, t: State)
    requires I.Consistent(e, s) && Loading(e, s, n, t) && n < s.nNew
    ensures Loading(e, s, n + 1, LoadNew(e, t, n, Disk(Kth(s, n)), true))
  {
    hide I.Consistent, LoadedInfos, LoadedAddrs, LoadedTried, ReadOrder;
    var i := Loaded(Disk(Kth(s, n))).(nRandomPos := |t.vRandom|);
    RandomLength(s, n, t.mapInfo, t.vRandom);
    InfosLoad(s, n, t.mapInfo, t.vRandom, i);
    AddrsLoad(e, s, n, t.mapAddr);
    NoneTriedYet(e, s, n, t.vvTried);
  }

  lemma RandomLength(s: State, n: nat, m: I.Infos, v: seq<int>)
    requires Covered(s) && n <= |ReadOrder(s)| && LoadedInfos(s, n, m, v)
    ensures |v| == n
  {}

  lemma NoneTriedYet(e: Env, s: State, n: nat, t: Table)
    requires Covered(s) && n < s.nNew && LoadedTried(e, s, n, t)
    ensures LoadedTried(e, s, n + 1, t)
  {}

  lemma EntryLoadsTried(e: Env, s: State, n: nat, t: State)
    requires I.Consistent(e, s) && Loading(e, s, n, t) && s.nNew <= n < |ReadOrder(s)| && t.nIdCount == n
    ensures TriedFree(e, t, Disk(Kth(s, n))) && Loading(e, s, n + 1, LoadTried(e, t, Disk(Kth(s, n))))
  {
    hide LoadedInfos, LoadedAddrs, LoadedTried, ReadOrder, Env.TriedCell;
    var i := Loaded(Disk(Kth(s, n))).(nRandomPos := |t.vRandom|, fInTried := true);
    I.EntryOf(e, s, ReadOrder(s)[n]);
    hide I.Consistent;
    RandomLength(s, n, t.mapInfo, t.vRandom);
    InfosLoad(s, n, t.mapInfo, t.vRandom, i);
    AddrsLoad(e, s, n, t.mapAddr);
    TriedLoad(e, s, n, t.vvTried);
  }

  // ---- the bucket lists

  /** The cells read once buckets below b and the first n indexes of bucket b are done. */
  ghost function Upto(s: State, b: nat, n: nat): set<Cell>
    requires n <= |Occupied(s.vvNew, b, BUCKET_SIZE)|
  {
    set c | c in s.vvNew && (c.bucket < b || (c.bucket == b && c in Occupied(s.vvNew, b, BUCKET_SIZE)[..n]))
  }

  lemma UptoNext(s: State, b: nat, n: nat)
    requires n < |Occupied(s.vvNew, b, BUCKET_SIZE)|
    ensures var c := Occupied(s.vvNew, b, BUCKET_SIZE)[n];
            && c in s.vvNew && c.bucket == b && c !in Upto(s, b, n)
            && Upto(s, b, n + 1) == Upto(s, b, n) + {c}
  {
    var v := Occupied(s.vvNew, b, BUCKET_SIZE);
    hide Occupied;
    assert v[..n + 1] == v[..n] + [v[n]];
    forall k | 0 <= k < n ensures v[k] != v[n] {}
  }

  lemma UptoNextBucket(e: Env, s: State, b: nat)
    requires I.Consistent(e, s)
    ensures Upto(s, b, |Occupied(s.vvNew, b, BUCKET_SIZE)|) == Upto(s, b + 1, 0)
    ensures Upto(s, 0, 0) == {} && Upto(s, NEW_BUCKET_COUNT, 0) == s.vvNew.Keys
  {
    hide I.Indexed, I.Shuffled, I.TriedTable, I.Entries, I.Counted, I.Pending;
    var v := Occupied(s.vvNew, b, BUCKET_SIZE);
    assert v[..|v|] == v;
    forall c | c in s.vvNew && c.bucket == b ensures c in v {
      assert c.pos < BUCKET_SIZE;
    }
  }

  ghost predicate ReffedInfos(s: State, done: set<Cell>, m: I.Infos)
    requires Covered(s)
  {
    && (forall k :: k in m <==> 0 <= k < |ReadOrder(s)|)
    && forall k :: 0 <= k < |ReadOrder(s)| ==>
         m[k] == Survives(Kth(s, k), k).(nRefCount := |Refs(s.vvNew, ReadOrder(s)[k]) * done|)
  }

  ghost predicate ReffedCells(s: State, done: set<Cell>, t: Table)
    requires Covered(s)
  {
    && t.Keys == done && done <= s.vvNew.Keys
    && forall c :: c in done ==> 0 <= t[c] < s.nNew && ReadOrder(s)[t[c]] == s.vvNew[c]
  }

  lemma NoneReffed(s: State, m: I.Infos, v: seq<int>)
    requires Covered(s) && LoadedInfos(s, |ReadOrder(s)|, m, v)
    ensures ReffedInfos(s, {}, m) && ReffedCells(s, {}, map[])
  {
    hide ReadOrder;
    forall k | 0 <= k < |ReadOrder(s)| ensures |Refs(s.vvNew, ReadOrder(s)[k]) * {}| == 0 {
      assert Refs(s.vvNew, ReadOrder(s)[k]) * {} == {};
    }
  }

  /** The number written for a cell leads back to its entry, whose hash leads back to the cell. */
  lemma NumberLeadsBack(e: Env, s: State, done: set<Cell>, m: I.Infos, c: Cell)
    requires I.Consistent(e, s) && Covered(s) && ReffedInfos(s, done, m) && c in s.vvNew && c !in done
    ensures var j := Number(NewIds(s), s.vvNew[c]);
            && 0 <= j < s.nNew && j in m && ReadOrder(s)[j] == s.vvNew[c]
            && c == e.CellIn(s.nKey, m[j].service, c.bucket) && m[j].nRefCount < NEW_BUCKETS_PER_ADDRESS
  {
    hide I.Indexed, I.Shuffled, I.TriedTable, I.Counted, I.Pending, Select, Ascending;
    IdsCounted(e, s);
    hide NewIds, TriedIds;
    var id := s.vvNew[c];
    var j := Number(NewIds(s), id);
    assert ReadOrder(s)[j] == id;
    assert c in Refs(s.vvNew, id);
    var seen := Refs(s.vvNew, id) * done;
    assert seen + {c} <= Refs(s.vvNew, id);
    Fewer(seen, Refs(s.vvNew, id), c);
    I.EntryOf(e, s, id);
  }

  lemma Fewer(xs: set<Cell>, ys: set<Cell>, c: Cell)
    requires xs <= ys && c in ys && c !in xs
    ensures |xs| < |ys|
  {
    CountBelow(xs, ys - {c});
  }

  lemma {:induction false} CountBelow(xs: set<Cell>, ys: set<Cell>)
    requires xs <= ys
    ensures |xs| <= |ys|
  {
    if c :| c in xs {
      CountBelow(xs - {c}, ys - {c});
    } else {
      if xs != {} { assert false; }
    }
  }

  lemma OneMoreRef(t: Table, id: int, done: set<Cell>, c: Cell)
    requires c in t && c !in done
    ensures |Refs(t, id) * (done + {c})| == |Refs(t, id) * done| + if t[c] == id then 1 else 0
  {
    var r := Refs(t, id);
    if t[c] == id {
      assert r * (done + {c}) == r * done + {c};
    } else {
      assert r * (done + {c}) == r * done;
    }
  }

  lemma InfosReffed(s: State, done: set<Cell>, m: I.Infos, c: Cell, j: nat)
    requires Covered(s) && Distinct(ReadOrder(s)) && ReffedInfos(s, done, m) && c in s.vvNew && c !in done
    requires j < |ReadOrder(s)| && ReadOrder(s)[j] == s.vvNew[c]
    ensures ReffedInfos(s, done + {c}, m[j := m[j].(nRefCount := m[j].nRefCount + 1)])
  {
    hide ReadOrder, Refs;
    var w := m[j := m[j].(nRefCount := m[j].nRefCount + 1)];
    forall k | 0 <= k < |ReadOrder(s)|
      ensures w[k] == Survives(Kth(s, k), k).(nRefCount := |Refs(s.vvNew, ReadOrder(s)[k]) * (done + {c})|)
    {
      OneMoreRef(s.vvNew, ReadOrder(s)[k], done, c);
      assert k != j ==> ReadOrder(s)[k] != ReadOrder(s)[j];
    }
  }

  lemma RefLoads(e: Env, s: State, done: set<Cell>, t: State, c: Cell)
    requires I.Consistent(e, s) && Covered(s) && t.nKey == s.nKey && t.nNew == s.nNew
    requires ReffedInfos(s, done, t.mapInfo) && ReffedCells(s, done, t.vvNew) && c in s.vvNew && c !in done
    ensures var u := LoadRef(e, t, c.bucket, Number(NewIds(s), s.vvNew[c]), true);
            && ReffedInfos(s, done + {c}, u.mapInfo) && ReffedCells(s, done + {c}, u.vvNew)
            && u == t.(mapInfo := u.mapInfo, vvNew := u.vvNew)
  {
    hide I.Consistent, NewIds, Number, Env.CellIn, ReadOrder, ReffedInfos;
    OrderCovers(e, s);
    NumberLeadsBack(e, s, done, t.mapInfo, c);
    InfosReffed(s, done, t.mapInfo, c, Number(NewIds(s), s.vvNew[c]));
  }

  // ---- the whole

  /** Renumbering is a bijection from the ids onto the first |mapInfo| numbers. */
  lemma Renumbered(e: Env, s: State, k: nat)
    requires I.Consistent(e, s) && k < |s.mapInfo|
    ensures Covered(s) && |ReadOrder(s)| == |s.mapInfo| && ReadOrder(s)[k] in s.mapInfo &&
              Renumber(s, ReadOrder(s)[k]) == k
  {
    hide I.Consistent, ReadOrder;
    OrderCovers(e, s);
    CoveredByOrder(e, s);
    IndexIs(ReadOrder(s), k);
  }

  lemma NumberOfId(e: Env, s: State, id: int) returns (k: nat)
    requires I.Consistent(e, s) && id in s.mapInfo
    ensures k < |s.mapInfo| && Covered(s) && |ReadOrder(s)| == |s.mapInfo| && ReadOrder(s)[k] == id &&
              Renumber(s, id) == k
  {
    hide I.Consistent, ReadOrder;
    OrderCovers(e, s);
    k := IndexOf(ReadOrder(s), id);
    Renumbered(e, s, k);
  }

  lemma NewRestoredAt(e: Env, s: State, t: Table, c: Cell)
    requires I.Consistent(e, s) && Covered(s) && ReffedCells(s, s.vvNew.Keys, t)
    ensures c in t <==> c in s.vvNew
    ensures c in s.vvNew ==> t[c] == Renumber(s, s.vvNew[c])
  {
    hide I.Consistent, ReadOrder, Renumber;
    OrderCovers(e, s);
    if c in s.vvNew { Renumbered(e, s, t[c]); }
  }

  lemma NewRestored(e: Env, s: State, t: Table)
    requires I.Consistent(e, s) && Covered(s) && ReffedCells(s, s.vvNew.Keys, t)
    ensures t == map c | c in s.vvNew :: Renumber(s, s.vvNew[c])
  {
    hide I.Consistent, ReadOrder, Renumber, Covered, ReffedCells;
    forall c ensures c in t <==> c in s.vvNew
             ensures c in s.vvNew ==> t[c] == Renumber(s, s.vvNew[c])
    {
      NewRestoredAt(e, s, t, c);
    }
  }

  lemma TriedRestoredAt(e: Env, s: State, u: Table, c: Cell)
    requires I.Consistent(e, s) && Covered(s) && LoadedTried(e, s, |ReadOrder(s)|, u)
    ensures c in u <==> c in s.vvTried
    ensures c in u ==> u[c] == Renumber(s, s.vvTried[c])
  {
    hide I.Indexed, I.Shuffled, I.NewTable, I.Entries, I.Counted, I.Pending, ReadOrder, Renumber, Env.TriedCell;
    OrderCovers(e, s);
    if c in s.vvTried {
      var k := NumberOfId(e, s, s.vvTried[c]);
      assert Kth(s, k).fInTried;
      assert c in u;
    }
    if c in u {
      Renumbered(e, s, u[c]);
      assert Kth(s, u[c]).fInTried;
    }
  }

  lemma TriedRestored(e: Env, s: State, u: Table)
    requires I.Consistent(e, s) && Covered(s) && LoadedTried(e, s, |ReadOrder(s)|, u)
    ensures u == map c | c in s.vvTried :: Renumber(s, s.vvTried[c])
  {
    hide I.Consistent, Covered, ReadOrder, Renumber, LoadedTried;
    forall c ensures c in u <==> c in s.vvTried
             ensures c in u ==> u[c] == Renumber(s, s.vvTried[c])
    {
      TriedRestoredAt(e, s, u, c);
    }
  }

  lemma AddressedBy(e: Env, s: State, a: NetAddr, id: int)
    requires I.Consistent(e, s)
    ensures a in s.mapAddr && s.mapAddr[a] == id <==> id in s.mapInfo && s.mapInfo[id].service.net == a
  {
    hide I.Shuffled, I.NewTable, I.TriedTable, I.Entries, I.Counted, I.Pending;
  }

  lemma AddrRestoredAt(e: Env, s: State, addrs: map<NetAddr, int>, a: NetAddr)
    requires I.Consistent(e, s) && Covered(s) && LoadedAddrs(s, |ReadOrder(s)|, addrs)
    ensures a in addrs <==> a in s.mapAddr
    ensures a in addrs ==> addrs[a] == Renumber(s, s.mapAddr[a])
  {
    hide I.Consistent, ReadOrder, Renumber;
    OrderCovers(e, s);
    if a in s.mapAddr {
      AddressedBy(e, s, a, s.mapAddr[a]);
      var k := NumberOfId(e, s, s.mapAddr[a]);
      assert Kth(s, k).service.net == a;
      assert a in addrs;
    }
    if a in addrs {
      Renumbered(e, s, addrs[a]);
      AddressedBy(e, s, a, ReadOrder(s)[addrs[a]]);
    }
  }

  lemma AddrsRestored(e: Env, s: State, addrs: map<NetAddr, int>)
    requires I.Consistent(e, s) && Covered(s) && LoadedAddrs(s, |ReadOrder(s)|, addrs)
    ensures addrs == map a | a in s.mapAddr :: Renumber(s, s.mapAddr[a])
  {
    hide I.Consistent, Covered, ReadOrder, Renumber, LoadedAddrs;
    forall a ensures a in addrs <==> a in s.mapAddr
             ensures a in addrs ==> addrs[a] == Renumber(s, s.mapAddr[a])
    {
      AddrRestoredAt(e, s, addrs, a);
    }
  }

  lemma AllRefs(e: Env, s: State, id: int)
    requires I.Consistent(e, s) && id in s.mapInfo
    ensures |Refs(s.vvNew, id) * s.vvNew.Keys| == s.mapInfo[id].nRefCount
  {
    hide I.Indexed, I.Shuffled, I.TriedTable, I.Entries, I.Counted, I.Pending, Env.CellIn;
    assert Refs(s.vvNew, id) * s.vvNew.Keys == Refs(s.vvNew, id);
  }

  lemma InfoRestoredAt(e: Env, s: State, m: I.Infos, id: int)
    requires I.Consistent(e, s) && Covered(s) && ReffedInfos(s, s.vvNew.Keys, m) && id in s.mapInfo
    ensures Renumber(s, id) in m && m[Renumber(s, id)] == Survives(s.mapInfo[id], Renumber(s, id))
  {
    hide I.Consistent, ReadOrder, Renumber, Refs;
    var k := NumberOfId(e, s, id);
    AllRefs(e, s, id);
  }

  lemma InfosRestored(e: Env, s: State, m: I.Infos)
    requires I.Consistent(e, s) && Covered(s) && ReffedInfos(s, s.vvNew.Keys, m)
    ensures |ReadOrder(s)| == |s.mapInfo|
    ensures forall k :: k in m <==> 0 <= k < |s.mapInfo|
    ensures forall id :: id in s.mapInfo ==>
              Renumber(s, id) in m && m[Renumber(s, id)] == Survives(s.mapInfo[id], Renumber(s, id))
  {
    hide I.Consistent, Covered, ReadOrder, Renumber, Survives;
    OrderCovers(e, s);
    forall id | id in s.mapInfo
      ensures Renumber(s, id) in m && m[Renumber(s, id)] == Survives(s.mapInfo[id], Renumber(s, id))
    {
      InfoRestoredAt(e, s, m, id);
    }
  }

  /** The state before pruning, given that every entry and every cell has been read. */
  ghost predicate AllRead(e: Env, s: State, t: State) {
    && Covered(s) && t.nKey == s.nKey && t.nNew == s.nNew && t.nTried == s.nTried
    && t.nIdCount == |ReadOrder(s)| && t.nLastGood == 1 && t.collisions == {}
    && |t.vRandom| == |ReadOrder(s)| && (forall k :: 0 <= k < |t.vRandom| ==> t.vRandom[k] == k)
    && LoadedAddrs(s, |ReadOrder(s)|, t.mapAddr) && LoadedTried(e, s, |ReadOrder(s)|, t.vvTried)
    && ReffedInfos(s, s.vvNew.Keys, t.mapInfo) && ReffedCells(s, s.vvNew.Keys, t.vvNew)
  }

  lemma AllIsRestored(e: Env, s: State, t: State)
    requires I.Consistent(e, s) && AllRead(e, s, t)
    ensures Restores(s, t)
    ensures forall k :: k in t.mapInfo ==> t.mapInfo[k].fInTried || t.mapInfo[k].nRefCount != 0
  {
    hide I.Core, I.Pending, ReadOrder, Renumber, LoadedAddrs, LoadedTried, ReffedInfos, ReffedCells;
    NewRestored(e, s, t.vvNew);
    TriedRestored(e, s, t.vvTried);
    AddrsRestored(e, s, t.mapAddr);
    InfosRestored(e, s, t.mapInfo);
    forall k | k in t.mapInfo ensures t.mapInfo[k].fInTried || t.mapInfo[k].nRefCount != 0 {
      Renumbered(e, s, k);
      I.EntryOf(e, s, ReadOrder(s)[k]);
    }
  }

  // ---- a consistent state is never too large to read

  lemma {:induction false} RowBound(b: nat, m: nat, xs: set<Cell>)
    requires forall c :: c in xs ==> c.bucket == b && c.pos < m
    ensures |xs| <= m
  {
    if m == 0 {
      if xs != {} { assert false; }
    } else {
      RowBound(b, m - 1, xs - {Cell(b, m - 1)});
    }
  }

  lemma {:induction false} GridBound(n: nat, m: nat, xs: set<Cell>)
    requires forall c :: c in xs ==> c.bucket < n && c.pos < m
    ensures |xs| <= n * m
  {
    if n == 0 {
      if xs != {} { assert false; }
    } else {
      var row := set c | c in xs && c.bucket == n - 1;
      RowBound(n - 1, m, row);
      GridBound(n - 1, m, xs - row);
      assert xs == row + (xs - row);
      assert n * m == (n - 1) * m + m;
    }
  }

  ghost predicate Housed(t: Table, id: int) {
    exists c :: c in t && t[c] == id
  }

  lemma {:induction false} NoMoreThanCells(ids: set<int>, t: Table)
    requires forall id :: id in ids ==> Housed(t, id)
    ensures |ids| <= |t.Keys|
    decreases |ids|
  {
    if ids != {} {
      HasMember(ids);
      var id :| id in ids;
      assert Housed(t, id);
      var c :| c in t && t[c] == id;
      var rest := t - {c};
      forall x | x in ids - {id} ensures Housed(rest, x) {
        assert Housed(t, x);
        var d :| d in t && t[d] == x;
        assert d in rest && rest[d] == x;
      }
      NoMoreThanCells(ids - {id}, rest);
      assert rest.Keys == t.Keys - {c};
    }
  }

  lemma TriedFits(e: Env, s: State)
    requires I.Consistent(e, s)
    ensures s.nTried <= TRIED_BUCKET_COUNT * BUCKET_SIZE
  {
    hide I.Indexed, I.Shuffled, I.NewTable, I.Entries, I.Pending;
    var ids := I.Tried(s.mapInfo);
    forall id | id in ids ensures Housed(s.vvTried, id) {
      var c := e.TriedCell(s.nKey, s.mapInfo[id].service);
      assert c in s.vvTried && s.vvTried[c] == id;
    }
    NoMoreThanCells(ids, s.vvTried);
    GridBound(TRIED_BUCKET_COUNT, BUCKET_SIZE, s.vvTried.Keys);
  }

  lemma NewFits(e: Env, s: State)
    requires I.Consistent(e, s)
    ensures s.nNew <= NEW_BUCKET_COUNT * BUCKET_SIZE
  {
    hide I.Indexed, I.Shuffled, I.TriedTable, I.Pending;
    var ids := I.Untried(s.mapInfo);
    forall id | id in ids ensures Housed(s.vvNew, id) {
      I.EntryOf(e, s, id);
      if forall c :: c !in Refs(s.vvNew, id) { assert false; }
      var c :| c in Refs(s.vvNew, id);
      assert c in s.vvNew && s.vvNew[c] == id;
    }
    NoMoreThanCells(ids, s.vvNew);
    GridBound(NEW_BUCKET_COUNT, BUCKET_SIZE, s.vvNew.Keys);
  }

  // ---- Unserialize

  /** img was written by Serialize from the consistent state s. */
  ghost predicate Genuine(e: Env, s: State, img: Image) {
    I.Consistent(e, s) && s.nNew >= 0 && s.nTried >= 0 && img == Serialized(s)
  }

  lemma GenuineSizes(e: Env, s: State, img: Image)
    requires Genuine(e, s, img)
    ensures Covered(s) && Readable(img) && img.nKeySize == 32 && Usable(img)
    ensures img.nNew == s.nNew && img.nTried == s.nTried && img.nKey == s.nKey
    ensures img.nNew <= NEW_BUCKET_COUNT * BUCKET_SIZE && img.nTried <= TRIED_BUCKET_COUNT * BUCKET_SIZE
  {
    hide I.Consistent, Select, Ascending, Row;
    IdsCounted(e, s);
    CoveredByOrder(e, s);
    Flip30Twice(NEW_BUCKET_COUNT);
    NewFits(e, s);
    TriedFits(e, s);
  }

  lemma GenuineInfo(e: Env, s: State, img: Image, n: nat)
    requires Genuine(e, s, img) && Covered(s) && Readable(img) && n < s.nNew + s.nTried
    requires img.nNew == s.nNew && img.nTried == s.nTried
    ensures Disk(Kth(s, n)) == if n < s.nNew then img.newInfos[n] else img.triedInfos[n - s.nNew]
  {
    hide I.Consistent, Select, Ascending, Row, Disk;
    IdsCounted(e, s);
  }

  lemma GenuineRow(e: Env, s: State, img: Image, b: nat)
    requires Genuine(e, s, img) && b < NEW_BUCKET_COUNT
    ensures b < |img.buckets| && img.buckets[b] == Row(s.vvNew, NewIds(s), b, BUCKET_SIZE)
  {
    hide I.Consistent, NewIds, TriedIds, Row, Persisted;
  }

  /** The number of bucket lists read; a negative count is none. */
  function BucketCount(img: Image): nat {
    Max0(if img.nVersion != 0 then Flip30(img.nUBuckets) else img.nUBuckets)
  }

  /** The stream holds what its counts announce; what follows the last bucket is not looked at. */
  predicate Readable(img: Image) {
    |img.newInfos| == Max0(img.nNew) && |img.triedInfos| == Max0(img.nTried) && |img.buckets| >= BucketCount(img)
  }

  predicate Usable(img: Image) {
    img.nVersion == 1 && BucketCount(img) == NEW_BUCKET_COUNT
  }

  lemma LoadNewSound(e: Env, t: State, n: nat, d: DiskInfo, usable: bool)
    requires Sound(t) && t.nIdCount == n
    ensures Sound(LoadNew(e, t, n, d, usable).(nIdCount := n + 1))
  {
    I.GrowShuffle(t.mapInfo, t.vRandom, n, LoadNew(e, t, n, d, usable).mapInfo[n]);
    hide I.Shuffled;
  }

  lemma LoadTriedSound(e: Env, t: State, d: DiskInfo)
    requires Sound(t)
    ensures Sound(LoadTried(e, t, d))
  {
    I.GrowShuffle(t.mapInfo, t.vRandom, t.nIdCount, LoadTried(e, t, d).mapInfo[t.nIdCount]);
    hide I.Shuffled;
  }

  lemma LoadRefSound(e: Env, t: State, b: nat, nIndex: int, usable: bool)
    requires Sound(t)
    ensures Sound(LoadRef(e, t, b, nIndex, usable))
  {
    I.KeepsShuffle(t.mapInfo, LoadRef(e, t, b, nIndex, usable).mapInfo, t.vRandom);
    hide I.Shuffled;
  }

  /** The entries of the new table. */
  method ReadNew(e: Env, img: Image, ghost s: State) returns (t: State)
    requires Readable(img)
    ensures Sound(t) && t.nIdCount == img.nNew == t.nNew && t.nTried == img.nTried && t.nLastGood == 1 &&
              t.collisions == {}
    ensures Tabled(e, t) && Sided(t) && I.Counted(t.mapInfo, Max0(img.nNew), 0)
    ensures Genuine(e, s, img) ==> Loading(e, s, s.nNew, t) && t.vvNew == map[]
  {
    hide I.Consistent, Serialized, LoadedInfos, LoadedAddrs, LoadedTried, Kth, Covered, ReadOrder, Sound, Tabled, Sided,
         I.Counted;
    t := Cleared(img.nKey).(nNew := img.nNew, nTried := img.nTried);
    BeginSound(t);
    NothingTabled(e, t);
    if Genuine(e, s, img) {
      GenuineSizes(e, s, img);
      LoadingBegins(e, s, t);
    }
    for n := 0 to Max0(img.nNew)
      invariant Sound(t) && t.nIdCount == n && t.nNew == img.nNew && t.nTried == img.nTried
      invariant Tabled(e, t) && NoneTried(t) && I.Counted(t.mapInfo, n, 0)
      invariant t.nLastGood == 1 && t.collisions == {}
      invariant Genuine(e, s, img) ==> Loading(e, s, n, t) && t.vvNew == map[]
    {
      if Genuine(e, s, img) {
        GenuineSizes(e, s, img);
        GenuineInfo(e, s, img, n);
        EntryLoadsNew(e, s, n, t);
      }
      Fresh(t);
      LoadNewSound(e, t, n, img.newInfos[n], Usable(img));
      LoadNewTabled(e, t, n, img.newInfos[n], Usable(img));
      LoadNewCounted(e, t, n, img.newInfos[n], Usable(img), n, 0);
      TabledAside(e, LoadNew(e, t, n, img.newInfos[n], Usable(img)), n + 1);
      t := LoadNew(e, t, n, img.newInfos[n], Usable(img)).(nIdCount := n + 1);
    }
    NewIdsEnd(t, img.nNew);
    TabledAside(e, t, img.nNew);
    NoneTriedSided(t.(nIdCount := img.nNew));
    t := t.(nIdCount := img.nNew);
    if Genuine(e, s, img) { GenuineSizes(e, s, img); }
  }

  /** Only new entries so far, numbered from 0. */
  ghost predicate NoneTried(t: State) {
    forall id :: id in t.mapInfo ==> id >= 0 && !t.mapInfo[id].fInTried
  }

  lemma NoneTriedSided(t: State)
    requires NoneTried(t)
    ensures Sided(t)
  {}

  lemma Fresh(t: State)
    requires Sound(t)
    ensures t.nIdCount !in t.mapInfo
  {}

  /** The next id is that of the count, which is below 0 only when no entry was read. */
  lemma NewIdsEnd(t: State, nNew: int)
    requires Sound(t) && NoneTried(t) && t.nIdCount == Max0(nNew)
    ensures Sound(t.(nIdCount := nNew))
  {
    hide I.Shuffled;
  }

  lemma TabledAside(e: Env, t: State, n: int)
    requires Tabled(e, t)
    ensures Tabled(e, t.(nIdCount := n))
  {}

  lemma BeginSound(t: State)
    requires t.mapInfo == map[] && t.vRandom == []
    ensures Sound(t)
  {}

  lemma LoadingBegins(e: Env, s: State, t: State)
    requires Covered(s) && t.nKey == s.nKey && t.mapInfo == map[] && t.vRandom == [] && t.mapAddr == map[] &&
              t.vvTried == map[]
    ensures Loading(e, s, 0, t)
  {}

  /** The entries of the tried table; one whose cell is taken is lost. */
  method ReadTried(e: Env, img: Image, t0: State, ghost s: State) returns (t: State, nLost: nat)
    requires Readable(img) && Sound(t0) && t0.nIdCount == img.nNew == t0.nNew && t0.nTried == img.nTried
    requires t0.nLastGood == 1 && t0.collisions == {}
    requires Tabled(e, t0) && Sided(t0) && I.Counted(t0.mapInfo, Max0(img.nNew), 0)
    requires Genuine(e, s, img) ==> Loading(e, s, s.nNew, t0) && t0.vvNew == map[]
    ensures Sided(t) && (img.nNew >= 0 ==> Tabled(e, t))
    ensures I.Counted(t.mapInfo, Max0(img.nNew), Max0(img.nTried) - nLost)
    ensures Sound(t) && t.nNew == t0.nNew && t.nTried == t0.nTried && t.nLastGood == 1 && t.collisions == {}
    ensures Genuine(e, s, img) ==>
              Covered(s) && nLost == 0 && Loading(e, s, |ReadOrder(s)|, t) && t.vvNew == map[] &&
                  t.nIdCount == |ReadOrder(s)|
  {
    hide I.Consistent, Serialized, LoadedInfos, LoadedAddrs, LoadedTried, Kth, ReadOrder, Sound, LoadTried, TriedFree,
         Tabled, Sided, I.Counted;
    t, nLost := t0, 0;
    if Genuine(e, s, img) { GenuineSizes(e, s, img); }
    for n := 0 to Max0(img.nTried)
      invariant Sound(t) && t.nNew == t0.nNew && t.nTried == t0.nTried && t.nIdCount >= img.nNew
      invariant Sided(t) && (img.nNew >= 0 ==> Tabled(e, t)) && I.Counted(t.mapInfo, Max0(img.nNew), n - nLost)
      invariant t.nLastGood == 1 && t.collisions == {}
      invariant Genuine(e, s, img) ==>
                  nLost == 0 && t.nIdCount == s.nNew + n && Loading(e, s, s.nNew + n, t) && t.vvNew == map[]
    {
      var d := img.triedInfos[n];
      if Genuine(e, s, img) {
        GenuineInfo(e, s, img, s.nNew + n);
        EntryLoadsTried(e, s, s.nNew + n, t);
      }
      if TriedFree(e, t, d) {
        Fresh(t);
        if img.nNew >= 0 { LoadTriedTabled(e, t, d); }
        LoadTriedCounted(e, t, d, Max0(img.nNew), n - nLost);
        LoadTriedSided(e, t, d);
        LoadTriedSound(e, t, d);
        LoadTriedKeeps(e, t, d);
        t := LoadTried(e, t, d);
      } else {
        nLost := nLost + 1;
      }
    }
  }

  lemma LoadTriedSided(e: Env, t: State, d: DiskInfo)
    requires Sided(t) && t.nIdCount >= t.nNew
    ensures Sided(LoadTried(e, t, d))
  {}

  lemma LoadTriedKeeps(e: Env, t: State, d: DiskInfo)
    ensures var u := LoadTried(e, t, d);
            && u.nIdCount == t.nIdCount + 1 && u.nNew == t.nNew && u.nTried == t.nTried && u.vvNew == t.vvNew
            && u.nLastGood == t.nLastGood && u.collisions == t.collisions
  {}

  /** Everything is read but the references in done's complement. */
  ghost predicate Reffing(e: Env, s: State, done: set<Cell>, t: State) {
    && Covered(s) && t.nKey == s.nKey && t.nNew == s.nNew && t.nIdCount == |ReadOrder(s)|
    && |t.vRandom| == |ReadOrder(s)| && (forall k :: 0 <= k < |t.vRandom| ==> t.vRandom[k] == k)
    && LoadedAddrs(s, |ReadOrder(s)|, t.mapAddr) && LoadedTried(e, s, |ReadOrder(s)|, t.vvTried)
    && ReffedInfos(s, done, t.mapInfo) && ReffedCells(s, done, t.vvNew)
  }

  lemma ReffingBegins(e: Env, s: State, t: State)
    requires Loading(e, s, |ReadOrder(s)|, t) && t.vvNew == map[] && t.nNew == s.nNew && t.nIdCount == |ReadOrder(s)|
    ensures Reffing(e, s, {}, t)
  {
    hide ReadOrder, LoadedAddrs, LoadedTried, ReffedInfos, ReffedCells;
    NoneReffed(s, t.mapInfo, t.vRandom);
  }

  lemma ReffingNext(e: Env, s: State, b: nat, n: nat, t: State)
    requires I.Consistent(e, s) && n < |Occupied(s.vvNew, b, BUCKET_SIZE)| && Reffing(e, s, Upto(s, b, n), t)
    ensures Reffing(e, s, Upto(s, b, n + 1), LoadRef(e, t, b, Row(s.vvNew, NewIds(s), b, BUCKET_SIZE)[n], true))
  {
    hide I.Consistent, ReadOrder, LoadedAddrs, LoadedTried, ReffedInfos, ReffedCells, Upto, Occupied, NewIds, Number,
         LoadRef;
    UptoNext(s, b, n);
    RefLoads(e, s, Upto(s, b, n), t, Occupied(s.vvNew, b, BUCKET_SIZE)[n]);
  }

  /** The indexes of one bucket. */
  method ReadBucket(e: Env, img: Image, b: nat, t0: State, ghost s: State) returns (t: State)
    requires Readable(img) && b < BucketCount(img) && Sound(t0)
    requires Sided(t0)
    requires Genuine(e, s, img) ==> Reffing(e, s, Upto(s, b, 0), t0)
    ensures ReadsOn(e, t0, t)
    ensures Sound(t) && t == t0.(mapInfo := t.mapInfo, vvNew := t.vvNew)
    ensures Genuine(e, s, img) ==> Reffing(e, s, Upto(s, b + 1, 0), t)
  {
    hide I.Consistent, Serialized, Reffing, Sound, LoadRef, Row, Upto, ReadsOn;
    ReadsOnSelf(e, t0);
    var row := img.buckets[b];
    t := t0;
    if Genuine(e, s, img) {
      GenuineSizes(e, s, img);
      GenuineRow(e, s, img, b);
      UptoNextBucket(e, s, b);
    }
    for n := 0 to |row|
      invariant Sound(t) && t == t0.(mapInfo := t.mapInfo, vvNew := t.vvNew) && ReadsOn(e, t0, t)
      invariant Genuine(e, s, img) ==> Reffing(e, s, Upto(s, b, n), t)
    {
      if Genuine(e, s, img) {
        ReffingNext(e, s, b, n, t);
      }
      LoadRefSound(e, t, b, row[n], Usable(img));
      ReadsOnNext(e, t0, t, b, row[n], Usable(img));
      LoadRefKeeps(e, t, b, row[n], Usable(img));
      t := LoadRef(e, t, b, row[n], Usable(img));
    }
  }

  /** Reading references keeps the tables and the number of entries on each side. */
  ghost predicate ReadsOn(e: Env, t0: State, t: State) {
    && Sided(t) && (Tabled(e, t0) ==> Tabled(e, t))
    && forall x, y :: I.Counted(t0.mapInfo, x, y) ==> I.Counted(t.mapInfo, x, y)
  }

  lemma ReadsOnSelf(e: Env, t: State)
    requires Sided(t)
    ensures ReadsOn(e, t, t)
  {}

  lemma SidedAlways(e: Env, t: State, b: nat, nIndex: int, usable: bool)
    requires Sided(t)
    ensures Sided(LoadRef(e, t, b, nIndex, usable))
  {}

  lemma ReadsOnNext(e: Env, t0: State, t: State, b: nat, nIndex: int, usable: bool)
    requires ReadsOn(e, t0, t) && (usable ==> b < NEW_BUCKET_COUNT)
    ensures ReadsOn(e, t0, LoadRef(e, t, b, nIndex, usable))
  {
    hide Tabled, Sided, I.Counted, LoadRef;
    SidedAlways(e, t, b, nIndex, usable);
    if Tabled(e, t) { LoadRefTabled(e, t, b, nIndex, usable); }
    forall x, y | I.Counted(t.mapInfo, x, y) ensures I.Counted(LoadRef(e, t, b, nIndex, usable).mapInfo, x, y) {
      LoadRefCounted(e, t, b, nIndex, usable, x, y);
    }
  }

  lemma LoadRefKeeps(e: Env, t: State, b: nat, nIndex: int, usable: bool)
    ensures var u := LoadRef(e, t, b, nIndex, usable); u == t.(mapInfo := u.mapInfo, vvNew := u.vvNew)
  {}

  method ReadBuckets(e: Env, img: Image, t0: State, ghost s: State) returns (t: State)
    requires Readable(img) && Sound(t0)
    requires Sided(t0)
    requires Genuine(e, s, img) ==> Reffing(e, s, {}, t0)
    ensures Sound(t) && t == t0.(mapInfo := t.mapInfo, vvNew := t.vvNew)
    ensures ReadsOn(e, t0, t)
    ensures Genuine(e, s, img) ==> Reffing(e, s, s.vvNew.Keys, t)
  {
    hide I.Consistent, Serialized, Reffing, Sound, Upto, Sided, Tabled, I.Counted;
    ReadsOnSelf(e, t0);
    t := t0;
    if Genuine(e, s, img) {
      GenuineSizes(e, s, img);
      UptoNextBucket(e, s, 0);
    }
    for b := 0 to BucketCount(img)
      invariant Sound(t) && t == t0.(mapInfo := t.mapInfo, vvNew := t.vvNew) && ReadsOn(e, t0, t)
      invariant Genuine(e, s, img) ==> Reffing(e, s, Upto(s, b, 0), t)
    {
      t := ReadBucket(e, img, b, t, s);
    }
  }

  lemma Deletable(t: State, id: int)
    requires Sound(t) && id in t.mapInfo && !t.mapInfo[id].fInTried && t.mapInfo[id].nRefCount == 0
    ensures CanDelete(t, id) && Sound(Delete(t, id)) && Delete(t, id).mapInfo.Keys == t.mapInfo.Keys - {id}
  {
    hide I.Shuffled, I.SameButPos, SwapRandom;
    var i, last := t.mapInfo[id].nRandomPos, |t.vRandom| - 1;
    I.SwappedToEnd(t, id);
    I.SwapShuffles(t, i, last);
    I.SwapKeeps(t, i, last);
    var u := SwapRandom(t, i, last);
    I.DropShuffle(u.mapInfo, u.vRandom, id);
  }

  lemma DeleteSpares(t: State, id: int)
    requires CanDelete(t, id)
    ensures forall k :: k in t.mapInfo && k != id ==>
              k in Delete(t, id).mapInfo && I.SameButPos(t.mapInfo[k], Delete(t, id).mapInfo[k])
  {
    hide SwapRandom;
    I.SwapKeeps(t, t.mapInfo[id].nRandomPos, |t.vRandom| - 1);
  }

  predicate Referenced(i: Info) { i.fInTried || i.nRefCount != 0 }

  /** Of the entries of m those of w are left: only unreferenced ones are gone, and the others are as they were but for
      their place in the random order. */
  ghost predicate Pruning(m: I.Infos, w: I.Infos) {
    && w.Keys <= m.Keys
    && (forall k :: k in w ==> I.SameButPos(m[k], w[k]))
    && (forall k :: k in m && k !in w ==> !Referenced(m[k]))
  }

  lemma PrunesOn(m: I.Infos, t: State, id: int)
    requires Pruning(m, t.mapInfo) && id in t.mapInfo && !Referenced(t.mapInfo[id]) && CanDelete(t, id)
    requires Delete(t, id).mapInfo.Keys == t.mapInfo.Keys - {id}
    ensures Pruning(m, Delete(t, id).mapInfo) && !Referenced(m[id])
  {
    hide Delete;
    DeleteSpares(t, id);
  }

  ghost predicate AllReferenced(m: I.Infos) { forall k :: k in m ==> Referenced(m[k]) }

  /** The first i of the ids have been looked at. */
  ghost predicate PrunedUpTo(t0: State, t: State, ids: seq<int>, i: nat, nLostUnk: nat) {
    && Sound(t) && Pruning(t0.mapInfo, t.mapInfo) && nLostUnk + |t.mapInfo.Keys| == |t0.mapInfo.Keys|
    && (AllReferenced(t0.mapInfo) ==> t == t0)
    && (forall k :: 0 <= k < i && k < |ids| && ids[k] in t.mapInfo && ids[k] in t0.mapInfo ==>
        Referenced(t0.mapInfo[ids[k]]))
    && (forall k :: i <= k < |ids| ==> ids[k] in t.mapInfo)
  }

  lemma SameReferenced(i: Info, j: Info)
    requires I.SameButPos(i, j)
    ensures Referenced(i) == Referenced(j)
  {}

  lemma PruneKeeps(t0: State, t: State, ids: seq<int>, i: nat, n: nat)
    requires PrunedUpTo(t0, t, ids, i, n) && i < |ids| && Referenced(t.mapInfo[ids[i]])
    ensures PrunedUpTo(t0, t, ids, i + 1, n)
  {
    hide Sound, AllReferenced, Referenced, I.SameButPos;
    var id := ids[i];
    assert id in t.mapInfo;
    assert I.SameButPos(t0.mapInfo[id], t.mapInfo[id]);
    SameReferenced(t0.mapInfo[id], t.mapInfo[id]);
  }

  lemma StillToLookAt(t: State, ids: seq<int>, i: nat, k: nat)
    requires i < k < |ids| && ids[k] in t.mapInfo && Increasing(ids)
    ensures ids[k] in t.mapInfo.Keys - {ids[i]}
  {}

  lemma PruneDrops(t0: State, t: State, ids: seq<int>, i: nat, n: nat)
    requires PrunedUpTo(t0, t, ids, i, n) && i < |ids| && !Referenced(t.mapInfo[ids[i]])
    requires Increasing(ids)
    ensures CanDelete(t, ids[i]) && PrunedUpTo(t0, Delete(t, ids[i]), ids, i + 1, n + 1)
  {
    Deletable(t, ids[i]);
    PrunesOn(t0.mapInfo, t, ids[i]);
    hide Sound, Delete, CanDelete, Pruning, Referenced, Increasing;
    var u := Delete(t, ids[i]);
    assert |u.mapInfo.Keys| == |t.mapInfo.Keys| - 1;
    forall k | i + 1 <= k < |ids| ensures ids[k] in u.mapInfo { StillToLookAt(t, ids, i, k); }
  }

  /** Exactly the entries without a tried cell and without a reference are dropped, and counted; the others keep all
      but their place in the random order. Delete's asserts hold for any file. */
  method Prune(t0: State, ghost e: Env) returns (t: State, nLostUnk: nat)
    requires Sound(t0)
    ensures PrunesTables(e, t0, t, nLostUnk)
    ensures Sound(t) && Pruning(t0.mapInfo, t.mapInfo) && AllReferenced(t.mapInfo)
    ensures forall k :: k in t.mapInfo ==> Referenced(t0.mapInfo[k])
    ensures nLostUnk + |t.mapInfo.Keys| == |t0.mapInfo.Keys|
    ensures AllReferenced(t0.mapInfo) ==> t == t0 && nLostUnk == 0
  {
    hide Ascending, Delete, Sound, PrunedUpTo, AllReferenced, Pruning, Referenced, PrunesTables;
    t, nLostUnk := t0, 0;
    PrunesNothing(e, t0);
    var ids := InOrder(t0.mapInfo.Keys);
    PruneBegins(t0, ids);
    for i := 0 to |ids|
      invariant PrunedUpTo(t0, t, ids, i, nLostUnk) && PrunesTables(e, t0, t, nLostUnk)
    {
      PruneFinds(t0, t, ids, i, nLostUnk);
      if Referenced(t.mapInfo[ids[i]]) {
        PruneKeeps(t0, t, ids, i, nLostUnk);
      } else {
        PruneDrops(t0, t, ids, i, nLostUnk);
        PrunesTablesNext(e, t0, t, nLostUnk, ids, i);
        t := Delete(t, ids[i]);
        nLostUnk := nLostUnk + 1;
      }
    }
    PruneEnds(t0, t, ids, nLostUnk);
  }

  /** Pruning keeps the tables and takes what it drops off the number of new entries. */
  ghost predicate PrunesTables(e: Env, t0: State, t: State, n: nat) {
    && (Tabled(e, t0) ==> Tabled(e, t)) && t.nNew == t0.nNew - n && t.nTried == t0.nTried
    && forall x, y :: I.Counted(t0.mapInfo, x, y) ==> I.Counted(t.mapInfo, x - n, y)
  }

  lemma PrunesNothing(e: Env, t: State)
    ensures PrunesTables(e, t, t, 0)
  {}

  lemma PrunesTablesNext(e: Env, t0: State, t: State, n: nat, ids: seq<int>, i: nat)
    requires PrunesTables(e, t0, t, n) && PrunedUpTo(t0, t, ids, i, n) && i < |ids| && CanDelete(t, ids[i])
    ensures PrunesTables(e, t0, Delete(t, ids[i]), n + 1)
  {
    hide Tabled, I.Counted, Delete, I.Shuffled, CanDelete, Pruning;
    var id := ids[i];
    if Tabled(e, t) { DeleteTabled(e, t, id); }
    DeleteNumbers(t, id);
    forall x, y | I.Counted(t.mapInfo, x, y) ensures I.Counted(Delete(t, id).mapInfo, x - 1, y) {
      DeleteCounted(t, id, x, y);
    }
    forall x, y | I.Counted(t0.mapInfo, x, y) ensures I.Counted(Delete(t, id).mapInfo, x - (n + 1), y) {
      assert I.Counted(t.mapInfo, x - n, y);
    }
  }

  lemma DeleteNumbers(t: State, id: int)
    requires CanDelete(t, id)
    ensures Delete(t, id).nNew == t.nNew - 1 && Delete(t, id).nTried == t.nTried
  {}

  lemma PruneBegins(t0: State, ids: seq<int>)
    requires Sound(t0) && forall x :: x in ids ==> x in t0.mapInfo.Keys
    ensures PrunedUpTo(t0, t0, ids, 0, 0)
  {
    hide Sound;
    forall k | k in t0.mapInfo ensures I.SameButPos(t0.mapInfo[k], t0.mapInfo[k]) {
      var i := t0.mapInfo[k];
      assert i.(nRandomPos := i.nRandomPos) == i;
    }
    forall k | 0 <= k < |ids| ensures ids[k] in t0.mapInfo {
      var x := ids[k];
      assert x in ids;
      assert x in t0.mapInfo.Keys;
    }
  }

  lemma PruneFinds(t0: State, t: State, ids: seq<int>, i: nat, n: nat)
    requires PrunedUpTo(t0, t, ids, i, n) && i < |ids|
    ensures ids[i] in t.mapInfo
  {}

  lemma PruneEnds(t0: State, t: State, ids: seq<int>, n: nat)
    requires PrunedUpTo(t0, t, ids, |ids|, n) && forall x :: x in t0.mapInfo.Keys ==> x in ids
    ensures Sound(t) && Pruning(t0.mapInfo, t.mapInfo) && n + |t.mapInfo.Keys| == |t0.mapInfo.Keys|
    ensures AllReferenced(t.mapInfo) && forall k :: k in t.mapInfo ==> Referenced(t0.mapInfo[k])
    ensures AllReferenced(t0.mapInfo) ==> t == t0 && n == 0
  {
    hide Sound, Referenced, I.SameButPos;
    forall k | k in t.mapInfo ensures Referenced(t0.mapInfo[k]) && Referenced(t.mapInfo[k]) {
      assert k in ids;
      SameReferenced(t0.mapInfo[k], t.mapInfo[k]);
    }
  }

  /** The random order is that of the entries, both tables hold exactly the cells the entries hash to and count, and the
      counters are right. */
  ghost predicate TablesInOrder(e: Env, t: State) {
    I.Shuffled(t.mapInfo, t.vRandom) && Tabled(e, t) && I.Counted(t.mapInfo, t.nNew, t.nTried)
  }

  lemma CountedIsNat(m: I.Infos, x: int, y: int)
    requires I.Counted(m, x, y)
    ensures x >= 0 && y >= 0
  {}

  lemma SidesAside(e: Env, t: State, n: int)
    ensures Tabled(e, t) ==> Tabled(e, t.(nTried := n))
    ensures Sided(t) ==> Sided(t.(nTried := n))
    ensures Sound(t) ==> Sound(t.(nTried := n))
  {}

  /** What Serialize wrote is read back with nothing lost, whatever s was. After any file that is not refused everything
      is in order if and only if neither count was negative, and no entry is left unreferenced. */
  method Unserialize(e: Env, img: Image, ghost s: State) returns (r: Outcome)
    ensures r.Failed? <==>
              || img.nKeySize != 32 || !Readable(img)
              || img.nNew > NEW_BUCKET_COUNT * BUCKET_SIZE || img.nTried > TRIED_BUCKET_COUNT * BUCKET_SIZE
    ensures r.Read? ==> Sound(r.state) && AllReferenced(r.state.mapInfo)
    ensures r.Read? ==> (TablesInOrder(e, r.state) <==> img.nNew >= 0 && img.nTried >= 0)
    ensures Genuine(e, s, img) ==> r.Read? && r.nLost == 0 && r.nLostUnk == 0 && Restores(s, r.state)
  {
    hide I.Consistent, Serialized, I.Shuffled, Loading, LoadedAddrs, LoadedTried, ReffedInfos, ReffedCells, Restores,
         ReadOrder, Tabled, Sided, I.Counted, Readable;
    if Genuine(e, s, img) { GenuineSizes(e, s, img); }
    if img.nKeySize != 32 || !Readable(img) {
      return Failed;
    }
    if img.nNew > NEW_BUCKET_COUNT * BUCKET_SIZE {
      return Failed;
    }
    if img.nTried > TRIED_BUCKET_COUNT * BUCKET_SIZE {
      return Failed;
    }
    var t := ReadNew(e, img, s);
    var nLost;
    t, nLost := ReadTried(e, img, t, s);
    SidesAside(e, t, t.nTried - nLost);
    t := t.(nTried := t.nTried - nLost);
    if Genuine(e, s, img) { ReffingBegins(e, s, t); }
    t := ReadBuckets(e, img, t, s);
    if Genuine(e, s, img) { AllIsRestored(e, s, t); }
    var nLostUnk;
    t, nLostUnk := Prune(t, e);
    r := Read(t, nLost, nLostUnk);
    if I.Counted(t.mapInfo, t.nNew, t.nTried) { CountedIsNat(t.mapInfo, t.nNew, t.nTried); }
  }

  // ---- what is read back is consistent again

  /** Number k of the restored state is the k-th entry read, renumbered. */
  lemma RestoredKth(e: Env, s: State, t: State, k: int)
    requires I.Consistent(e, s) && Restores(s, t) && k in t.mapInfo
    ensures Covered(s) && 0 <= k < |ReadOrder(s)| == |s.mapInfo|
    ensures ReadOrder(s)[k] in s.mapInfo && Renumber(s, ReadOrder(s)[k]) == k
    ensures t.mapInfo[k] == Survives(Kth(s, k), k)
  {
    hide I.Consistent, ReadOrder, Renumber;
    Renumbered(e, s, k);
  }

  lemma RestoredIndex(e: Env, s: State, t: State)
    requires I.Consistent(e, s) && Restores(s, t)
    ensures I.Indexed(t.nIdCount, t.mapInfo, t.mapAddr)
  {
    hide I.Consistent, ReadOrder, Renumber;
    forall id | id in t.mapInfo
      ensures t.mapInfo[id].service.net in t.mapAddr && t.mapAddr[t.mapInfo[id].service.net] == id
    {
      RestoredKth(e, s, t, id);
      AddressedBy(e, s, Kth(s, id).service.net, ReadOrder(s)[id]);
    }
    forall a | a in t.mapAddr ensures t.mapAddr[a] in t.mapInfo && t.mapInfo[t.mapAddr[a]].service.net == a {
      AddressedBy(e, s, a, s.mapAddr[a]);
    }
  }

  lemma RestoredRefs(e: Env, s: State, t: State, k: int)
    requires I.Consistent(e, s) && Restores(s, t) && k in t.mapInfo
    ensures t.mapInfo[k].nRefCount == |Refs(t.vvNew, k)|
  {
    hide I.Consistent, ReadOrder;
    RestoredKth(e, s, t, k);
    var id := ReadOrder(s)[k];
    AllRefs(e, s, id);
    assert Refs(s.vvNew, id) * s.vvNew.Keys == Refs(s.vvNew, id);
    forall c | c in s.vvNew ensures t.vvNew[c] == k <==> s.vvNew[c] == id {
      NewHolder(e, s, c);
      var j := NumberOfId(e, s, s.vvNew[c]);
    }
    assert Refs(t.vvNew, k) == Refs(s.vvNew, id);
  }

  lemma NewHolder(e: Env, s: State, c: Cell)
    requires I.Consistent(e, s) && c in s.vvNew
    ensures s.vvNew[c] in s.mapInfo && c.bucket < NEW_BUCKET_COUNT
    ensures c == e.CellIn(s.nKey, s.mapInfo[s.vvNew[c]].service, c.bucket)
  {
    hide I.Indexed, I.Shuffled, I.TriedTable, I.Entries, I.Counted, I.Pending, Env.CellIn;
  }

  lemma RestoredNew(e: Env, s: State, t: State)
    requires I.Consistent(e, s) && Restores(s, t)
    ensures I.NewTable(e, t.nKey, t.mapInfo, t.vvNew)
  {
    hide I.Consistent, ReadOrder, Renumber, Env.CellIn, Refs;
    forall c | c in t.vvNew
      ensures t.vvNew[c] in t.mapInfo && c.bucket < NEW_BUCKET_COUNT
      ensures c == e.CellIn(t.nKey, t.mapInfo[t.vvNew[c]].service, c.bucket)
    {
      NewHolder(e, s, c);
    }
    forall k | k in t.mapInfo ensures t.mapInfo[k].nRefCount == |Refs(t.vvNew, k)| {
      RestoredRefs(e, s, t, k);
    }
  }

  lemma TriedHolder(e: Env, s: State, c: Cell, id: int)
    requires I.Consistent(e, s)
    ensures c in s.vvTried ==> s.vvTried[c] in s.mapInfo && s.mapInfo[s.vvTried[c]].fInTried
    ensures c in s.vvTried ==> c == e.TriedCell(s.nKey, s.mapInfo[s.vvTried[c]].service)
    ensures id in s.mapInfo && s.mapInfo[id].fInTried && c == e.TriedCell(s.nKey, s.mapInfo[id].service) ==>
              c in s.vvTried && s.vvTried[c] == id
  {
    hide I.Indexed, I.Shuffled, I.NewTable, I.Entries, I.Counted, I.Pending, Env.TriedCell;
  }

  lemma RestoredTried(e: Env, s: State, t: State)
    requires I.Consistent(e, s) && Restores(s, t)
    ensures I.TriedTable(e, t.nKey, t.mapInfo, t.vvTried)
  {
    hide I.Consistent, ReadOrder, Renumber, Env.TriedCell;
    forall c | c in t.vvTried
      ensures t.vvTried[c] in t.mapInfo && t.mapInfo[t.vvTried[c]].fInTried
      ensures c == e.TriedCell(t.nKey, t.mapInfo[t.vvTried[c]].service)
    {
      TriedHolder(e, s, c, 0);
    }
    forall id | id in t.mapInfo && t.mapInfo[id].fInTried
      ensures var c := e.TriedCell(t.nKey, t.mapInfo[id].service); c in t.vvTried && t.vvTried[c] == id
    {
      RestoredKth(e, s, t, id);
      TriedHolder(e, s, e.TriedCell(s.nKey, Kth(s, id).service), ReadOrder(s)[id]);
    }
  }

  lemma RangeCounts(m: I.Infos, nNew: nat, nTried: nat)
    requires forall k :: k in m <==> 0 <= k < nNew + nTried
    requires forall k :: k in m ==> m[k].fInTried == (k >= nNew)
    ensures I.Counted(m, nNew, nTried)
  {
    var v, w := seq(nNew, k => k), seq(nTried, k => nNew + k);
    forall x ensures x in v <==> x in I.Untried(m) {
      assert 0 <= x < nNew ==> v[x] == x;
    }
    forall x ensures x in w <==> x in I.Tried(m) {
      assert nNew <= x < nNew + nTried ==> w[x - nNew] == x;
    }
    DistinctCounts(v, I.Untried(m));
    DistinctCounts(w, I.Tried(m));
  }

  lemma RestoredCounts(e: Env, s: State, t: State)
    requires I.Consistent(e, s) && Restores(s, t)
    ensures I.Entries(t.mapInfo, {}) && I.Counted(t.mapInfo, t.nNew, t.nTried)
  {
    hide I.Core, I.Pending, I.Counted, ReadOrder, Renumber, Survives;
    OrderCovers(e, s);
    forall k | k in t.mapInfo
      ensures I.Entry(t.mapInfo[k], false) && t.mapInfo[k].fInTried == (k >= s.nNew)
    {
      RestoredEntry(e, s, t, k);
    }
    RangeCounts(t.mapInfo, s.nNew, s.nTried);
  }

  lemma RestoredEntry(e: Env, s: State, t: State, k: int)
    requires I.Consistent(e, s) && Restores(s, t) && k in t.mapInfo
    ensures I.Entry(t.mapInfo[k], false) && t.mapInfo[k].fInTried == (k >= s.nNew)
  {
    hide I.Core, I.Pending, ReadOrder, Renumber;
    RestoredKth(e, s, t, k);
    I.EntryOf(e, s, ReadOrder(s)[k]);
  }

  lemma RestoredShuffle(e: Env, s: State, t: State)
    requires I.Consistent(e, s) && Restores(s, t)
    ensures I.Shuffled(t.mapInfo, t.vRandom)
  {
    hide I.Consistent, ReadOrder, Renumber;
    forall k | k in t.mapInfo ensures t.mapInfo[k].nRandomPos == k { RestoredKth(e, s, t, k); }
  }

  lemma RestoredIsConsistent(e: Env, s: State, t: State)
    requires I.Consistent(e, s) && Restores(s, t)
    ensures I.Consistent(e, t)
  {
    hide I.Indexed, I.Shuffled, I.NewTable, I.TriedTable, I.Entries, I.Counted, Renumber;
    RestoredShuffle(e, s, t);
    RestoredIndex(e, s, t);
    RestoredNew(e, s, t);
    RestoredTried(e, s, t);
    RestoredCounts(e, s, t);
  }
}
