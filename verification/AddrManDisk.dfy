/** The on-disk form of the address manager. The tried table, the address index and the cell positions
    are never written; reading rebuilds them. */
module AddrManDisk {
  import opened AddrManModel
  import I = AddrManInvariant
  import opened Order

  /** The serialized members of an entry. */
  datatype DiskInfo = DiskInfo(
    service: Service, nTime: nat, nServices: Services, source: NetAddr, nLastSuccess: int, nAttempts: int)

  /** The stream, field by field; each bucket is its length-prefixed list of indexes. */
  datatype Image = Image(
    nVersion: nat, nKeySize: nat, nKey: nat, nNew: int, nTried: int, nUBuckets: int,
    newInfos: seq<DiskInfo>, triedInfos: seq<DiskInfo>, buckets: seq<seq<int>>)

  /** n ^ (1 << 30) of a 32-bit integer; dividing rounds down, so bit 30 of a negative number is read right too. */
  function Flip30(n: int): int {
    if n / 0x4000_0000 % 2 == 0 then n + 0x4000_0000 else n - 0x4000_0000
  }

  lemma Flip30Twice(n: int)
    ensures Flip30(Flip30(n)) == n
  {}

  function Disk(i: Info): DiskInfo {
    DiskInfo(i.service, i.nTime, i.nServices, i.source, i.nLastSuccess, i.nAttempts)
  }

  /** A CAddrInfo as Init() and reading leave it. */
  function Loaded(d: DiskInfo): Info {
    Info(d.service, d.nTime, d.nServices, d.source, 0, 0, d.nLastSuccess, d.nAttempts, 0, false, -1)
  }

  ghost function Referenced(m: I.Infos): set<int> {
    set id | id in m && m[id].nRefCount != 0
  }

  ghost function Ids(s: State): seq<int> { Ascending(s.mapInfo.Keys) }

  ghost function NewIds(s: State): seq<int> { Select(Ids(s), Referenced(s.mapInfo)) }

  ghost function TriedIds(s: State): seq<int> { Select(Ids(s), I.Tried(s.mapInfo)) }

  ghost function Persisted(m: I.Infos, ids: seq<int>): (v: seq<DiskInfo>)
    requires forall i :: 0 <= i < |ids| ==> ids[i] in m
  {
    seq(|ids|, k requires 0 <= k < |ids| => Disk(m[ids[k]]))
  }

  /** The occupied cells of bucket b at positions below p. */
  ghost function Occupied(t: Table, b: nat, p: nat): (v: seq<Cell>)
    ensures forall i :: 0 <= i < |v| ==> v[i] in t && v[i].bucket == b && v[i].pos < p
    ensures forall i, j :: 0 <= i < j < |v| ==> v[i] != v[j]
    ensures forall c :: c in t && c.bucket == b && c.pos < p ==> c in v
  {
    if p == 0 then []
    else Occupied(t, b, p - 1) + if Cell(b, p - 1) in t then [Cell(b, p - 1)] else []
  }

  /** What is written for an id of the new table: its position among the new entries. */
  ghost function Number(ids: seq<int>, id: int): int {
    if id in ids then IndexOf(ids, id) else -1
  }

  ghost function Row(t: Table, ids: seq<int>, b: nat, p: nat): (r: seq<int>)
    ensures |r| == |Occupied(t, b, p)|
    ensures forall k :: 0 <= k < |r| ==> r[k] == Number(ids, t[Occupied(t, b, p)[k]])
  {
    seq(|Occupied(t, b, p)|, k requires 0 <= k < |Occupied(t, b, p)| => Number(ids, t[Occupied(t, b, p)[k]]))
  }

  ghost function Serialized(s: State): Image
    requires s.nNew >= 0 && s.nTried >= 0
  {
    Image(1, 32, s.nKey, s.nNew, s.nTried, Flip30(NEW_BUCKET_COUNT),
          Persisted(s.mapInfo, NewIds(s)), Persisted(s.mapInfo, TriedIds(s)),
          seq(NEW_BUCKET_COUNT, b requires 0 <= b => Row(s.vvNew, NewIds(s), b, BUCKET_SIZE)))
  }

  lemma InOrderAndDistinct(s: State)
    ensures Increasing(NewIds(s)) && Increasing(TriedIds(s)) && Distinct(NewIds(s)) && Distinct(TriedIds(s))
  {
    hide Increasing, Distinct;
    SelectIncreases(Ids(s), Referenced(s.mapInfo));
    SelectIncreases(Ids(s), I.Tried(s.mapInfo));
    IncreasingDistinct(NewIds(s));
    IncreasingDistinct(TriedIds(s));
  }

  lemma IdsCounted(e: Env, s: State)
    requires I.Consistent(e, s)
    ensures |NewIds(s)| == s.nNew && |TriedIds(s)| == s.nTried
    ensures forall id :: id in NewIds(s) <==> id in s.mapInfo && !s.mapInfo[id].fInTried
    ensures forall id :: id in TriedIds(s) <==> id in s.mapInfo && s.mapInfo[id].fInTried
    ensures Increasing(NewIds(s)) && Increasing(TriedIds(s))
    ensures forall c :: c in s.vvNew ==> s.vvNew[c] in NewIds(s)
  {
    hide I.Indexed, I.Shuffled, I.TriedTable, I.Pending;
    forall id | id in s.mapInfo ensures s.mapInfo[id].nRefCount != 0 <==> !s.mapInfo[id].fInTried {
      I.EntryOf(e, s, id);
    }
    InOrderAndDistinct(s);
    hide Increasing, Distinct;
    DistinctCounts(NewIds(s), I.Untried(s.mapInfo));
    DistinctCounts(TriedIds(s), I.Tried(s.mapInfo));
    forall c | c in s.vvNew ensures s.vvNew[c] in NewIds(s) {
      I.Unreffed(e, s, {}, c);
    }
  }

  lemma PersistedGrows(m: I.Infos, ids: seq<int>, id: int)
    requires (forall i :: 0 <= i < |ids| ==> ids[i] in m) && id in m
    ensures Persisted(m, []) == [] && |Persisted(m, ids)| == |ids|
    ensures Persisted(m, ids + [id]) == Persisted(m, ids) + [Disk(m[id])]
  {}

  /** Both entry loops of Serialize: the entries with an id in chosen, in id order, at most count of them. */
  method WriteInfos(s: State, ghost chosen: set<int>, count: int, wanted: Info -> bool)
    returns (infos: seq<DiskInfo>, mapIds: map<int, int>)
    requires chosen == set id | id in s.mapInfo && wanted(s.mapInfo[id])
    requires |Select(Ids(s), chosen)| == count
    ensures forall id :: id in Select(Ids(s), chosen) ==>
              id in s.mapInfo && id in mapIds && mapIds[id] == Number(Select(Ids(s), chosen), id)
    ensures infos == Persisted(s.mapInfo, Select(Ids(s), chosen))
  {
    var ids := InOrder(s.mapInfo.Keys);
    hide Ascending, Increasing, Persisted, Select;
    infos, mapIds := [], map[];
    ghost var written: seq<int> := [];
    assert |Select([], chosen)| == 0 by { SelectNone(chosen); }
    assert Persisted(s.mapInfo, []) == [] by { PersistedNone(s.mapInfo); }
    assert ids[..0] == [];
    for i := 0 to |ids|
      invariant written == Select(ids[..i], chosen)
      invariant forall k :: 0 <= k < |written| ==> written[k] in s.mapInfo
      invariant infos == Persisted(s.mapInfo, written) && |infos| == |written|
      invariant forall k :: 0 <= k < |written| ==> written[k] in mapIds && mapIds[written[k]] == k
    {
      var id := ids[i];
      var nIds := |infos|;
      SelectNext(ids, chosen, i);
      mapIds := mapIds[id := nIds];
      if wanted(s.mapInfo[id]) {
        assert nIds != count;
        PersistedGrows(s.mapInfo, written, id);
        infos := infos + [Disk(s.mapInfo[id])];
        written := written + [id];
      }
    }
    assert ids[..|ids|] == ids;
    forall id | id in written ensures mapIds[id] == Number(written, id) {}
  }

  lemma SelectNone(xs: set<int>)
    ensures Select([], xs) == []
  {}

  lemma PersistedNone(m: I.Infos)
    ensures Persisted(m, []) == []
  {}

  lemma SelectNext(ids: seq<int>, xs: set<int>, i: nat)
    requires Increasing(ids) && i < |ids|
    ensures Select(ids[..i + 1], xs) == Select(ids[..i], xs) + if ids[i] in xs then [ids[i]] else []
    ensures ids[i] !in Select(ids[..i], xs)
    ensures ids[i] in xs ==> |Select(ids[..i], xs)| < |Select(ids, xs)|
  {
    assert ids[..i + 1][..i] == ids[..i];
    SelectPrefix(ids, xs, i + 1);
  }

  lemma RowGrows(t: Table, ids: seq<int>, b: nat, p: nat)
    ensures Row(t, ids, b, 0) == []
    ensures Row(t, ids, b, p + 1) == Row(t, ids, b, p) + if Cell(b, p) in t then [Number(ids, t[Cell(b, p)])] else []
  {
    var v, w := Occupied(t, b, p), Occupied(t, b, p + 1);
    assert forall k :: 0 <= k < |v| ==> w[k] == v[k];
  }

  method WriteBucket(s: State, b: nat, mapUnkIds: map<int, int>) returns (row: seq<int>)
    requires forall c :: c in s.vvNew ==>
              s.vvNew[c] in mapUnkIds && mapUnkIds[s.vvNew[c]] == Number(NewIds(s), s.vvNew[c])
    ensures row == Row(s.vvNew, NewIds(s), b, BUCKET_SIZE)
  {
    hide Row, Number, NewIds;
    row := [];
    RowGrows(s.vvNew, NewIds(s), b, 0);
    for i := 0 to BUCKET_SIZE
      invariant row == Row(s.vvNew, NewIds(s), b, i)
    {
      RowGrows(s.vvNew, NewIds(s), b, i);
      if Cell(b, i) in s.vvNew {
        var nIndex := mapUnkIds[s.vvNew[Cell(b, i)]];
        row := row + [nIndex];
      }
    }
  }

  method WriteBuckets(s: State, mapUnkIds: map<int, int>) returns (buckets: seq<seq<int>>)
    requires forall c :: c in s.vvNew ==>
              s.vvNew[c] in mapUnkIds && mapUnkIds[s.vvNew[c]] == Number(NewIds(s), s.vvNew[c])
    ensures buckets == seq(NEW_BUCKET_COUNT, b requires 0 <= b => Row(s.vvNew, NewIds(s), b, BUCKET_SIZE))
  {
    hide Row, Number, NewIds;
    buckets := [];
    for b := 0 to NEW_BUCKET_COUNT
      invariant |buckets| == b
      invariant forall k :: 0 <= k < b ==> buckets[k] == Row(s.vvNew, NewIds(s), k, BUCKET_SIZE)
    {
      var row := WriteBucket(s, b, mapUnkIds);
      buckets := buckets + [row];
    }
  }

  /** Neither counter assert of Serialize can fire, and what is written is a function of the state. */
  method Serialize(e: Env, s: State) returns (img: Image)
    requires I.Consistent(e, s)
    ensures s.nNew >= 0 && s.nTried >= 0 && img == Serialized(s)
  {
    hide I.Consistent, Row, Select, Number, Persisted, Increasing, Ascending;
    IdsCounted(e, s);
    var newInfos, mapUnkIds := WriteInfos(s, Referenced(s.mapInfo), s.nNew, (i: Info) => i.nRefCount != 0);
    var triedInfos, _ := WriteInfos(s, I.Tried(s.mapInfo), s.nTried, (i: Info) => i.fInTried);
    forall c | c in s.vvNew
      ensures s.vvNew[c] in mapUnkIds && mapUnkIds[s.vvNew[c]] == Number(NewIds(s), s.vvNew[c])
    {
      var id := s.vvNew[c];
      assert id in Select(Ids(s), Referenced(s.mapInfo));
    }
    var buckets := WriteBuckets(s, mapUnkIds);
    img := Image(1, 32, s.nKey, s.nNew, s.nTried, Flip30(NEW_BUCKET_COUNT), newInfos, triedInfos, buckets);
  }
}
