/** The steps of reading an address manager, and what they keep whatever the file holds. */
module AddrManSteps {
  import opened AddrManModel
  import opened AddrManDisk
  import I = AddrManInvariant
  import Order

  // ---- the steps of Unserialize

  /** Entry n of the new table. Without usable bucket data it gets its primary cell, if free. */
  function LoadNew(e: Env, t: State, n: int, d: DiskInfo, usable: bool): State {
    var i := Loaded(d).(nRandomPos := |t.vRandom|);
    var c := e.NewCell(t.nKey, d.service, d.source);
    var claim := !usable && c !in t.vvNew;
    t.(mapInfo := t.mapInfo[n := if claim then i.(nRefCount := 1) else i],
       mapAddr := t.mapAddr[d.service.net := n],
       vRandom := t.vRandom + [n],
       vvNew := if claim then t.vvNew[c := n] else t.vvNew)
  }

  predicate TriedFree(e: Env, t: State, d: DiskInfo) {
    e.TriedCell(t.nKey, d.service) !in t.vvTried
  }

  /** Writing -1 to a cell leaves it empty. */
  function Stored(t: Table, c: Cell, id: int): Table {
    if id == -1 then t - {c} else t[c := id]
  }

  /** An entry of the tried table whose cell is free. */
  function LoadTried(e: Env, t: State, d: DiskInfo): State {
    var i := Loaded(d).(nRandomPos := |t.vRandom|, fInTried := true);
    t.(vRandom := t.vRandom + [t.nIdCount],
       mapInfo := t.mapInfo[t.nIdCount := i],
       mapAddr := t.mapAddr[d.service.net := t.nIdCount],
       vvTried := Stored(t.vvTried, e.TriedCell(t.nKey, d.service), t.nIdCount),
       nIdCount := t.nIdCount + 1)
  }

  /** One index of bucket b. */
  function LoadRef(e: Env, t: State, b: nat, nIndex: int, usable: bool): State {
    if !(0 <= nIndex < t.nNew && nIndex in t.mapInfo) then t
    else
      var i := t.mapInfo[nIndex];
      var c := e.CellIn(t.nKey, i.service, b);
      if usable && c !in t.vvNew && i.nRefCount < NEW_BUCKETS_PER_ADDRESS
      then t.(mapInfo := t.mapInfo[nIndex := i.(nRefCount := i.nRefCount + 1)], vvNew := t.vvNew[c := nIndex])
      else t
  }

  // ---- the tables

  ghost predicate RefsInRange(m: I.Infos) {
    forall id :: id in m ==>
      0 <= m[id].nRefCount <= NEW_BUCKETS_PER_ADDRESS && (m[id].fInTried ==> m[id].nRefCount == 0)
  }

  /** Both tables hold exactly the cells the entries hash to and count. */
  ghost predicate Tabled(e: Env, t: State) {
    && I.NewTable(e, t.nKey, t.mapInfo, t.vvNew) && I.TriedTable(e, t.nKey, t.mapInfo, t.vvTried)
    && RefsInRange(t.mapInfo)
  }

  /** Only entries from nNew on are tried. */
  ghost predicate Sided(t: State) {
    forall id :: id in t.mapInfo && t.mapInfo[id].fInTried ==> id >= t.nNew
  }

  lemma NothingTabled(e: Env, t: State)
    requires t.mapInfo == map[] && t.vvNew == map[] && t.vvTried == map[]
    ensures Tabled(e, t) && Sided(t) && I.Counted(t.mapInfo, 0, 0)
  {
    assert I.Untried(t.mapInfo) == {} by { NoneUntried(t.mapInfo); }
    assert I.Tried(t.mapInfo) == {} by { NoneUntried(t.mapInfo); }
  }

  lemma NoneUntried(m: I.Infos)
    requires m == map[]
    ensures I.Untried(m) == {} && I.Tried(m) == {}
  {
    var a, b := I.Untried(m), I.Tried(m);
    forall id ensures id !in a && id !in b {}
    if a != {} {
      Order.HasMember(a);
      assert false;
    }
    if b != {} {
      Order.HasMember(b);
      assert false;
    }
  }

  /** An entry gains a cell. */
  lemma CellGained(e: Env, key: nat, m: I.Infos, t: Table, id: int, c: Cell)
    requires I.NewTable(e, key, m, t) && id in m && c !in t
    requires c.bucket < NEW_BUCKET_COUNT && c == e.CellIn(key, m[id].service, c.bucket)
    ensures I.NewTable(e, key, m[id := m[id].(nRefCount := m[id].nRefCount + 1)], t[c := id])
  {
    var u := t[c := id];
    assert Refs(u, id) == Refs(t, id) + {c};
    forall x | x in m && x != id ensures Refs(u, x) == Refs(t, x) {}
    I.Rereffed(e, key, m, t, id, u);
  }

  lemma LoadNewTabled(e: Env, t: State, n: int, d: DiskInfo, usable: bool)
    requires Tabled(e, t) && n !in t.mapInfo
    ensures Tabled(e, LoadNew(e, t, n, d, usable))
  {
    var i := Loaded(d).(nRandomPos := |t.vRandom|);
    var c := e.NewCell(t.nKey, d.service, d.source);
    hide I.NewTable, I.TriedTable;
    I.GrowNew(e, t.nKey, t.mapInfo, t.vvNew, n, i);
    I.GrowTried(e, t.nKey, n, t.mapInfo, t.vvTried, i);
    I.GrowTried(e, t.nKey, n, t.mapInfo, t.vvTried, i.(nRefCount := 1));
    if !usable && c !in t.vvNew {
      CellGained(e, t.nKey, t.mapInfo[n := i], t.vvNew, n, c);
      assert t.mapInfo[n := i][n := i.(nRefCount := 1)] == t.mapInfo[n := i.(nRefCount := 1)];
    }
  }

  lemma LoadNewCounted(e: Env, t: State, n: int, d: DiskInfo, usable: bool, a: int, b: int)
    requires I.Counted(t.mapInfo, a, b) && n !in t.mapInfo
    ensures I.Counted(LoadNew(e, t, n, d, usable).mapInfo, a + 1, b)
  {
    I.GrowCounts(t.mapInfo, a, b, n, LoadNew(e, t, n, d, usable).mapInfo[n]);
  }

  /** A tried entry whose cell is free gets it, unless its id is the mark of an empty cell. */
  lemma LoadTriedTable(e: Env, t: State, d: DiskInfo)
    requires I.TriedTable(e, t.nKey, t.mapInfo, t.vvTried) && t.nIdCount !in t.mapInfo && TriedFree(e, t, d)
    ensures var u := LoadTried(e, t, d);
            I.TriedTable(e, u.nKey, u.mapInfo, u.vvTried) <==> t.nIdCount != -1
  {
    hide Env.TriedCell;
    var u := LoadTried(e, t, d);
    var c := e.TriedCell(t.nKey, d.service);
    assert t.nIdCount in u.mapInfo && u.mapInfo[t.nIdCount].fInTried && u.mapInfo[t.nIdCount].service == d.service;
    if t.nIdCount == -1 { assert c !in u.vvTried; }
  }

  lemma LoadTriedTabled(e: Env, t: State, d: DiskInfo)
    requires Tabled(e, t) && t.nIdCount !in t.mapInfo && t.nIdCount != -1 && TriedFree(e, t, d)
    ensures Tabled(e, LoadTried(e, t, d))
  {
    LoadTriedTable(e, t, d);
    hide I.NewTable, I.TriedTable;
    I.GrowNew(e, t.nKey, t.mapInfo, t.vvNew, t.nIdCount, LoadTried(e, t, d).mapInfo[t.nIdCount]);
  }

  lemma LoadTriedCounted(e: Env, t: State, d: DiskInfo, a: int, b: int)
    requires I.Counted(t.mapInfo, a, b) && t.nIdCount !in t.mapInfo
    ensures I.Counted(LoadTried(e, t, d).mapInfo, a, b + 1)
  {
    var m, u := t.mapInfo, LoadTried(e, t, d).mapInfo;
    assert I.Untried(u) == I.Untried(m);
    assert I.Tried(u) == I.Tried(m) + {t.nIdCount};
  }

  lemma LoadRefTabled(e: Env, t: State, b: nat, nIndex: int, usable: bool)
    requires Tabled(e, t) && Sided(t) && (usable ==> b < NEW_BUCKET_COUNT)
    ensures Tabled(e, LoadRef(e, t, b, nIndex, usable)) && Sided(LoadRef(e, t, b, nIndex, usable))
  {
    hide I.NewTable, I.TriedTable;
    var u := LoadRef(e, t, b, nIndex, usable);
    if u != t {
      CellGained(e, t.nKey, t.mapInfo, t.vvNew, nIndex, e.CellIn(t.nKey, t.mapInfo[nIndex].service, b));
      I.KeepsTried(e, t.nKey, t.mapInfo, u.mapInfo, t.vvTried);
    }
  }

  lemma LoadRefCounted(e: Env, t: State, b: nat, nIndex: int, usable: bool, x: int, y: int)
    requires I.Counted(t.mapInfo, x, y)
    ensures I.Counted(LoadRef(e, t, b, nIndex, usable).mapInfo, x, y)
  {
    I.KeepsCounts(t.mapInfo, LoadRef(e, t, b, nIndex, usable).mapInfo, x, y);
  }

  lemma DeleteTabled(e: Env, t: State, id: int)
    requires I.Shuffled(t.mapInfo, t.vRandom) && CanDelete(t, id)
    requires Tabled(e, t)
    ensures Tabled(e, Delete(t, id))
  {
    hide I.Shuffled, I.NewTable, I.TriedTable, SwapRandom;
    var i, last := t.mapInfo[id].nRandomPos, |t.vRandom| - 1;
    I.SwappedToEnd(t, id);
    I.SwapKeeps(t, i, last);
    var u := SwapRandom(t, i, last);
    I.KeepsNew(e, t.nKey, t.mapInfo, u.mapInfo, t.vvNew);
    I.KeepsTried(e, t.nKey, t.mapInfo, u.mapInfo, t.vvTried);
    I.DropNew(e, u.nKey, u.mapInfo, u.vvNew, id);
    I.DropTried(e, u.nKey, u.mapInfo, u.vvTried, id);
  }

  lemma DeleteCounted(t: State, id: int, a: int, b: int)
    requires I.Shuffled(t.mapInfo, t.vRandom) && CanDelete(t, id) && I.Counted(t.mapInfo, a, b)
    ensures I.Counted(Delete(t, id).mapInfo, a - 1, b)
    ensures Delete(t, id).nNew == t.nNew - 1 && Delete(t, id).nTried == t.nTried
  {
    hide I.Shuffled, I.Counted, SwapRandom;
    var i, last := t.mapInfo[id].nRandomPos, |t.vRandom| - 1;
    I.SwappedToEnd(t, id);
    I.SwapKeeps(t, i, last);
    var u := SwapRandom(t, i, last);
    I.KeepsCounts(t.mapInfo, u.mapInfo, a, b);
    I.DropCounts(u.mapInfo, a, b, id);
  }

  /** A file announcing minus one new entries and one tried: the tried entry gets the id -1, and its cell stays
      empty. */
  lemma NegativeCountLosesCell(e: Env, key: nat, d: DiskInfo)
    ensures var t := Cleared(key).(nNew := -1, nTried := 1, nIdCount := -1);
            var u := LoadTried(e, t, d);
            && TriedFree(e, t, d) && u.mapInfo.Keys == {-1} && u.mapInfo[-1].fInTried && u.vvTried == map[]
            && !I.TriedTable(e, u.nKey, u.mapInfo, u.vvTried)
  {
    LoadTriedTable(e, Cleared(key).(nNew := -1, nTried := 1, nIdCount := -1), d);
  }
}
