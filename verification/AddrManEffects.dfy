/** What Add_, Good_ and ResolveCollisions_ do to the tables and to each entry, from the outside. */
module AddrManEffects {
  import opened AddrManModel
  import opened AddrManInvariant
  import opened Powers

  // ---- what one operation may do to the others

  /** x has lost one reference, and is gone if it was the last. */
  ghost predicate LostOne(s: State, t: State, x: int)
    requires x in s.mapInfo
  {
    if s.mapInfo[x].nRefCount == 1 then x !in t.mapInfo
    else x in t.mapInfo && SameButPos(t.mapInfo[x], s.mapInfo[x].(nRefCount := s.mapInfo[x].nRefCount - 1))
  }

  /** Entries outside ids are as they were, up to their random position, but for the holder of new cell c. */
  ghost predicate OnlyHolderLost(s: State, t: State, c: Cell, ids: set<int>) {
    && t.mapInfo.Keys <= s.mapInfo.Keys + ids
    && forall x :: x in s.mapInfo && x !in ids ==>
         if c in s.vvNew && s.vvNew[c] == x then LostOne(s, t, x)
         else x in t.mapInfo && SameButPos(t.mapInfo[x], s.mapInfo[x])
  }

  /** id has taken new cell c, whoever held it. */
  ghost predicate TookCell(s: State, t: State, id: int, c: Cell) {
    && t.vvNew == s.vvNew[c := id] && t.vvTried == s.vvTried && t.collisions == s.collisions
    && OnlyHolderLost(s, t, c, {id})
  }

  lemma DeleteLeaves(s: State, id: int)
    requires CanDelete(s, id)
    ensures Delete(s, id).vvNew == s.vvNew && Delete(s, id).nLastGood == s.nLastGood
  {}

  lemma ClearLeaves(s: State, c: Cell)
    requires CanClear(s, c)
    ensures ClearNew(s, c).vvNew == s.vvNew - {c} && ClearNew(s, c).nLastGood == s.nLastGood
  {
    hide CanDelete, Delete;
    if c in s.vvNew && s.mapInfo[s.vvNew[c]].nRefCount == 1 {
      DeleteLeaves(Unref(s, c), s.vvNew[c]);
    }
  }

  lemma HolderLoses(e: Env, s: State, z: set<int>, c: Cell)
    requires Core(e, s, z) && CanClear(s, c) && c in s.vvNew && s.vvNew[c] in s.mapInfo
    ensures LostOne(s, ClearNew(s, c), s.vvNew[c])
  {
    hide Core, CanDelete, Delete;
    if s.mapInfo[s.vvNew[c]].nRefCount == 1 {
      Unreffed(e, s, z, c);
      Deleted(e, Unref(s, c), z + {s.vvNew[c]}, s.vvNew[c]);
    }
  }

  lemma ClearTakes(e: Env, s: State, z: set<int>, c: Cell)
    requires Core(e, s, z)
    ensures CanClear(s, c) && ClearNew(s, c).vvNew == s.vvNew - {c} && OnlyHolderLost(s, ClearNew(s, c), c, {})
    ensures ClearNew(s, c).nLastGood == s.nLastGood
  {
    hide Core, CanClear, ClearNew, LostOne;
    ClearedCell(e, s, z, c);
    ClearLeaves(s, c);
    if c in s.vvNew { HolderLoses(e, s, z, c); }
  }

  // ---- Add_

  /** The cell is empty, or its holder is not worth keeping. */
  ghost predicate Vacant(s: State, c: Cell, now: int) {
    c in s.vvNew ==> s.vvNew[c] in s.mapInfo && IsTerrible(s.mapInfo[s.vvNew[c]], now)
  }

  /** The holder of the cell would still have another one. */
  ghost predicate Spare(s: State, c: Cell) {
    c in s.vvNew && s.vvNew[c] in s.mapInfo && s.mapInfo[s.vvNew[c]].nRefCount > 1
  }

  function Less(time: nat, penalty: int): nat {
    if penalty > time then 0 else time - penalty
  }

  /** An address that was not known is stored in its cell or not at all. */
  ghost predicate Stranger(e: Env, s: State, t: State, addr: Address, source: NetAddr, penalty: int, now: int) {
    var id, a, c := s.nIdCount, addr.service.net, e.NewCell(s.nKey, addr.service, source);
    && (a in t.mapAddr <==> Vacant(s, c, now) || Spare(s, c))
    && (a !in t.mapAddr ==> t == s.(nIdCount := id + 1))
    && (a in t.mapAddr ==>
         && t.mapAddr[a] == id && id in t.mapInfo && TookCell(s, t, id, c) && t.nIdCount == id + 1
         && SameButPos(t.mapInfo[id],
                       Info(addr.service, Less(addr.nTime, penalty), addr.nServices, source, 0, 0, 0, 0, 1, false, 0)))
  }

  /** The time of a known entry moves when it lags an hour, or a day for news older than a day, and the penalty. */
  ghost predicate TimeMoves(was: nat, seen: nat, penalty: int, now: int) {
    seen != 0 && (was == 0 || was + penalty + (if now < seen + 86400 then 3600 else 86400) < seen)
  }

  /** A known address is brought up to date and may gain a cell. */
  ghost predicate Acquaintance(e: Env, s: State, t: State, addr: Address, source: NetAddr, penalty: int, now: int,
                               draw: nat)
    requires addr.service.net in s.mapAddr && s.mapAddr[addr.service.net] in s.mapInfo
  {
    var id := s.mapAddr[addr.service.net];
    var i := s.mapInfo[id];
    var c := e.NewCell(s.nKey, i.service, source);
    var time := if TimeMoves(i.nTime, addr.nTime, penalty, now) then Less(addr.nTime, penalty) else i.nTime;
    var j := i.(nTime := time, nServices := i.nServices + addr.nServices);
    var gains := && time < addr.nTime && !i.fInTried && i.nRefCount < 8 && draw == 0
                 && !(c in s.vvNew && s.vvNew[c] == id) && Vacant(s, c, now);
    if gains then
      id in t.mapInfo && SameButPos(t.mapInfo[id], j.(nRefCount := i.nRefCount + 1)) && TookCell(s, t, id, c)
    else t == s.(mapInfo := s.mapInfo[id := j])
  }

  ghost predicate AddEffect(e: Env, s: State, t: State, addr: Address, source: NetAddr, penalty: int, now: int,
                            draw: nat)
  {
    var p := if addr.service.net == source then 0 else penalty;
    && (!e.routable(addr.service.net) ==> t == s)
    && (e.routable(addr.service.net) && addr.service.net !in s.mapAddr ==> Stranger(e, s, t, addr, source, p, now))
    && (e.routable(addr.service.net) && addr.service.net in s.mapAddr ==>
         s.mapAddr[addr.service.net] in s.mapInfo && Acquaintance(e, s, t, addr, source, p, now, draw))
  }

  /** r is s with an entry id made or rewritten and nothing else that matters to the tables. */
  ghost predicate OnlyEntry(s: State, r: State, id: int) {
    && r.vvNew == s.vvNew && r.vvTried == s.vvTried && r.collisions == s.collisions
    && r.mapInfo.Keys == s.mapInfo.Keys + {id}
    && forall x :: x in s.mapInfo && x != id ==> r.mapInfo[x] == s.mapInfo[x]
  }

  lemma SeenFromBefore(s: State, r: State, w: State, id: int, c: Cell)
    requires OnlyEntry(s, r, id) && OnlyHolderLost(r, w, c, {}) && !(c in r.vvNew && r.vvNew[c] == id)
    ensures id in w.mapInfo && OnlyHolderLost(s, Enter(w, id, c), c, {id})
    ensures SameButPos(Enter(w, id, c).mapInfo[id], r.mapInfo[id].(nRefCount := r.mapInfo[id].nRefCount + 1))
  {
    assert SameButPos(w.mapInfo[id], r.mapInfo[id]);
    var t := Enter(w, id, c);
    forall x | x in s.mapInfo && x != id
      ensures if c in s.vvNew && s.vvNew[c] == x then LostOne(s, t, x)
              else x in t.mapInfo && SameButPos(t.mapInfo[x], s.mapInfo[x])
    {
      if c in r.vvNew && r.vvNew[c] == x { assert LostOne(r, w, x); }
    }
  }

  /** Taking a cell after the entry was made or refreshed, seen from before that. */
  lemma TakesCell(e: Env, s: State, r: State, z: set<int>, id: int, c: Cell)
    requires Core(e, r, z) && OnlyEntry(s, r, id) && !(c in r.vvNew && r.vvNew[c] == id)
    ensures CanClear(r, c) && id in ClearNew(r, c).mapInfo && TookCell(s, Enter(ClearNew(r, c), id, c), id, c)
    ensures SameButPos(Enter(ClearNew(r, c), id, c).mapInfo[id],
                       r.mapInfo[id].(nRefCount := r.mapInfo[id].nRefCount + 1))
    ensures Enter(ClearNew(r, c), id, c).nIdCount == r.nIdCount
  {
    hide Core, CanClear, ClearNew, OnlyHolderLost;
    ClearTakes(e, r, z, c);
    ClearKeeps(r, c);
    SeenFromBefore(s, r, ClearNew(r, c), id, c);
    assert Enter(ClearNew(r, c), id, c).vvNew == s.vvNew[c := id];
  }

  ghost predicate Made(e: Env, s: State, r: State, addr: Address, source: NetAddr, time: nat) {
    && addr.service.net !in s.mapAddr && s.nIdCount !in s.mapInfo
    && r == Create(s, addr, source, time).(nNew := s.nNew + 1)
  }

  lemma Unmade(e: Env, s: State, r: State, addr: Address, source: NetAddr, time: nat)
    requires Made(e, s, r, addr, source, time) && CanDelete(r, s.nIdCount)
    ensures Delete(r, s.nIdCount) == s.(nIdCount := s.nIdCount + 1)
  {
    assert r.vRandom[..|r.vRandom| - 1] == s.vRandom;
    assert r.mapAddr - {addr.service.net} == s.mapAddr;
    assert r.mapInfo - {s.nIdCount} == s.mapInfo;
  }

  lemma Contested(e: Env, s: State, r: State, addr: Address, source: NetAddr, time: nat, c: Cell, now: int)
    requires Made(e, s, r, addr, source, time) && NewTable(e, s.nKey, s.mapInfo, s.vvNew)
    ensures s.nIdCount in r.mapInfo && !(c in r.vvNew && r.vvNew[c] == s.nIdCount)
    ensures Overwrites(r, s.nIdCount, c, now) <==> Vacant(s, c, now) || Spare(s, c)
  {
    hide IsTerrible, Env.CellIn;
    if c in s.vvNew { assert s.vvNew[c] in s.mapInfo && r.mapInfo[s.vvNew[c]] == s.mapInfo[s.vvNew[c]]; }
  }

  lemma MadeOf(e: Env, s: State, addr: Address, source: NetAddr, penalty: int, now: int)
    requires Consistent(e, s) && addr.service.net !in s.mapAddr
    ensures var p := if addr.service.net == source then 0 else penalty;
            Made(e, s, Recorded(s, addr, source, penalty, now), addr, source, Less(addr.nTime, p))
  {}

  lemma StrangerAdded(e: Env, s: State, addr: Address, source: NetAddr, penalty: int, now: int, draw: nat)
    requires Consistent(e, s) && e.routable(addr.service.net) && addr.service.net !in s.mapAddr
    requires CanAdd(e, s, addr, source, penalty, now, draw)
    requires Consistent(e, Add(e, s, addr, source, penalty, now, draw))
    ensures var p := if addr.service.net == source then 0 else penalty;
            Stranger(e, s, Add(e, s, addr, source, penalty, now, draw), addr, source, p, now)
  {
    var t, r := Add(e, s, addr, source, penalty, now, draw), Recorded(s, addr, source, penalty, now);
    var p := if addr.service.net == source then 0 else penalty;
    var id, c := s.nIdCount, e.NewCell(s.nKey, addr.service, source);
    MadeOf(e, s, addr, source, penalty, now);
    RecordedWell(e, s, addr, source, penalty, now);
    KnownIsListed(e, s, addr.service.net);
    Contested(e, s, r, addr, source, Less(addr.nTime, p), c, now);
    StrangerFiled(e, s, r, t, addr, source, p, now, c);
  }

  lemma StrangerFiled(e: Env, s: State, r: State, t: State, addr: Address, source: NetAddr, p: int, now: int, c: Cell)
    requires Made(e, s, r, addr, source, Less(addr.nTime, p)) && Core(e, r, {s.nIdCount})
    requires CanFile(r, s.nIdCount, c, now) && t == File(r, s.nIdCount, c, now) && Consistent(e, t)
    requires c == e.NewCell(s.nKey, addr.service, source) && !(c in r.vvNew && r.vvNew[c] == s.nIdCount)
    requires Overwrites(r, s.nIdCount, c, now) <==> Vacant(s, c, now) || Spare(s, c)
    ensures Stranger(e, s, t, addr, source, p, now)
  {
    hide Core, Pending, Vacant, Spare, Overwrites, CanDelete, Delete, CanClear, ClearNew, TookCell, Env.NewCell;
    var id := s.nIdCount;
    if Overwrites(r, id, c, now) {
      TakesCell(e, s, r, {id}, id, c);
      LeadsBack(e, t, id);
    } else {
      Unmade(e, s, r, addr, source, Less(addr.nTime, p));
    }
  }

  lemma LeadsBack(e: Env, t: State, id: int)
    requires Consistent(e, t) && id in t.mapInfo
    ensures t.mapInfo[id].service.net in t.mapAddr && t.mapAddr[t.mapInfo[id].service.net] == id
  {}

  ghost predicate Renewed(s: State, r: State, id: int, addr: Address, p: int, now: int) {
    && id in s.mapInfo && s.mapInfo[id].service.net == addr.service.net
    && var i := s.mapInfo[id];
       var time := if TimeMoves(i.nTime, addr.nTime, p, now) then Less(addr.nTime, p) else i.nTime;
       r == s.(mapInfo := s.mapInfo[id := i.(nTime := time, nServices := i.nServices + addr.nServices)])
  }

  lemma RenewedOf(e: Env, s: State, addr: Address, source: NetAddr, penalty: int, now: int)
    requires Consistent(e, s) && addr.service.net in s.mapAddr
    ensures var p := if addr.service.net == source then 0 else penalty;
            Renewed(s, Recorded(s, addr, source, penalty, now), s.mapAddr[addr.service.net], addr, p, now)
  {}

  /** A consistent entry outside the tried table has a reference, so the stochastic test always draws. */
  lemma DeclinedIff(i: Info, addr: Address, draw: nat)
    requires Entry(i, false)
    ensures Declines(i, addr, draw) <==> !(i.nTime < addr.nTime && !i.fInTried && i.nRefCount < 8 && draw == 0)
  {
    if !i.fInTried { assert Pow2(i.nRefCount) == 2 * Pow2(i.nRefCount - 1); }
  }

  lemma VacantIff(e: Env, s: State, r: State, id: int, addr: Address, p: int, c: Cell, now: int)
    requires Renewed(s, r, id, addr, p, now) && NewTable(e, s.nKey, s.mapInfo, s.vvNew)
    requires !(c in s.vvNew && s.vvNew[c] == id) && s.mapInfo[id].nRefCount > 0
    ensures Overwrites(r, id, c, now) <==> Vacant(s, c, now)
  {
    hide IsTerrible, Env.CellIn;
    if c in s.vvNew { assert s.vvNew[c] in s.mapInfo && r.mapInfo[s.vvNew[c]] == s.mapInfo[s.vvNew[c]]; }
  }

  lemma RenewedFiles(e: Env, s: State, r: State, id: int, addr: Address, p: int, c: Cell, now: int)
    requires Core(e, s, {}) && Core(e, r, {}) && Renewed(s, r, id, addr, p, now) && !s.mapInfo[id].fInTried
    requires CanFile(r, id, c, now)
    ensures var t := File(r, id, c, now);
            if (c in s.vvNew && s.vvNew[c] == id) || !Vacant(s, c, now) then t == r
            else id in t.mapInfo && TookCell(s, t, id, c) &&
                 SameButPos(t.mapInfo[id], r.mapInfo[id].(nRefCount := r.mapInfo[id].nRefCount + 1))
  {
    EntryOf(e, s, id);
    if !(c in s.vvNew && s.vvNew[c] == id) {
      VacantIff(e, s, r, id, addr, p, c, now);
      hide Core, Vacant, Overwrites, CanDelete, Delete, CanClear, ClearNew, TookCell;
      if Overwrites(r, id, c, now) {
        TakesCell(e, s, r, {}, id, c);
      }
    }
  }

  lemma AcquaintanceAdded(e: Env, s: State, addr: Address, source: NetAddr, penalty: int, now: int, draw: nat)
    requires Consistent(e, s) && e.routable(addr.service.net) && addr.service.net in s.mapAddr
    requires CanAdd(e, s, addr, source, penalty, now, draw)
    ensures s.mapAddr[addr.service.net] in s.mapInfo
    ensures var p := if addr.service.net == source then 0 else penalty;
            Acquaintance(e, s, Add(e, s, addr, source, penalty, now, draw), addr, source, p, now, draw)
  {
    var p := if addr.service.net == source then 0 else penalty;
    var id, r := s.mapAddr[addr.service.net], Recorded(s, addr, source, penalty, now);
    RenewedOf(e, s, addr, source, penalty, now);
    RecordedWell(e, s, addr, source, penalty, now);
    KnownIsListed(e, s, addr.service.net);
    EntryOf(e, s, id);
    DeclinedIff(r.mapInfo[id], addr, draw);
    hide Core, Pending, Recorded, Declines, Vacant, TookCell, CanFile, File, Env.NewCell;
    var c := e.NewCell(s.nKey, s.mapInfo[id].service, source);
    assert r.mapInfo[id] == Refreshed(s.mapInfo[id], addr, Penalty(addr, source, penalty), now);
    if Files(e, s, addr, source, penalty, now, draw) {
      RenewedFiles(e, s, r, id, addr, p, c, now);
    }
  }

  /** Add_ stores a new address if and only if its cell is free, or held by an entry that is terrible or has another
      cell; gives a known one a further cell if and only if the news is later, it is not tried, has fewer than eight,
      the draw is 0 and the cell is free or its holder terrible; and leaves everybody else alone. */
  lemma AddTakesEffect(e: Env, s: State, addr: Address, source: NetAddr, penalty: int, now: int, draw: nat)
    requires Consistent(e, s)
    ensures CanAdd(e, s, addr, source, penalty, now, draw)
    ensures AddEffect(e, s, Add(e, s, addr, source, penalty, now, draw), addr, source, penalty, now, draw)
  {
    hide Consistent, CanAdd, Stranger, Acquaintance;
    Added(e, s, addr, source, penalty, now, draw);
    if e.routable(addr.service.net) {
      if addr.service.net in s.mapAddr {
        AcquaintanceAdded(e, s, addr, source, penalty, now, draw);
      } else {
        StrangerAdded(e, s, addr, source, penalty, now, draw);
      }
    }
  }

  // ---- Good_

  /** id, now as j says, holds tried cell c and no new cell; a former holder of c holds its primary new cell only. */
  ghost predicate Promoted(e: Env, s: State, t: State, id: int, j: Info, c: Cell) {
    && id in t.mapInfo && SameButPos(t.mapInfo[id], j.(fInTried := true, nRefCount := 0))
    && t.vvTried == s.vvTried[c := id] && t.collisions == s.collisions
    && (c !in s.vvTried ==>
         && t.vvNew == s.vvNew - Refs(s.vvNew, id) && t.mapInfo.Keys == s.mapInfo.Keys
         && forall x :: x in s.mapInfo && x != id ==> t.mapInfo[x] == s.mapInfo[x])
    && (c in s.vvTried ==>
         && s.vvTried[c] in s.mapInfo && s.vvTried[c] != id && s.vvTried[c] in t.mapInfo
         && var h := s.vvTried[c];
            var n := e.NewCell(s.nKey, s.mapInfo[h].service, s.mapInfo[h].source);
            && SameButPos(t.mapInfo[h], s.mapInfo[h].(fInTried := false, nRefCount := 1))
            && t.vvNew == (s.vvNew - Refs(s.vvNew, id))[n := h]
            && OnlyHolderLost(s, t, n, {id, h}))
  }

  /** The candidate waits, everything else stays. */
  ghost predicate Waits(s: State, t: State, id: int, j: Info) {
    && t == s.(mapInfo := s.mapInfo[id := j], nLastGood := t.nLastGood, collisions := t.collisions)
    && (id in t.collisions <==> id in s.collisions || |s.collisions| < 10)
    && t.collisions - {id} == s.collisions - {id}
  }

  ghost predicate GoodEffect(e: Env, s: State, t: State, a: Service, test: bool, time: int) {
    && t.nLastGood == time
    && (HasEntry(s, a) ==>
         var id := s.mapAddr[a.net];
         var j := s.mapInfo[id].(nLastSuccess := time, nLastTry := time, nAttempts := 0);
         var c := e.TriedCell(s.nKey, a);
         if s.mapInfo[id].fInTried then t == s.(mapInfo := s.mapInfo[id := j], nLastGood := time)
         else if test && c in s.vvTried then Waits(s, t, id, j)
         else Promoted(e, s, t, id, j, c))
    && (!HasEntry(s, a) ==> t == s.(nLastGood := time))
  }

  /** There is an entry for this address and this port. */
  ghost predicate HasEntry(s: State, a: Service) {
    a.net in s.mapAddr && s.mapAddr[a.net] in s.mapInfo && s.mapInfo[s.mapAddr[a.net]].service == a
  }

  lemma UntriedHasBucket(e: Env, s: State, id: int)
    requires Core(e, s, {}) && id in s.mapInfo && !s.mapInfo[id].fInTried
    ensures InSomeBucket(e, s, id)
  {
    EntryOf(e, s, id);
    hide Indexed, Shuffled, TriedTable, Counted, Entries;
    var refs := Refs(s.vvNew, id);
    if refs == {} { assert false; }
    var c :| c in refs;
    assert HoldsIn(e, s, id, c.bucket);
  }

  lemma PromotedToFree(e: Env, s: State, id: int)
    requires Core(e, s, {}) && id in s.mapInfo && CanMakeTried(e, s, id)
    requires e.TriedCell(s.nKey, s.mapInfo[id].service) !in s.vvTried
    ensures Promoted(e, s, MakeTried(e, s, id), id, s.mapInfo[id], e.TriedCell(s.nKey, s.mapInfo[id].service))
    ensures MakeTried(e, s, id).nLastGood == s.nLastGood
  {
    hide Core;
  }

  /** The state when the former holder of the tried cell is without a cell. */
  lemma Homeless(e: Env, s: State, id: int)
    requires Core(e, s, {}) && id in s.mapInfo && !s.mapInfo[id].fInTried
    requires e.TriedCell(s.nKey, s.mapInfo[id].service) in s.vvTried
    ensures var c := e.TriedCell(s.nKey, s.mapInfo[id].service);
            && s.vvTried[c] in s.mapInfo && s.vvTried[c] != id && s.mapInfo[s.vvTried[c]].nRefCount == 0
            && var u := Evict(DropRefs(s, id), c);
               && Core(e, u, {id, s.vvTried[c]}) && u.mapInfo[id].nRefCount == 0 && !u.mapInfo[id].fInTried
               && u.mapInfo[s.vvTried[c]].nRefCount == 0 && !u.mapInfo[s.vvTried[c]].fInTried
  {
    hide Core, Env.TriedCell;
    var c := e.TriedCell(s.nKey, s.mapInfo[id].service);
    RefsDropped(e, s, {}, id);
    assert {} + {id} == {id};
    var t := DropRefs(s, id);
    Evicted(e, t, {id}, c);
    assert {id} + {t.vvTried[c]} == {id, t.vvTried[c]};
  }

  /** Nobody without a reference holds a cell. */
  lemma HoldsNothing(e: Env, u: State, z: set<int>, x: int, n: Cell)
    requires Core(e, u, z) && x in u.mapInfo && u.mapInfo[x].nRefCount == 0
    ensures !(n in u.vvNew && u.vvNew[n] == x)
  {
    if n in u.vvNew && u.vvNew[n] == x { Unreffed(e, u, z, n); }
  }

  lemma PromotedOver(e: Env, s: State, id: int)
    requires Core(e, s, {}) && id in s.mapInfo && !s.mapInfo[id].fInTried && CanMakeTried(e, s, id)
    requires e.TriedCell(s.nKey, s.mapInfo[id].service) in s.vvTried
    ensures Promoted(e, s, MakeTried(e, s, id), id, s.mapInfo[id], e.TriedCell(s.nKey, s.mapInfo[id].service))
    ensures MakeTried(e, s, id).nLastGood == s.nLastGood
  {
    hide Core, CanClear, ClearNew, Env.TriedCell, Env.NewCell, OnlyHolderLost;
    var c := e.TriedCell(s.nKey, s.mapInfo[id].service);
    Homeless(e, s, id);
    var h := s.vvTried[c];
    var u := Evict(DropRefs(s, id), c);
    var n := e.NewCell(s.nKey, s.mapInfo[h].service, s.mapInfo[h].source);
    HoldsNothing(e, u, {id, h}, id, n);
    HoldsNothing(e, u, {id, h}, h, n);
    ClearTakes(e, u, {id, h}, n);
    ClearKeeps(u, n);
    Moved(s, u, ClearNew(u, n), id, h, n, c);
    var t := MakeTried(e, s, id);
    assert t.vvTried == s.vvTried[c := id];
    assert t.vvNew == (s.vvNew - Refs(s.vvNew, id))[n := h];
  }

  lemma Moved(s: State, u: State, w: State, id: int, h: int, n: Cell, c: Cell)
    requires id in s.mapInfo && h in s.mapInfo && id != h && c in s.vvTried && s.vvTried[c] == h
    requires u == Evict(DropRefs(s, id), c) && OnlyHolderLost(u, w, n, {})
    requires !(n in u.vvNew && u.vvNew[n] == id) && !(n in u.vvNew && u.vvNew[n] == h)
    requires s.mapInfo[h].nRefCount == 0
    ensures id in w.mapInfo && h in w.mapInfo
    ensures var t := TakeTried(Enter(w, h, n), id, c);
            && SameButPos(t.mapInfo[id], s.mapInfo[id].(fInTried := true, nRefCount := 0))
            && SameButPos(t.mapInfo[h], s.mapInfo[h].(fInTried := false, nRefCount := 1))
            && OnlyHolderLost(s, t, n, {id, h})
  {
    var t := TakeTried(Enter(w, h, n), id, c);
    forall x | x in s.mapInfo && x !in {id, h}
      ensures if n in s.vvNew && s.vvNew[n] == x then LostOne(s, t, x)
              else x in t.mapInfo && SameButPos(t.mapInfo[x], s.mapInfo[x])
    {
      assert u.mapInfo[x] == s.mapInfo[x];
      assert n in u.vvNew && u.vvNew[n] == x <==> n in s.vvNew && s.vvNew[n] == x;
      if n in u.vvNew && u.vvNew[n] == x { assert LostOne(u, w, x); }
    }
  }

  lemma NotedLeaves(e: Env, s: State, t: State, a: Service, time: int, c: Cell)
    requires Exact(s, a)
    requires var w := Noted(s, a, time); Promoted(e, w, t, s.mapAddr[a.net], w.mapInfo[s.mapAddr[a.net]], c)
    requires c in s.vvTried ==> s.vvTried[c] in s.mapInfo
    ensures Promoted(e, s, t, s.mapAddr[a.net], Succeeded(s.mapInfo[s.mapAddr[a.net]], time), c)
  {
    hide Env.NewCell;
  }

  lemma PromotedGood(e: Env, s: State, a: Service, test: bool, time: int)
    requires Consistent(e, s) && time > 0 && CanGood(e, s, a, test, time)
    requires Exact(s, a) && !s.mapInfo[s.mapAddr[a.net]].fInTried && !(test && e.TriedCell(s.nKey, a) in s.vvTried)
    ensures GoodEffect(e, s, Good(e, s, a, test, time), a, test, time)
  {
    hide Core, Pending, CanMakeTried, MakeTried, Promoted, InSomeBucket, Env.TriedCell;
    var id, c := s.mapAddr[a.net], e.TriedCell(s.nKey, a);
    UntriedHasBucket(e, s, id);
    NotedWell(e, s, a, time);
    var w := Noted(s, a, time);
    if c in s.vvTried {
      PromotedOver(e, w, id);
      Evicted(e, s, {}, c);
    } else {
      PromotedToFree(e, w, id);
    }
    NotedLeaves(e, s, MakeTried(e, w, id), a, time, c);
  }

  /** Good_ moves an entry to its tried cell if and only if it is not tried yet and nobody holds the cell, or the
      holder need not be tested first; the holder gets its primary new cell back. Otherwise it waits, in the list of
      collisions while there is room. */
  lemma GoodTakesEffect(e: Env, s: State, a: Service, test: bool, time: int)
    requires Consistent(e, s) && time > 0
    ensures CanGood(e, s, a, test, time) && GoodEffect(e, s, Good(e, s, a, test, time), a, test, time)
  {
    hide Core, Pending, InSomeBucket, CanMakeTried, Promoted, Env.TriedCell;
    GoodOnceMore(e, s, a, test, time);
    if Exact(s, a) && !s.mapInfo[s.mapAddr[a.net]].fInTried {
      UntriedHasBucket(e, s, s.mapAddr[a.net]);
      if !(test && e.TriedCell(s.nKey, a) in s.vvTried) {
        PromotedGood(e, s, a, test, time);
      }
    }
  }

  // ---- ResolveCollisions_

  /** A pending collision is dropped when the candidate is gone or not valid or the holder of its tried cell answered
      within four hours; swapped in when the holder was last tried over a minute but under four hours ago; else kept. */
  ghost predicate ResolveEffect(e: Env, s: State, t: State, id: int, now: int) {
    var dropped := s.(collisions := s.collisions - {id});
    if id !in s.mapInfo || !e.valid(s.mapInfo[id].service) then t == dropped
    else
      var c := e.TriedCell(s.nKey, s.mapInfo[id].service);
      c in s.vvTried && s.vvTried[c] in s.mapInfo &&
      var holder := s.mapInfo[s.vvTried[c]];
      if now < holder.nLastSuccess + 14400 then t == dropped
      else if holder.nLastTry + 60 < now < holder.nLastTry + 14400 then
        GoodEffect(e, dropped, t, s.mapInfo[id].service, false, now)
      else t == s
  }

  lemma DroppedAside(e: Env, s: State, w: State, a: Service, id: int, now: int)
    requires GoodEffect(e, s, w, a, false, now)
    ensures GoodEffect(e, s.(collisions := s.collisions - {id}), w.(collisions := w.collisions - {id}), a, false, now)
  {
    hide Env.NewCell, Env.TriedCell;
  }

  lemma ResolveTakesEffect(e: Env, s: State, id: int, now: int)
    requires Consistent(e, s) && now > 0 && id in s.collisions
    ensures CanResolve(e, s, id, now) && ResolveEffect(e, s, Resolve(e, s, id, now), id, now)
  {
    Resolved(e, s, id, now);
    if id in s.mapInfo {
      CollisionNamesAnEntry(e, s, id);
      hide Consistent, Good, CanGood, GoodEffect, Env.TriedCell;
      if Resolves(e, s, id, now) {
        var a := s.mapInfo[id].service;
        GoodTakesEffect(e, s, a, false, now);
        DroppedAside(e, s, Good(e, s, a, false, now), a, id, now);
      }
    }
  }

  // ---- statistics

  /** Between two successes of the node a failure is counted once per address, however often it is tried. */
  lemma CountedOncePerSuccess(s: State, a: Service, time: int, count: bool, later: int)
    requires HasEntry(s, a) && time >= s.nLastGood
    ensures var id := s.mapAddr[a.net];
            var t := Attempt(s, a, true, time);
            var u := Attempt(t, a, count, later);
            && t.mapInfo[id].nAttempts ==
                 s.mapInfo[id].nAttempts + (if s.mapInfo[id].nLastCountAttempt < s.nLastGood then 1 else 0)
            && u.mapInfo[id].nAttempts == t.mapInfo[id].nAttempts
            && u == s.(mapInfo := s.mapInfo[id := t.mapInfo[id].(nLastTry := later)])
  {}

  /** The time on record is never more than twenty minutes behind a connection, and moves only when it has to. */
  lemma ConnectedKeepsUp(s: State, a: Service, time: nat)
    requires HasEntry(s, a)
    ensures var id := s.mapAddr[a.net];
            var t := Connected(s, a, time);
            && t == s.(mapInfo := s.mapInfo[id := s.mapInfo[id].(nTime := t.mapInfo[id].nTime)])
            && t.mapInfo[id].nTime + 1200 >= time
            && (s.mapInfo[id].nTime + 1200 >= time ==> t == s)
            && (t != s ==> t.mapInfo[id].nTime == time)
  {}

  /** An entry tried within the last minute is never terrible. Otherwise it is terrible when its time is ten minutes
      ahead or thirty days old or missing, and else by its failures: three without any success, or ten without one
      in the last week. Left alone it stays so. */
  lemma TerribleInTime(i: Info, now: int, later: int)
    requires now <= later
    ensures 0 < i.nLastTry && now <= i.nLastTry + 60 ==> !IsTerrible(i, now)
    ensures i.nLastTry == 0 || i.nLastTry + 60 < now ==>
              && (i.nTime == 0 || i.nTime + 2592000 < now || now + 600 < i.nTime ==> IsTerrible(i, now))
              && (0 < i.nTime <= now + 600 && now <= i.nTime + 2592000 ==>
                   && (i.nLastSuccess == 0 ==> (IsTerrible(i, now) <==> i.nAttempts >= 3))
                   && (i.nLastSuccess != 0 ==>
                        (IsTerrible(i, now) <==> i.nAttempts >= 10 && i.nLastSuccess + 604800 < now)))
    ensures IsTerrible(i, now) && i.nTime <= now + 600 && i.nLastTry + 60 < later ==> IsTerrible(i, later)
  {}
}
