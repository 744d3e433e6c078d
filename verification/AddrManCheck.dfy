/** The manager's own consistency check, run over the object: it reports nothing exactly when the conditions it looks
    at hold, and so on every consistent manager. */
module AddrManCheck {
  import M = AddrManModel
  import I = AddrManInvariant
  import A = AddrMan
  import Order
  import L = AddrManLoad
  import S = AddrManSteps

  /** Cells are gone through bucket by bucket. */
  predicate Scanned(c: M.Cell, n: nat, i: nat) {
    c.bucket < n || (c.bucket == n && c.pos < i)
  }

  // ---- the entries

  ghost function RefCounts(m: map<int, M.Info>, xs: set<int>): map<int, int> {
    map id | id in m && id in xs && !m[id].fInTried :: m[id].nRefCount
  }

  ghost function TriedAmong(m: map<int, M.Info>, xs: set<int>): set<int> {
    set id | id in m && id in xs && m[id].fInTried
  }

  /** The tests of one entry. */
  function EntryError(id: int, i: M.Info, mapAddr: map<M.NetAddr, int>, vRandom: seq<int>): int {
    if i.fInTried && i.nLastSuccess == 0 then -1
    else if i.fInTried && i.nRefCount != 0 then -2
    else if !i.fInTried && (i.nRefCount < 0 || i.nRefCount > M.NEW_BUCKETS_PER_ADDRESS) then -3
    else if !i.fInTried && i.nRefCount == 0 then -4
    else if (if i.service.net in mapAddr then mapAddr[i.service.net] else 0) != id then -5
    else if i.nRandomPos < 0 || i.nRandomPos >= |vRandom| || vRandom[i.nRandomPos] != id then -14
    else if i.nLastTry < 0 then -6
    else if i.nLastSuccess < 0 then -8
    else 0
  }

  /** The tests of all entries. */
  ghost predicate EntriesFine(s: M.State) {
    forall id :: id in s.mapInfo ==> EntryError(id, s.mapInfo[id], s.mapAddr, s.vRandom) == 0
  }

  method CheckEntries(m: A.AddrMan) returns (r: int, setTried: set<int>, mapNew: map<int, int>)
    requires m.Shaped()
    ensures r == 0 <==> EntriesFine(m.State())
    ensures r == 0 ==>
              setTried == TriedAmong(m.mapInfo, m.mapInfo.Keys) && mapNew == RefCounts(m.mapInfo, m.mapInfo.Keys)
  {
    hide TriedAmong, RefCounts, EntryError, A.Cells;
    var all := m.mapInfo;
    var todo := all.Keys;
    setTried, mapNew := {}, map[];
    NoEntryYet(all, all.Keys - todo);
    while todo != {}
      invariant todo <= all.Keys
      invariant setTried == TriedAmong(all, all.Keys - todo) && mapNew == RefCounts(all, all.Keys - todo)
      invariant forall id :: id in all && id !in todo ==> EntryError(id, all[id], m.mapAddr, m.vRandom) == 0
      decreases |todo|
    {
      Order.HasMember(todo);
      var id :| id in todo;
      r := EntryError(id, all[id], m.mapAddr, m.vRandom);
      if r != 0 { return; }
      OneMoreEntry(all, all.Keys - todo, id);
      assert all.Keys - (todo - {id}) == (all.Keys - todo) + {id};
      if all[id].fInTried { setTried := setTried + {id}; } else { mapNew := mapNew[id := all[id].nRefCount]; }
      todo := todo - {id};
    }
    assert all.Keys - todo == all.Keys;
    r := 0;
  }

  lemma NoEntryYet(m: map<int, M.Info>, xs: set<int>)
    requires xs == {}
    ensures TriedAmong(m, xs) == {} && RefCounts(m, xs) == map[]
  {
    if TriedAmong(m, xs) != {} {
      Order.HasMember(TriedAmong(m, xs));
      assert false;
    }
  }

  lemma OneMoreEntry(m: map<int, M.Info>, xs: set<int>, id: int)
    requires id in m
    ensures m[id].fInTried ==>
              TriedAmong(m, xs + {id}) == TriedAmong(m, xs) + {id} && RefCounts(m, xs + {id}) == RefCounts(m, xs)
    ensures !m[id].fInTried ==>
              && TriedAmong(m, xs + {id}) == TriedAmong(m, xs)
              && RefCounts(m, xs + {id}) == RefCounts(m, xs)[id := m[id].nRefCount]
  {}

  // ---- the tried table

  /** A tried cell is empty or holds a tried entry that belongs there. */
  ghost predicate TriedFine(e: M.Env, s: M.State, c: M.Cell) {
    c in s.vvTried ==>
      && s.vvTried[c] in s.mapInfo && s.mapInfo[s.vvTried[c]].fInTried
      && e.TriedCell(s.nKey, s.mapInfo[s.vvTried[c]].service) == c
  }

  ghost predicate HeldBy(e: M.Env, s: M.State, id: int)
    requires id in s.mapInfo
  {
    var c := e.TriedCell(s.nKey, s.mapInfo[id].service);
    c in s.vvTried && s.vvTried[c] == id
  }

  /** The tried entries not met so far in their own cell. */
  ghost function TriedLeft(e: M.Env, s: M.State, n: nat, i: nat): set<int> {
    set id | id in s.mapInfo && s.mapInfo[id].fInTried &&
             !(Scanned(e.TriedCell(s.nKey, s.mapInfo[id].service), n, i) && HeldBy(e, s, id))
  }

  lemma ScannedNext(n: nat, i: nat)
    ensures forall d: M.Cell :: Scanned(d, n, i + 1) <==> Scanned(d, n, i) || d == M.Cell(n, i)
  {}

  lemma TriedStep(e: M.Env, s: M.State, n: nat, i: nat)
    ensures var c := M.Cell(n, i);
            && (c !in s.vvTried ==> TriedLeft(e, s, n, i + 1) == TriedLeft(e, s, n, i))
            && (c in s.vvTried && TriedFine(e, s, c) ==>
                  && s.vvTried[c] in TriedLeft(e, s, n, i)
                  && TriedLeft(e, s, n, i + 1) == TriedLeft(e, s, n, i) - {s.vvTried[c]})
  {
    ScannedNext(n, i);
    hide M.Env.TriedCell, Scanned;
    assert !Scanned(M.Cell(n, i), n, i) by { NotYet(n, i); }
  }

  lemma NotYet(n: nat, i: nat)
    ensures !Scanned(M.Cell(n, i), n, i)
  {}

  lemma TriedNextBucket(e: M.Env, s: M.State, n: nat)
    ensures TriedLeft(e, s, n + 1, 0) == TriedLeft(e, s, n, M.BUCKET_SIZE)
  {
    hide HeldBy;
    forall id | id in s.mapInfo
      ensures var c := e.TriedCell(s.nKey, s.mapInfo[id].service); Scanned(c, n + 1, 0) == Scanned(c, n, M.BUCKET_SIZE)
    {
      A.TriedCellFits(e, s.nKey, s.mapInfo[id].service);
    }
  }

  lemma TriedBegins(e: M.Env, s: M.State)
    ensures TriedLeft(e, s, 0, 0) == TriedAmong(s.mapInfo, s.mapInfo.Keys)
  {}

  /** Once all cells have been gone through, the table is right if and only if no tried entry is left over. */
  lemma TriedEnds(e: M.Env, s: M.State)
    requires forall c :: TriedFine(e, s, c)
    ensures |TriedLeft(e, s, M.TRIED_BUCKET_COUNT, 0)| == 0 <==> I.TriedTable(e, s.nKey, s.mapInfo, s.vvTried)
  {
    hide M.Env.TriedCell;
    var rest := TriedLeft(e, s, M.TRIED_BUCKET_COUNT, 0);
    forall id | id in s.mapInfo
      ensures Scanned(e.TriedCell(s.nKey, s.mapInfo[id].service), M.TRIED_BUCKET_COUNT, 0)
    {
      A.TriedCellFits(e, s.nKey, s.mapInfo[id].service);
    }
    if rest == {} {
      forall id | id in s.mapInfo && s.mapInfo[id].fInTried ensures HeldBy(e, s, id) { assert id !in rest; }
      forall c | c in s.vvTried
        ensures && s.vvTried[c] in s.mapInfo && s.mapInfo[s.vvTried[c]].fInTried
                && c == e.TriedCell(s.nKey, s.mapInfo[s.vvTried[c]].service)
      {
        assert TriedFine(e, s, c);
      }
    } else {
      Order.HasMember(rest);
      var id :| id in rest;
      assert !HeldBy(e, s, id);
    }
  }

  lemma NotATable(e: M.Env, s: M.State, c: M.Cell)
    requires !TriedFine(e, s, c)
    ensures !I.TriedTable(e, s.nKey, s.mapInfo, s.vvTried)
  {}

  /** The tried cells scanned so far are in order. */
  ghost predicate TriedSoFar(e: M.Env, s: M.State, n: nat, i: nat) {
    forall c :: Scanned(c, n, i) ==> TriedFine(e, s, c)
  }

  lemma TriedGoesOn(e: M.Env, s: M.State, n: nat, i: nat)
    requires TriedSoFar(e, s, n, i) && TriedFine(e, s, M.Cell(n, i))
    ensures TriedSoFar(e, s, n, i + 1)
  {
    ScannedNext(n, i);
    hide TriedFine, Scanned;
  }

  lemma TriedBucketDone(m: A.AddrMan, n: nat)
    requires m.Shaped() && TriedSoFar(m.e, m.State(), n, M.BUCKET_SIZE)
    ensures TriedSoFar(m.e, m.State(), n + 1, 0)
  {}

  lemma TriedAllDone(m: A.AddrMan)
    requires m.Shaped() && TriedSoFar(m.e, m.State(), M.TRIED_BUCKET_COUNT, 0)
    ensures forall c :: TriedFine(m.e, m.State(), c)
  {}

  method CheckTried(m: A.AddrMan, entries: set<int>) returns (r: int, setTried: set<int>)
    requires m.Shaped() && entries == TriedAmong(m.mapInfo, m.mapInfo.Keys)
    ensures (r == 0 && |setTried| == 0) <==> I.TriedTable(m.e, m.nKey, m.mapInfo, m.State().vvTried)
  {
    hide TriedLeft, A.Cells, TriedSoFar, TriedFine, I.TriedTable, M.Env.TriedCell;
    ghost var s := m.State();
    setTried, r := entries, 0;
    TriedBegins(m.e, s);
    assert TriedSoFar(m.e, s, 0, 0) by { NothingScanned(m.e, s); }
    for n := 0 to M.TRIED_BUCKET_COUNT
      invariant setTried == TriedLeft(m.e, s, n, 0) && TriedSoFar(m.e, s, n, 0) && r == 0
    {
      for i := 0 to M.BUCKET_SIZE
        invariant setTried == TriedLeft(m.e, s, n, i) && TriedSoFar(m.e, s, n, i) && r == 0
      {
        TriedStep(m.e, s, n, i);
        LeftIsKnown(m.e, s, n, i);
        A.CellAt(m.vvTried, n, i);
        var id := m.vvTried[n, i];
        TriedCellTest(m.e, s, M.Cell(n, i), n, i);
        if id != -1 {
          if id !in setTried { NotATable(m.e, s, M.Cell(n, i)); return -11, setTried; }
          var c := m.e.TriedCell(m.nKey, m.mapInfo[id].service);
          if c.bucket != n { NotATable(m.e, s, M.Cell(n, i)); return -17, setTried; }
          if c.pos != i { NotATable(m.e, s, M.Cell(n, i)); return -18, setTried; }
          setTried := setTried - {id};
        }
        TriedGoesOn(m.e, s, n, i);
      }
      TriedNextBucket(m.e, s, n);
      TriedBucketDone(m, n);
    }
    TriedAllDone(m);
    TriedEnds(m.e, s);
  }

  lemma NothingScanned(e: M.Env, s: M.State)
    ensures TriedSoFar(e, s, 0, 0)
  {}

  lemma LeftIsKnown(e: M.Env, s: M.State, n: nat, i: nat)
    ensures TriedLeft(e, s, n, i) <= s.mapInfo.Keys
  {}

  /** The three tests of a tried cell together say whether it is in order. */
  lemma TriedCellTest(e: M.Env, s: M.State, c: M.Cell, n: nat, i: nat)
    requires c == M.Cell(n, i)
    ensures c !in s.vvTried ==> TriedFine(e, s, c)
    ensures c in s.vvTried && s.vvTried[c] in TriedLeft(e, s, n, i) ==>
              && s.vvTried[c] in s.mapInfo
              && (TriedFine(e, s, c) <==> e.TriedCell(s.nKey, s.mapInfo[s.vvTried[c]].service) == c)
  {}

  // ---- the new table

  /** A new cell is empty or holds a new entry whose place in this bucket it is. */
  ghost predicate NewFine(e: M.Env, s: M.State, c: M.Cell) {
    c in s.vvNew ==>
      && s.vvNew[c] in s.mapInfo && !s.mapInfo[s.vvNew[c]].fInTried
      && e.CellIn(s.nKey, s.mapInfo[s.vvNew[c]].service, c.bucket) == c
  }

  /** The cells holding id that have been gone through. */
  ghost function RefsDone(s: M.State, id: int, n: nat, i: nat): set<M.Cell> {
    set c | c in M.Refs(s.vvNew, id) && Scanned(c, n, i)
  }

  ghost predicate Outstanding(s: M.State, id: int, n: nat, i: nat) {
    id in s.mapInfo && !s.mapInfo[id].fInTried && s.mapInfo[id].nRefCount > |RefsDone(s, id, n, i)|
  }

  /** The references each new entry counts and that are still to come, entries without any left out. */
  ghost function NewLeft(s: M.State, n: nat, i: nat): map<int, int> {
    map id | id in s.mapInfo && Outstanding(s, id, n, i) :: s.mapInfo[id].nRefCount - |RefsDone(s, id, n, i)|
  }

  /** The new cells scanned so far are in order, and no entry was met more often than it counts. */
  ghost predicate NewSoFar(e: M.Env, s: M.State, n: nat, i: nat) {
    && (forall c :: Scanned(c, n, i) ==> NewFine(e, s, c))
    && (forall id :: id in s.mapInfo && !s.mapInfo[id].fInTried ==> |RefsDone(s, id, n, i)| <= s.mapInfo[id].nRefCount)
  }

  lemma RefsDoneNext(s: M.State, id: int, n: nat, i: nat)
    ensures var c := M.Cell(n, i);
            RefsDone(s, id, n, i + 1) == RefsDone(s, id, n, i) + if c in s.vvNew && s.vvNew[c] == id then {c} else {}
    ensures M.Cell(n, i) !in RefsDone(s, id, n, i)
  {
    ScannedNext(n, i);
    NotYet(n, i);
    hide Scanned;
  }

  lemma RefsDoneCount(s: M.State, id: int, n: nat, i: nat)
    ensures var c := M.Cell(n, i);
            |RefsDone(s, id, n, i + 1)| == |RefsDone(s, id, n, i)| + if c in s.vvNew && s.vvNew[c] == id then 1 else 0
  {
    hide RefsDone;
    RefsDoneNext(s, id, n, i);
  }

  lemma NewStepPast(s: M.State, n: nat, i: nat)
    requires M.Cell(n, i) !in s.vvNew
    ensures NewLeft(s, n, i + 1) == NewLeft(s, n, i)
  {
    hide RefsDone;
    forall id | id in s.mapInfo { RefsDoneCount(s, id, n, i); }
  }

  lemma NewStep(s: M.State, n: nat, i: nat, id: int)
    requires M.Cell(n, i) in s.vvNew && s.vvNew[M.Cell(n, i)] == id && Outstanding(s, id, n, i)
    ensures id in NewLeft(s, n, i)
    ensures NewLeft(s, n, i + 1) ==
              if NewLeft(s, n, i)[id] == 1 then NewLeft(s, n, i) - {id}
              else NewLeft(s, n, i)[id := NewLeft(s, n, i)[id] - 1]
  {
    hide RefsDone;
    forall x | x in s.mapInfo { RefsDoneCount(s, x, n, i); }
  }

  lemma NewGoesOn(e: M.Env, s: M.State, n: nat, i: nat)
    requires NewSoFar(e, s, n, i) && NewFine(e, s, M.Cell(n, i))
    requires M.Cell(n, i) in s.vvNew ==> Outstanding(s, s.vvNew[M.Cell(n, i)], n, i)
    ensures NewSoFar(e, s, n, i + 1)
  {
    ScannedNext(n, i);
    hide NewFine, Scanned, RefsDone;
    forall id | id in s.mapInfo && !s.mapInfo[id].fInTried
      ensures |RefsDone(s, id, n, i + 1)| <= s.mapInfo[id].nRefCount
    {
      RefsDoneCount(s, id, n, i);
    }
  }

  lemma NotANewTable(e: M.Env, s: M.State, c: M.Cell)
    requires EntriesFine(s) && !NewFine(e, s, c)
    ensures !I.NewTable(e, s.nKey, s.mapInfo, s.vvNew)
  {
    if c in s.vvNew && s.vvNew[c] in s.mapInfo && s.mapInfo[s.vvNew[c]].fInTried {
      assert c in M.Refs(s.vvNew, s.vvNew[c]);
      assert s.mapInfo[s.vvNew[c]].nRefCount == 0;
    }
  }

  lemma MetTooOften(e: M.Env, s: M.State, n: nat, i: nat)
    requires NewFine(e, s, M.Cell(n, i)) && M.Cell(n, i) in s.vvNew && !Outstanding(s, s.vvNew[M.Cell(n, i)], n, i)
    ensures !I.NewTable(e, s.nKey, s.mapInfo, s.vvNew)
  {
    var c := M.Cell(n, i);
    var id := s.vvNew[c];
    var some, all := RefsDone(s, id, n, i), M.Refs(s.vvNew, id);
    RefsDoneNext(s, id, n, i);
    assert some + {c} <= all;
    assert all == (some + {c}) + (all - (some + {c}));
    assert |all| > |some|;
  }

  lemma NewBegins(e: M.Env, s: M.State)
    requires EntriesFine(s)
    ensures NewLeft(s, 0, 0) == RefCounts(s.mapInfo, s.mapInfo.Keys) && NewSoFar(e, s, 0, 0)
  {
    forall id | id in s.mapInfo
      ensures RefsDone(s, id, 0, 0) == {} && (!s.mapInfo[id].fInTried ==> s.mapInfo[id].nRefCount > 0)
    {
      assert EntryError(id, s.mapInfo[id], s.mapAddr, s.vRandom) == 0;
    }
  }

  lemma NewNextBucket(m: A.AddrMan, n: nat)
    requires m.Shaped() && NewSoFar(m.e, m.State(), n, M.BUCKET_SIZE)
    ensures NewSoFar(m.e, m.State(), n + 1, 0) && NewLeft(m.State(), n + 1, 0) == NewLeft(m.State(), n, M.BUCKET_SIZE)
  {
    var s := m.State();
    forall c | c in s.vvNew ensures Scanned(c, n + 1, 0) == Scanned(c, n, M.BUCKET_SIZE) {}
    forall id ensures RefsDone(s, id, n + 1, 0) == RefsDone(s, id, n, M.BUCKET_SIZE) {}
    forall c | Scanned(c, n + 1, 0) ensures NewFine(m.e, s, c) {}
    hide RefsDone;
  }

  lemma AllRefsDone(m: A.AddrMan, id: int)
    requires m.Shaped()
    ensures RefsDone(m.State(), id, M.NEW_BUCKET_COUNT, 0) == M.Refs(m.State().vvNew, id)
  {}

  lemma AllCellsFine(m: A.AddrMan, c: M.Cell)
    requires m.Shaped() && NewSoFar(m.e, m.State(), M.NEW_BUCKET_COUNT, 0)
    ensures NewFine(m.e, m.State(), c) && (c in m.State().vvNew ==> c.bucket < M.NEW_BUCKET_COUNT)
  {}

  /** Once all cells have been gone through, the table is right if and only if no count is left over. */
  lemma NewEnds(m: A.AddrMan)
    requires m.Shaped() && NewSoFar(m.e, m.State(), M.NEW_BUCKET_COUNT, 0) && EntriesFine(m.State())
    ensures |NewLeft(m.State(), M.NEW_BUCKET_COUNT, 0)| == 0 <==>
              I.NewTable(m.e, m.nKey, m.mapInfo, m.State().vvNew)
  {
    var s := m.State();
    var left := NewLeft(s, M.NEW_BUCKET_COUNT, 0);
    hide A.Cells, Scanned;
    forall id ensures RefsDone(s, id, M.NEW_BUCKET_COUNT, 0) == M.Refs(s.vvNew, id) { AllRefsDone(m, id); }
    forall c ensures NewFine(m.e, s, c) && (c in s.vvNew ==> c.bucket < M.NEW_BUCKET_COUNT) { AllCellsFine(m, c); }
    forall id | id in s.mapInfo && s.mapInfo[id].fInTried ensures s.mapInfo[id].nRefCount == |M.Refs(s.vvNew, id)| {
      assert EntryError(id, s.mapInfo[id], s.mapAddr, s.vRandom) == 0;
      NoRefs(m.e, s, id);
    }
    hide RefsDone, NewFine, EntryError;
    if |left| == 0 {
      forall id | id in s.mapInfo ensures s.mapInfo[id].nRefCount == |M.Refs(s.vvNew, id)| {
        assert id !in left;
      }
      CellsFit(m.e, s);
    } else {
      Order.HasMember(left.Keys);
      var id :| id in left;
      assert s.mapInfo[id].nRefCount != |M.Refs(s.vvNew, id)|;
    }
  }

  lemma NoRefs(e: M.Env, s: M.State, id: int)
    requires (forall c :: NewFine(e, s, c)) && id in s.mapInfo && s.mapInfo[id].fInTried
    ensures |M.Refs(s.vvNew, id)| == 0
  {
    var refs := M.Refs(s.vvNew, id);
    forall c ensures c !in refs { assert NewFine(e, s, c); }
    assert refs == {};
  }

  lemma CellsFit(e: M.Env, s: M.State)
    requires forall c :: NewFine(e, s, c) && (c in s.vvNew ==> c.bucket < M.NEW_BUCKET_COUNT)
    ensures forall c :: c in s.vvNew ==>
              && s.vvNew[c] in s.mapInfo && c.bucket < M.NEW_BUCKET_COUNT
              && c == e.CellIn(s.nKey, s.mapInfo[s.vvNew[c]].service, c.bucket)
  {
    forall c | c in s.vvNew
      ensures && s.vvNew[c] in s.mapInfo && c.bucket < M.NEW_BUCKET_COUNT
              && c == e.CellIn(s.nKey, s.mapInfo[s.vvNew[c]].service, c.bucket)
    {
      assert NewFine(e, s, c);
    }
  }

  /** The two tests of a new cell. */
  lemma NewCellTest(e: M.Env, s: M.State, n: nat, i: nat)
    ensures var c := M.Cell(n, i);
            && (c !in s.vvNew ==> NewFine(e, s, c))
            && (c in s.vvNew ==>
                  && (s.vvNew[c] in NewLeft(s, n, i) <==> Outstanding(s, s.vvNew[c], n, i))
                  && (Outstanding(s, s.vvNew[c], n, i) ==>
                        s.vvNew[c] in s.mapInfo &&
                        (NewFine(e, s, c) <==> e.CellIn(s.nKey, s.mapInfo[s.vvNew[c]].service, n).pos == i)))
  {}

  method CheckNew(m: A.AddrMan, entries: map<int, int>) returns (r: int, mapNew: map<int, int>)
    requires m.Shaped() && EntriesFine(m.State()) && entries == RefCounts(m.mapInfo, m.mapInfo.Keys)
    ensures (r == 0 && |mapNew| == 0) <==> I.NewTable(m.e, m.nKey, m.mapInfo, m.State().vvNew)
  {
    hide NewLeft, A.Cells, RefCounts, NewSoFar, NewFine, I.NewTable, EntriesFine, Outstanding, M.Env.CellIn;
    ghost var s := m.State();
    mapNew, r := entries, 0;
    NewBegins(m.e, s);
    for n := 0 to M.NEW_BUCKET_COUNT
      invariant mapNew == NewLeft(s, n, 0) && NewSoFar(m.e, s, n, 0) && r == 0
    {
      for i := 0 to M.BUCKET_SIZE
        invariant mapNew == NewLeft(s, n, i) && NewSoFar(m.e, s, n, i) && r == 0
      {
        NewCellTest(m.e, s, n, i);
        A.CellAt(m.vvNew, n, i);
        var id := m.vvNew[n, i];
        if id != -1 {
          if id !in mapNew {
            NotCounted(m.e, s, n, i);
            return -12, mapNew;
          }
          if m.e.CellIn(m.nKey, m.mapInfo[id].service, n).pos != i {
            NotANewTable(m.e, s, M.Cell(n, i));
            return -19, mapNew;
          }
          NewStep(s, n, i, id);
          mapNew := if mapNew[id] - 1 == 0 then mapNew - {id} else mapNew[id := mapNew[id] - 1];
        } else {
          NewStepPast(s, n, i);
        }
        NewGoesOn(m.e, s, n, i);
      }
      NewNextBucket(m, n);
    }
    NewEnds(m);
  }

  lemma NotCounted(e: M.Env, s: M.State, n: nat, i: nat)
    requires EntriesFine(s) && M.Cell(n, i) in s.vvNew && !Outstanding(s, s.vvNew[M.Cell(n, i)], n, i)
    ensures !I.NewTable(e, s.nKey, s.mapInfo, s.vvNew)
  {
    hide I.NewTable, Outstanding, EntriesFine, NewFine;
    if NewFine(e, s, M.Cell(n, i)) { MetTooOften(e, s, n, i); } else { NotANewTable(e, s, M.Cell(n, i)); }
  }

  // ---- the whole check

  /** All that Check_ looks at is in order. */
  ghost predicate NothingToReport(e: M.Env, s: M.State) {
    && |s.vRandom| == s.nTried + s.nNew && EntriesFine(s) && I.Counted(s.mapInfo, s.nNew, s.nTried)
    && I.TriedTable(e, s.nKey, s.mapInfo, s.vvTried) && I.NewTable(e, s.nKey, s.mapInfo, s.vvNew)
    && s.nKey != 0
  }

  lemma SidesCounted(s: M.State)
    ensures |TriedAmong(s.mapInfo, s.mapInfo.Keys)| == |I.Tried(s.mapInfo)|
    ensures |RefCounts(s.mapInfo, s.mapInfo.Keys)| == |I.Untried(s.mapInfo)|
  {
    assert TriedAmong(s.mapInfo, s.mapInfo.Keys) == I.Tried(s.mapInfo);
    assert RefCounts(s.mapInfo, s.mapInfo.Keys).Keys == I.Untried(s.mapInfo);
  }

  lemma SidesAreAll(m: I.Infos)
    ensures |m.Keys| == |I.Tried(m)| + |I.Untried(m)|
  {
    assert m.Keys == I.Tried(m) + I.Untried(m) && I.Tried(m) !! I.Untried(m);
  }

  /** Reports nothing if and only if all it looks at is in order. */
  method Check(m: A.AddrMan) returns (r: int)
    requires m.Shaped()
    ensures r == 0 <==> NothingToReport(m.e, m.State())
  {
    hide TriedAmong, RefCounts, EntriesFine, I.TriedTable, I.NewTable, A.Cells;
    SidesCounted(m.State());
    if |m.vRandom| != m.nTried + m.nNew { return -7; }
    var setTried, mapNew;
    r, setTried, mapNew := CheckEntries(m);
    if r != 0 { return; }
    if |setTried| != m.nTried { return -9; }
    if |mapNew| != m.nNew { return -10; }
    r, setTried := CheckTried(m, setTried);
    if r != 0 { return; }
    r, mapNew := CheckNew(m, mapNew);
    if r != 0 { return; }
    if |setTried| != 0 { return -13; }
    if |mapNew| != 0 { return -15; }
    if m.nKey == 0 { return -16; }
    return 0;
  }

  lemma AllShuffled(m: I.Infos, v: seq<int>)
    requires I.Shuffled(m, v)
    ensures |v| == |m.Keys|
  {
    forall i, j | 0 <= i < j < |v| ensures v[i] != v[j] {
      assert m[v[i]].nRandomPos == i && m[v[j]].nRandomPos == j;
    }
    forall id ensures id in v <==> id in m.Keys {
      if id in m { assert v[m[id].nRandomPos] == id; }
    }
    Order.DistinctCounts(v, m.Keys);
  }

  lemma {:induction false} AsManyPlaces(m: I.Infos, xs: set<int>)
    requires xs <= m.Keys && forall a, b :: a in m && b in m && m[a].nRandomPos == m[b].nRandomPos ==> a == b
    ensures |set id | id in xs :: m[id].nRandomPos| == |xs|
  {
    var ps := set id | id in xs :: m[id].nRandomPos;
    if xs == {} {
      assert ps == {} by { if ps != {} { Order.HasMember(ps); assert false; } }
    } else {
      Order.HasMember(xs);
      var x :| x in xs;
      var rest := xs - {x};
      AsManyPlaces(m, rest);
      assert ps == (set id | id in rest :: m[id].nRandomPos) + {m[x].nRandomPos};
    }
  }

  ghost function Below(n: nat): (xs: set<int>)
    ensures |xs| == n && forall i :: i in xs <==> 0 <= i < n
  {
    if n == 0 then {} else Below(n - 1) + {n - 1}
  }

  /** As many places as entries, and every entry in a place of its own: no place is left over. */
  lemma EveryPlaceTaken(m: I.Infos, v: seq<int>)
    requires |v| == |m.Keys| && forall id :: id in m ==> 0 <= m[id].nRandomPos < |v| && v[m[id].nRandomPos] == id
    ensures I.Shuffled(m, v)
  {
    var taken := set id | id in m.Keys :: m[id].nRandomPos;
    AsManyPlaces(m, m.Keys);
    var all := Below(|v|);
    assert taken <= all;
    Order.SameSizeSubset(taken, all);
    forall i | 0 <= i < |v| ensures v[i] in m && m[v[i]].nRandomPos == i {
      assert i in taken;
    }
  }

  /** With a key, the conditions of the invariant are those Check_ looks at and the one on ids and addresses, of which
      it sees only a part. */
  lemma ReportsNothingIff(e: M.Env, s: M.State)
    ensures I.Core(e, s, {}) && s.nKey != 0 <==>
              NothingToReport(e, s) && I.Indexed(s.nIdCount, s.mapInfo, s.mapAddr)
  {
    hide I.NewTable, I.TriedTable;
    SidesAreAll(s.mapInfo);
    if I.Core(e, s, {}) {
      AllShuffled(s.mapInfo, s.vRandom);
      forall id | id in s.mapInfo ensures EntryError(id, s.mapInfo[id], s.mapAddr, s.vRandom) == 0 {
        assert I.Entry(s.mapInfo[id], false);
      }
    }
    if NothingToReport(e, s) {
      forall id | id in s.mapInfo
        ensures 0 <= s.mapInfo[id].nRandomPos < |s.vRandom| && s.vRandom[s.mapInfo[id].nRandomPos] == id
        ensures I.Entry(s.mapInfo[id], false)
      {
        assert EntryError(id, s.mapInfo[id], s.mapAddr, s.vRandom) == 0;
      }
      EveryPlaceTaken(s.mapInfo, s.vRandom);
    }
  }

  /** No error is reported on a consistent manager with a key. */
  lemma QuietWhenConsistent(e: M.Env, s: M.State)
    requires I.Consistent(e, s) && s.nKey != 0
    ensures NothingToReport(e, s)
  {
    hide NothingToReport, I.Core;
    ReportsNothingIff(e, s);
  }

  // ---- after any file

  /** The tests of an entry that no loading makes sure of. */
  ghost predicate TimesAndAddress(s: M.State, id: int)
    requires id in s.mapInfo
  {
    var i := s.mapInfo[id];
    && (i.fInTried ==> i.nLastSuccess != 0) && i.nLastTry >= 0 && i.nLastSuccess >= 0
    && (if i.service.net in s.mapAddr then s.mapAddr[i.service.net] else 0) == id
  }

  lemma EntryLeft(s: M.State, id: int)
    requires I.Shuffled(s.mapInfo, s.vRandom) && S.RefsInRange(s.mapInfo) && L.AllReferenced(s.mapInfo)
    requires id in s.mapInfo
    ensures EntryError(id, s.mapInfo[id], s.mapAddr, s.vRandom) == 0 <==> TimesAndAddress(s, id)
  {}

  /** In the state read from a file without negative counts, Check_ reports nothing if and only if there is a key, no
      two entries share an address and the times are in range. */
  lemma LeftToReport(e: M.Env, s: M.State)
    requires L.TablesInOrder(e, s) && L.AllReferenced(s.mapInfo)
    ensures NothingToReport(e, s) <==> s.nKey != 0 && forall id :: id in s.mapInfo ==> TimesAndAddress(s, id)
  {
    AllShuffled(s.mapInfo, s.vRandom);
    SidesAreAll(s.mapInfo);
    hide I.NewTable, I.TriedTable, EntryError, TimesAndAddress, I.Shuffled, L.AllReferenced;
    forall id | id in s.mapInfo
      ensures EntryError(id, s.mapInfo[id], s.mapAddr, s.vRandom) == 0 <==> TimesAndAddress(s, id)
    {
      EntryLeft(s, id);
    }
  }

  /** In such a state every entry has a cell, of the table its side says. */
  lemma EveryEntryHasCell(e: M.Env, s: M.State, id: int)
    requires L.TablesInOrder(e, s) && L.AllReferenced(s.mapInfo) && id in s.mapInfo
    ensures if s.mapInfo[id].fInTried then HeldBy(e, s, id)
            else exists c :: c in s.vvNew && s.vvNew[c] == id
  {
    if !s.mapInfo[id].fInTried {
      var refs := M.Refs(s.vvNew, id);
      assert |refs| != 0;
      var c :| c in refs;
      assert c in s.vvNew && s.vvNew[c] == id;
    }
  }
}
