/** How long an element stays in the signature cache. */
module CuckooRuns {
  import opened Cuckoo

  /** x sits in a slot that is not marked for collection, in the given epoch. */
  ghost predicate In(t: seq<Element>, f: seq<bool>, ep: seq<bool>, b: bool, x: Element) {
    |t| == |f| == |ep| && exists i :: 0 <= i < |t| && t[i] == x && !f[i] && ep[i] == b
  }

  ghost predicate InStore(s: Store, b: bool, x: Element) {
    In(s.table, s.collection, s.epochs, b, x)
  }

  lemma InAt(t: seq<Element>, f: seq<bool>, ep: seq<bool>, i: nat)
    requires |t| == |f| == |ep| && i < |t| && !f[i]
    ensures In(t, f, ep, ep[i], t[i])
  {}

  /** A slot marked for collection is filled. */
  lemma PutIn(t: seq<Element>, f: seq<bool>, ep: seq<bool>, loc: nat, e: Element, epoch: bool, b: bool, x: Element)
    requires |t| == |f| == |ep| && loc < |t| && f[loc]
    ensures In(t[loc := e], f[loc := false], ep[loc := epoch], b, x) <==> In(t, f, ep, b, x) || (x == e && b == epoch)
  {
    var t1, f1, ep1 := t[loc := e], f[loc := false], ep[loc := epoch];
    if i :| 0 <= i < |t| && t[i] == x && !f[i] && ep[i] == b { assert t1[i] == x && !f1[i] && ep1[i] == b; }
    if x == e && b == epoch { InAt(t1, f1, ep1, loc); }
    if i :| 0 <= i < |t| && t1[i] == x && !f1[i] && ep1[i] == b { if i != loc { InAt(t, f, ep, i); } }
  }

  /** The element of a slot is exchanged for the one carried. */
  lemma Exchanged(t: seq<Element>, f: seq<bool>, ep: seq<bool>, loc: nat, e: Element, epoch: bool, b: bool, x: Element)
    requires |t| == |f| == |ep| && loc < |t| && !f[loc]
    ensures In(t[loc := e], f, ep[loc := epoch], b, x) || (x == t[loc] && b == ep[loc]) <==>
              In(t, f, ep, b, x) || (x == e && b == epoch)
  {
    var t1, ep1 := t[loc := e], ep[loc := epoch];
    InAt(t, f, ep, loc);
    InAt(t1, f, ep1, loc);
    if i :| 0 <= i < |t| && t[i] == x && !f[i] && ep[i] == b { if i != loc { InAt(t1, f, ep1, i); } }
    if i :| 0 <= i < |t| && t1[i] == x && !f[i] && ep1[i] == b { if i != loc { InAt(t, f, ep, i); } }
  }

  /** Through all displacements everybody keeps its epoch, but for the one dropped. */
  lemma {:induction false} DisplacedKeepsEpochs(u: Setup, t: seq<Element>, f: seq<bool>, ep: seq<bool>,
                                                e: Element, epoch: bool, last: int, depth: nat, b: bool, x: Element)
    requires |t| == |f| == |ep| == u.size > 0
    ensures var d := Displaced(u, t, f, ep, e, epoch, last, depth);
            var was := In(t, f, ep, b, x) || (x == e && b == epoch);
            && (In(d.table, d.collection, d.epochs, b, x) ==> was)
            && (was ==> In(d.table, d.collection, d.epochs, b, x) || d.dropped == [x])
    decreases depth
  {
    hide Open, FirstOpen, After, In, Locs;
    if depth > 0 {
      if Open(u, f, e) {
        PutIn(t, f, ep, FirstOpen(u, f, e), e, epoch, b, x);
      } else {
        var loc := After(u, e, last);
        NotOpen(u, f, e, loc);
        Exchanged(t, f, ep, loc, e, epoch, b, x);
        DisplacedKeepsEpochs(u, t[loc := e], f, ep[loc := epoch], t[loc], ep[loc], loc, depth - 1, b, x);
      }
    }
  }

  /** The check makes the current epoch the old one when it ages the table, and else does nothing. */
  lemma CheckedIn(u: Setup, s: Store, b: bool, x: Element)
    requires Fits(u, s)
    ensures var f := CheckedFlags(u, s.collection, s.epochs, s.counter);
            var ep := CheckedEpochs(u, s.collection, s.epochs, s.counter);
            && |f| == |ep| == |s.table|
            && (In(s.table, f, ep, b, x) <==> if Ages(u, s) then !b && InStore(s, true, x) else InStore(s, b, x))
  {
    hide Live;
    var f := CheckedFlags(u, s.collection, s.epochs, s.counter);
    var ep := CheckedEpochs(u, s.collection, s.epochs, s.counter);
    if Ages(u, s) {
      forall i | 0 <= i < |f| ensures !f[i] <==> !s.collection[i] && s.epochs[i] {}
      if i :| 0 <= i < |f| && s.table[i] == x && !s.collection[i] && s.epochs[i] { InAt(s.table, f, ep, i); }
      if i :| 0 <= i < |f| && s.table[i] == x && !f[i] && ep[i] == b { InAt(s.table, s.collection, s.epochs, i); }
    }
  }

  // ---- runs

  datatype Op = Insert(e: Element) | Look(e: Element, erase: bool)

  ghost predicate Step(u: Setup, s: Store, op: Op, t: Store, dropped: seq<Element>) {
    match op
    case Insert(e) => InsertStep(u, s, e, t, dropped)
    case Look(e, erase) => LookStep(u, s, e, erase, t) && dropped == []
  }

  ghost predicate Run(u: Setup, ss: seq<Store>, ops: seq<Op>, drops: seq<seq<Element>>) {
    && |ss| == |ops| + 1 == |drops| + 1
    && forall i :: 0 <= i < |ops| ==> Step(u, ss[i], ops[i], ss[i + 1], drops[i])
  }

  ghost predicate AgesAt(u: Setup, s: Store, op: Op) {
    op.Insert? && Fits(u, s) && Ages(u, s)
  }

  /** How often the table is aged from step j up to step k. */
  ghost function Ageings(u: Setup, ss: seq<Store>, ops: seq<Op>, j: nat, k: nat): nat
    requires j <= k <= |ops| && |ops| < |ss|
  {
    if j == k then 0
    else Ageings(u, ss, ops, j, k - 1) + if AgesAt(u, ss[k - 1], ops[k - 1]) then 1 else 0
  }

  /** What becomes of everybody but the element inserted. */
  lemma OthersAfterInsert(u: Setup, s: Store, e: Element, t: Store, dropped: seq<Element>, b: bool, x: Element)
    requires InsertStep(u, s, e, t, dropped) && x != e && dropped != [x]
    ensures InStore(t, b, x) <==> if Ages(u, s) then !b && InStore(s, true, x) else InStore(s, b, x)
  {
    hide Live, CheckedFlags, CheckedEpochs, CheckedCounter, Displaced, Locs, Residents, Ages;
    var f := CheckedFlags(u, s.collection, s.epochs, s.counter);
    var ep := CheckedEpochs(u, s.collection, s.epochs, s.counter);
    CheckedIn(u, s, b, x);
    if AtHome(u, s.table, e) {
      var loc :| KeptAt(u, s.table, e, loc, f, ep, t.collection, t.epochs);
      if i :| 0 <= i < |f| && s.table[i] == x && !f[i] && ep[i] == b { InAt(t.table, t.collection, t.epochs, i); }
      if i :| 0 <= i < |f| && t.table[i] == x && !t.collection[i] && t.epochs[i] == b { InAt(s.table, f, ep, i); }
    } else {
      DisplacedKeepsEpochs(u, s.table, f, ep, e, true, -1, u.depth_limit, b, x);
    }
  }

  /** The element inserted is of the current epoch, or dropped. */
  lemma InsertedIsCurrent(u: Setup, s: Store, e: Element, t: Store, dropped: seq<Element>)
    requires InsertStep(u, s, e, t, dropped)
    ensures InStore(t, true, e) || dropped == [e]
  {
    hide Live, CheckedFlags, CheckedEpochs, CheckedCounter, Displaced, Locs, Residents;
    var f := CheckedFlags(u, s.collection, s.epochs, s.counter);
    var ep := CheckedEpochs(u, s.collection, s.epochs, s.counter);
    CheckedIn(u, s, true, e);
    if AtHome(u, s.table, e) {
      var loc :| KeptAt(u, s.table, e, loc, f, ep, t.collection, t.epochs);
      InAt(t.table, t.collection, t.epochs, loc);
    } else {
      DisplacedKeepsEpochs(u, s.table, f, ep, e, true, -1, u.depth_limit, true, e);
    }
  }

  lemma OthersAfterLook(u: Setup, s: Store, e: Element, erase: bool, t: Store, b: bool, x: Element)
    requires LookStep(u, s, e, erase, t) && (x != e || !erase)
    ensures InStore(t, b, x) <==> InStore(s, b, x)
  {
    if erase && AtHome(u, s.table, e) {
      var loc: nat :| loc < u.size && s.table[loc] == e && t == s.(collection := s.collection[loc := true]);
      if i :| 0 <= i < |s.table| && s.table[i] == x && !s.collection[i] && s.epochs[i] == b {
        InAt(t.table, t.collection, t.epochs, i);
      }
    }
  }

  /** Nothing is done to x itself from step j up to step k. */
  ghost predicate Untouched(ops: seq<Op>, drops: seq<seq<Element>>, j: nat, k: nat, x: Element)
    requires k <= |ops| == |drops|
  {
    forall i :: j <= i < k ==> drops[i] != [x] && ops[i] != Insert(x) && ops[i] != Look(x, true)
  }

  lemma StepOfOthers(u: Setup, s: Store, op: Op, t: Store, dropped: seq<Element>, b: bool, x: Element)
    requires Step(u, s, op, t, dropped) && dropped != [x] && op != Insert(x) && op != Look(x, true)
    ensures InStore(t, b, x) <==> if AgesAt(u, s, op) then !b && InStore(s, true, x) else InStore(s, b, x)
  {
    hide InStore, InsertStep, LookStep, Ages;
    assert op.Insert? ==> Fits(u, s) by { if op.Insert? { InsertFits(u, s, op.e, t, dropped); } }
    match op
    case Insert(e) => OthersAfterInsert(u, s, e, t, dropped, b, x);
    case Look(e, erase) => OthersAfterLook(u, s, e, erase, t, b, x);
  }

  lemma InsertFits(u: Setup, s: Store, e: Element, t: Store, dropped: seq<Element>)
    requires InsertStep(u, s, e, t, dropped)
    ensures Fits(u, s)
  {}

  /** An element once inserted and not dropped, while it is not inserted again, erased or dropped: current until the
      table is aged, of the old epoch until it is aged again, and then marked for collection. */
  lemma {:induction false} AgesWithTable(u: Setup, ss: seq<Store>, ops: seq<Op>, drops: seq<seq<Element>>,
                                         j: nat, k: nat, x: Element)
    requires Run(u, ss, ops, drops) && j < k <= |ops| && ops[j] == Insert(x) && drops[j] != [x]
    requires Untouched(ops, drops, j + 1, k, x)
    ensures var n := Ageings(u, ss, ops, j + 1, k);
            && (n == 0 ==> InStore(ss[k], true, x))
            && (n == 1 ==> InStore(ss[k], false, x) && !InStore(ss[k], true, x))
            && (n >= 2 ==> !InStore(ss[k], false, x) && !InStore(ss[k], true, x))
    decreases k
  {
    hide InStore, Step, AgesAt;
    assert Step(u, ss[k - 1], ops[k - 1], ss[k], drops[k - 1]);
    if k == j + 1 {
      FirstStep(u, ss[j], x, ss[k], drops[j]);
    } else {
      AgesWithTable(u, ss, ops, drops, j, k - 1, x);
      StepOfOthers(u, ss[k - 1], ops[k - 1], ss[k], drops[k - 1], true, x);
      StepOfOthers(u, ss[k - 1], ops[k - 1], ss[k], drops[k - 1], false, x);
    }
  }

  lemma FirstStep(u: Setup, s: Store, x: Element, t: Store, dropped: seq<Element>)
    requires Step(u, s, Insert(x), t, dropped) && dropped != [x]
    ensures InStore(t, true, x)
  {
    InsertedIsCurrent(u, s, x, t, dropped);
  }

  /** Between its insert and the second ageing after it an element is lost only if it is erased or dropped by a
      displacement, and from then on it is not there unless it is inserted again. */
  lemma KeptUntilSecondAgeing(u: Setup, ss: seq<Store>, ops: seq<Op>, drops: seq<seq<Element>>, j: nat, k: nat,
                              x: Element)
    requires Run(u, ss, ops, drops) && j < k <= |ops| && ops[j] == Insert(x) && drops[j] != [x]
    requires Untouched(ops, drops, j + 1, k, x) && Fits(u, ss[k])
    ensures x in Residents(ss[k].table, ss[k].collection) <==> Ageings(u, ss, ops, j + 1, k) < 2
  {
    hide Step, Residents;
    AgesWithTable(u, ss, ops, drops, j, k, x);
    var s := ss[k];
    ResidentsIn(s.table, s.collection, x);
    if i :| 0 <= i < |s.table| && s.table[i] == x && !s.collection[i] { InAt(s.table, s.collection, s.epochs, i); }
  }
}
