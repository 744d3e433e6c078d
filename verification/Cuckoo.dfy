/** The signature cache: a cuckoo table with eight locations per element and lazy collection. */
module Cuckoo {
  import F = FastRange

  /** A 256-bit hash; the table starts out holding the default one. */
  type Element = nat
  const DEFAULT: Element := 0

  /** What setup fixes. */
  datatype Setup = Setup(hash: (nat, Element) -> nat, size: nat, epoch_size: nat, depth_limit: nat)

  /** The k-th location: the 32-bit hash scaled to the table. */
  function Loc(u: Setup, e: Element, k: nat): nat {
    F.FastMod(u.hash(k, e) % 0x1_0000_0000, u.size)
  }

  lemma LocBelow(u: Setup, e: Element, k: nat)
    requires u.size > 0
    ensures Loc(u, e, k) < u.size
  {
    F.FastModBelow(u.hash(k, e) % 0x1_0000_0000, u.size);
  }

  /** A location follows its hash: it is the share of the range the hash falls into, and no slot has an empty share. */
  lemma LocIff(u: Setup, e: Element, k: nat, loc: nat)
    requires loc < u.size <= 0x1_0000_0000
    ensures var h := u.hash(k, e) % 0x1_0000_0000;
            Loc(u, e, k) == loc <==> F.First(loc, u.size) <= h < F.First(loc + 1, u.size)
    ensures F.First(loc, u.size) < F.First(loc + 1, u.size)
  {
    F.FastModEven(loc, u.size);
    F.FastModOnto(loc, u.size, 0);
  }

  function Locs(u: Setup, e: Element): (r: seq<nat>)
    ensures |r| == 8 && forall k :: 0 <= k < 8 ==> r[k] == Loc(u, e, k)
  {
    seq(8, k requires 0 <= k < 8 => Loc(u, e, k))
  }

  lemma LocsBelow(u: Setup, e: Element)
    requires u.size > 0
    ensures forall k :: 0 <= k < 8 ==> Locs(u, e)[k] < u.size
  {
    hide Loc;
    forall k | 0 <= k < 8 ensures Locs(u, e)[k] < u.size { LocBelow(u, e, k); }
  }

  // ---- what the table holds

  /** The elements not marked for collection. */
  ghost function Residents(t: seq<Element>, f: seq<bool>): multiset<Element>
    requires |t| == |f|
  {
    if t == [] then multiset{}
    else
      var n := |t| - 1;
      Residents(t[..n], f[..n]) + if f[n] then multiset{} else multiset{t[n]}
  }

  /** The residents of the current epoch. */
  ghost function Live(f: seq<bool>, ep: seq<bool>): nat
    requires |f| == |ep|
  {
    if f == [] then 0
    else
      var n := |f| - 1;
      Live(f[..n], ep[..n]) + if ep[n] && !f[n] then 1 else 0
  }

  ghost function One(x: Element, flagged: bool): multiset<Element> {
    if flagged then multiset{} else multiset{x}
  }

  lemma Shuffle(now: multiset<Element>, o: multiset<Element>, was: multiset<Element>, p: multiset<Element>,
                z: multiset<Element>)
    requires now + o == was + p
    ensures (now + z) + o == (was + z) + p
  {
    assert (now + z) + o == (now + o) + z;
    assert (was + z) + p == (was + p) + z;
  }

  lemma ResidentsLast(t: seq<Element>, f: seq<bool>)
    requires |t| == |f| > 0
    ensures Residents(t, f) == Residents(t[..|t| - 1], f[..|t| - 1]) + One(t[|t| - 1], f[|t| - 1])
  {}

  lemma {:induction false} ResidentsSet(t: seq<Element>, f: seq<bool>, i: nat, x: Element, a: bool)
    requires |t| == |f| && i < |t|
    ensures Residents(t[i := x], f[i := a]) + One(t[i], f[i]) == Residents(t, f) + One(x, a)
  {
    hide Residents, One;
    var n := |t| - 1;
    ResidentsLast(t, f);
    ResidentsLast(t[i := x], f[i := a]);
    if i == n {
      assert t[i := x][..n] == t[..n] && f[i := a][..n] == f[..n];
      assert Residents(t[..n], f[..n]) + One(x, a) + One(t[i], f[i]) ==
          Residents(t[..n], f[..n]) + One(t[i], f[i]) + One(x, a);
    } else {
      ResidentsSet(t[..n], f[..n], i, x, a);
      assert t[i := x][..n] == t[..n][i := x] && f[i := a][..n] == f[..n][i := a];
      Shuffle(Residents(t[..n][i := x], f[..n][i := a]), One(t[i], f[i]), Residents(t[..n], f[..n]), One(x, a),
              One(t[n], f[n]));
    }
  }

  lemma {:induction false} LiveSet(f: seq<bool>, ep: seq<bool>, i: nat, a: bool, b: bool)
    requires |f| == |ep| && i < |f|
    ensures Live(f[i := a], ep[i := b]) == Live(f, ep) - (if ep[i] && !f[i] then 1 else 0) + (if b && !a then 1 else 0)
    ensures Live(f, ep) >= if ep[i] && !f[i] then 1 else 0
  {
    var n := |f| - 1;
    if i == n {
      assert f[i := a][..n] == f[..n] && ep[i := b][..n] == ep[..n];
    } else {
      LiveSet(f[..n], ep[..n], i, a, b);
      assert f[i := a][..n] == f[..n][i := a] && ep[i := b][..n] == ep[..n][i := b];
    }
  }

  lemma LivePrefix(f: seq<bool>, ep: seq<bool>, i: nat)
    requires |f| == |ep| && i < |f|
    ensures Live(f[..i + 1], ep[..i + 1]) == Live(f[..i], ep[..i]) + if ep[i] && !f[i] then 1 else 0
  {
    assert f[..i + 1][..i] == f[..i] && ep[..i + 1][..i] == ep[..i];
  }

  lemma {:induction false} LiveNone(f: seq<bool>, ep: seq<bool>)
    requires |f| == |ep| && forall i :: 0 <= i < |f| ==> !ep[i] || f[i]
    ensures Live(f, ep) == 0
  {
    if f != [] { LiveNone(f[..|f| - 1], ep[..|f| - 1]); }
  }

  lemma {:induction false} ResidentsIn(t: seq<Element>, f: seq<bool>, x: Element)
    requires |t| == |f|
    ensures x in Residents(t, f) <==> exists i :: 0 <= i < |t| && t[i] == x && !f[i]
  {
    if t != [] {
      var n := |t| - 1;
      ResidentsIn(t[..n], f[..n], x);
      if exists i :: 0 <= i < |t| && t[i] == x && !f[i] {
        var i :| 0 <= i < |t| && t[i] == x && !f[i];
        if i < n { assert t[..n][i] == x && !f[..n][i]; }
      }
    }
  }

  /** Every slot holds an element that belongs there, or was never used. */
  ghost predicate Homed(u: Setup, t: seq<Element>, f: seq<bool>) {
    |t| == |f| == u.size && forall i :: 0 <= i < |t| ==> i in Locs(u, t[i]) || (f[i] && t[i] == DEFAULT)
  }

  ghost predicate NoDuplicates(t: seq<Element>) {
    forall i, j :: 0 <= i < j < |t| && t[i] == t[j] ==> t[i] == DEFAULT
  }

  ghost predicate Absent(t: seq<Element>, e: Element) {
    e == DEFAULT || forall i :: 0 <= i < |t| ==> t[i] != e
  }

  /** Looking at the eight locations of an element is looking at the whole table. */
  lemma FoundAtHome(u: Setup, t: seq<Element>, f: seq<bool>, e: Element)
    requires Homed(u, t, f) && forall k :: 0 <= k < 8 && Locs(u, e)[k] < |t| ==> t[Locs(u, e)[k]] != e
    ensures Absent(t, e)
  {}

  // ---- epochs

  function Slack(epoch_size: nat): nat {
    if epoch_size / 16 > 1 then epoch_size / 16 else 1
  }

  function Max(a: nat, b: nat): nat { if a < b then b else a }

  /** The live part of the current epoch and the inserts still to come before the next scan stay within bounds. */
  ghost predicate Bounded(u: Setup, f: seq<bool>, ep: seq<bool>, counter: nat) {
    |f| == |ep| && Live(f, ep) + counter <= u.epoch_size + Slack(u.epoch_size)
  }

  /** What the check before an insert does to the flags. */
  ghost function CheckedFlags(u: Setup, f: seq<bool>, ep: seq<bool>, counter: nat): seq<bool>
    requires |f| == |ep|
  {
    if counter == 0 && Live(f, ep) >= u.epoch_size then seq(|f|, i requires 0 <= i < |f| => f[i] || !ep[i]) else f
  }

  ghost function CheckedEpochs(u: Setup, f: seq<bool>, ep: seq<bool>, counter: nat): seq<bool>
    requires |f| == |ep|
  {
    if counter == 0 && Live(f, ep) >= u.epoch_size then seq(|ep|, _ => false) else ep
  }

  ghost function CheckedCounter(u: Setup, f: seq<bool>, ep: seq<bool>, counter: nat): nat
    requires |f| == |ep|
  {
    if counter != 0 then counter - 1
    else if Live(f, ep) >= u.epoch_size then u.epoch_size
    else Max(1, Max(u.epoch_size / 16, u.epoch_size - Live(f, ep)))
  }

  /** After the check there is room for one more live element. */
  lemma CheckLeavesRoom(u: Setup, f: seq<bool>, ep: seq<bool>, counter: nat)
    requires Bounded(u, f, ep, counter)
    ensures var g, dp := CheckedFlags(u, f, ep, counter), CheckedEpochs(u, f, ep, counter);
            |g| == |dp| == |f| &&
            Live(g, dp) + 1 + CheckedCounter(u, f, ep, counter) <= u.epoch_size + Slack(u.epoch_size)
  {
    if counter == 0 && Live(f, ep) >= u.epoch_size {
      LiveNone(CheckedFlags(u, f, ep, counter), CheckedEpochs(u, f, ep, counter));
    }
  }

  lemma CheckKeepsHomes(u: Setup, t: seq<Element>, f: seq<bool>, ep: seq<bool>, counter: nat)
    requires |f| == |ep| && Homed(u, t, f)
    ensures Homed(u, t, CheckedFlags(u, f, ep, counter))
  {}

  /** The residents of one of the two epochs. */
  ghost function OfEpoch(s: Store, epoch: bool): multiset<Element>
    requires |s.table| == |s.collection| == |s.epochs|
  {
    Residents(s.table, seq(|s.table|, i requires 0 <= i < |s.table| => s.collection[i] || s.epochs[i] != epoch))
  }

  lemma {:induction false} ResidentsParted(t: seq<Element>, f: seq<bool>, g: seq<bool>, h: seq<bool>)
    requires |t| == |f| == |g| == |h|
    requires forall i :: 0 <= i < |t| ==> (f[i] <==> g[i] && h[i]) && (g[i] || h[i])
    ensures Residents(t, f) == Residents(t, g) + Residents(t, h)
  {
    if t != [] {
      var n := |t| - 1;
      ResidentsParted(t[..n], f[..n], g[..n], h[..n]);
      assert (f[n] <==> g[n] && h[n]) && (g[n] || h[n]);
    }
  }

  /** The check before an insert takes nobody from the table but, when it ages it, the residents of the old epoch; those
      of the current one become the old. */
  lemma AgeingTakesOldEpoch(u: Setup, s: Store)
    requires Fits(u, s)
    ensures var f := CheckedFlags(u, s.collection, s.epochs, s.counter);
            var ep := CheckedEpochs(u, s.collection, s.epochs, s.counter);
            && |f| == |ep| == |s.table|
            && (forall i :: 0 <= i < |f| && !s.collection[i] ==> (f[i] <==> Ages(u, s) && !s.epochs[i]))
            && (forall i :: 0 <= i < |f| && s.collection[i] ==> f[i])
            && Residents(s.table, f) + (if Ages(u, s) then OfEpoch(s, false) else multiset{}) ==
                 Residents(s.table, s.collection)
            && (Ages(u, s) ==> OfEpoch(Store(s.table, f, ep, 0), false) == OfEpoch(s, true))
            && (Ages(u, s) ==> OfEpoch(Store(s.table, f, ep, 0), true) == multiset{})
  {
    var f := CheckedFlags(u, s.collection, s.epochs, s.counter);
    var ep := CheckedEpochs(u, s.collection, s.epochs, s.counter);
    hide Live, Residents;
    if Ages(u, s) {
      var older := seq(|s.table|, i requires 0 <= i < |s.table| => s.collection[i] || s.epochs[i] != false);
      var current := seq(|s.table|, i requires 0 <= i < |s.table| => s.collection[i] || s.epochs[i] != true);
      assert f == current;
      ResidentsParted(s.table, s.collection, current, older);
      assert seq(|s.table|, i requires 0 <= i < |s.table| => f[i] || ep[i] != false) == f;
      NoResidents(s.table, seq(|s.table|, i requires 0 <= i < |s.table| => f[i] || ep[i] != true));
    }
  }

  /** After a scan that does not age the table the next comes no sooner than the current epoch can be full, and not
      before a sixteenth of an epoch. */
  lemma ScanPause(u: Setup, s: Store)
    requires Fits(u, s) && s.counter == 0
    ensures var n := CheckedCounter(u, s.collection, s.epochs, s.counter);
            && (Ages(u, s) ==> n == u.epoch_size)
            && (!Ages(u, s) ==>
                 && n >= 1 && n >= u.epoch_size / 16 && n + Live(s.collection, s.epochs) >= u.epoch_size
                 && (n == 1 || n == u.epoch_size / 16 || n + Live(s.collection, s.epochs) == u.epoch_size))
  {}

  // ---- one insert

  /** While an element is carried from slot to slot: nobody is lost and the live count is settled. */
  ghost predicate Carrying(u: Setup, t: seq<Element>, f: seq<bool>, ep: seq<bool>, e: Element, epoch: bool,
                           all: multiset<Element>, live: nat) {
    && |t| == |f| == |ep| == u.size
    && Homed(u, t, f) && NoDuplicates(t) && Absent(t, e)
    && Residents(t, f) + multiset{e} == all
    && Live(f, ep) + (if epoch then 1 else 0) == live
  }

  /** The carried element is put into a collected slot of its own. */
  lemma PutDown(u: Setup, t: seq<Element>, f: seq<bool>, ep: seq<bool>, e: Element, epoch: bool,
                all: multiset<Element>, live: nat, loc: nat)
    requires Carrying(u, t, f, ep, e, epoch, all, live)
    requires loc in Locs(u, e) && loc < u.size && f[loc]
    ensures var t1, f1, ep1 := t[loc := e], f[loc := false], ep[loc := epoch];
            Homed(u, t1, f1) && NoDuplicates(t1) && Residents(t1, f1) == all && Live(f1, ep1) == live
  {
    hide Residents, Live, Locs;
    ResidentsSet(t, f, loc, e, false);
    LiveSet(f, ep, loc, false, epoch);
  }

  /** The carried element takes a resident's slot and the resident is carried on. */
  lemma Swapped(u: Setup, t: seq<Element>, f: seq<bool>, ep: seq<bool>, e: Element, epoch: bool,
                all: multiset<Element>, live: nat, loc: nat)
    requires Carrying(u, t, f, ep, e, epoch, all, live)
    requires loc in Locs(u, e) && loc < u.size && !f[loc]
    ensures Carrying(u, t[loc := e], f, ep[loc := epoch], t[loc], ep[loc], all, live)
  {
    hide Residents, Live, Locs;
    assert f[loc := false] == f;
    ResidentsSet(t, f, loc, e, false);
    LiveSet(f, ep, loc, false, epoch);
  }

  /** An element found in the table is kept and made current. */
  lemma Kept(u: Setup, t: seq<Element>, f: seq<bool>, ep: seq<bool>, e: Element, loc: nat)
    requires |t| == |f| == |ep| == u.size && Homed(u, t, f)
    requires loc in Locs(u, e) && loc < u.size && t[loc] == e
    ensures var f1, ep1 := f[loc := false], ep[loc := true];
            && Homed(u, t, f1) && Live(f1, ep1) <= Live(f, ep) + 1
            && Residents(t, f1) == if f[loc] then Residents(t, f) + multiset{e} else Residents(t, f)
  {
    hide Residents, Live, Locs;
    assert t[loc := e] == t;
    ResidentsSet(t, f, loc, e, false);
    LiveSet(f, ep, loc, false, true);
    assert !f[loc] ==> f[loc := false] == f;
  }

  /** The element's slot is live and current, every other slot is as the check left it, and nobody went. */
  ghost predicate KeptAt(u: Setup, t: seq<Element>, e: Element, loc: nat,
                         f: seq<bool>, ep: seq<bool>, f1: seq<bool>, ep1: seq<bool>)
    requires |t| == |f| == |ep| == |f1| == |ep1| == u.size
  {
    && loc < u.size && loc in Locs(u, e) && t[loc] == e && f1 == f[loc := false] && ep1 == ep[loc := true]
    && Residents(t, f1) == if f[loc] then Residents(t, f) + multiset{e} else Residents(t, f)
  }

  // ---- the walk of displacements

  /** One of the eight locations of the element is marked for collection. */
  ghost predicate Open(u: Setup, f: seq<bool>, e: Element)
    requires |f| == u.size > 0
  {
    LocsBelow(u, e);
    exists k :: 0 <= k < 8 && f[Locs(u, e)[k]]
  }

  ghost predicate IsFirstOpen(f: seq<bool>, locs: seq<nat>, loc: nat)
    requires forall k :: 0 <= k < |locs| ==> locs[k] < |f|
  {
    exists k :: 0 <= k < |locs| && locs[k] == loc && f[loc] && forall m :: 0 <= m < k ==> !f[locs[m]]
  }

  lemma {:induction false} HasFirstOpen(f: seq<bool>, locs: seq<nat>, k: nat)
    requires (forall k :: 0 <= k < |locs| ==> locs[k] < |f|) && k < |locs| && f[locs[k]]
    ensures exists loc :: IsFirstOpen(f, locs, loc)
    decreases k
  {
    if m :| 0 <= m < k && f[locs[m]] {
      HasFirstOpen(f, locs, m);
    } else {
      assert IsFirstOpen(f, locs, locs[k]);
    }
  }

  /** The first of the locations that is marked for collection. */
  ghost function FirstOpen(u: Setup, f: seq<bool>, e: Element): (loc: nat)
    requires |f| == u.size > 0 && Open(u, f, e)
    ensures loc < u.size && f[loc] && loc in Locs(u, e)
  {
    LocsBelow(u, e);
    var k :| 0 <= k < 8 && f[Locs(u, e)[k]];
    HasFirstOpen(f, Locs(u, e), k);
    var loc :| IsFirstOpen(f, Locs(u, e), loc);
    loc
  }

  lemma FirstOpenIs(u: Setup, f: seq<bool>, e: Element, k: nat)
    requires |f| == u.size > 0 && k < 8 && Locs(u, e)[k] < u.size && f[Locs(u, e)[k]]
    requires forall m :: 0 <= m < k ==> Locs(u, e)[m] < u.size && !f[Locs(u, e)[m]]
    ensures Open(u, f, e) && FirstOpen(u, f, e) == Locs(u, e)[k]
  {
    LocsBelow(u, e);
    assert f[Locs(u, e)[k]];
    assert Open(u, f, e);
    var loc := FirstOpen(u, f, e);
    assert IsFirstOpen(f, Locs(u, e), loc);
    var j :| 0 <= j < 8 && Locs(u, e)[j] == loc && forall m :: 0 <= m < j ==> !f[Locs(u, e)[m]];
  }

  /** Where a location stands in the list, its length when it does not. */
  function Place(locs: seq<nat>, loc: int): (k: nat)
    ensures k <= |locs| && (k < |locs| ==> locs[k] == loc) && forall m :: 0 <= m < k ==> locs[m] != loc
  {
    if locs == [] || locs[0] == loc then 0 else 1 + Place(locs[1..], loc)
  }

  /** The location after the last one looked at; the second when there was none. */
  function After(u: Setup, e: Element, last: int): (loc: nat)
    requires u.size > 0
    ensures loc < u.size && loc in Locs(u, e)
  {
    LocsBelow(u, e);
    Locs(u, e)[(1 + Place(Locs(u, e), last)) % 8]
  }

  /** The table and flags after the displacements, and the element dropped if it came to that. */
  datatype Outcome = Outcome(table: seq<Element>, collection: seq<bool>, epochs: seq<bool>, dropped: seq<Element>)

  /** Slot after slot is taken over until one marked for collection is met or the depth is used up. */
  ghost function Displaced(u: Setup, t: seq<Element>, f: seq<bool>, ep: seq<bool>,
                           e: Element, epoch: bool, last: int, depth: nat): Outcome
    requires |t| == |f| == |ep| == u.size > 0
    decreases depth
  {
    if depth == 0 then Outcome(t, f, ep, [e])
    else if Open(u, f, e) then
      var loc := FirstOpen(u, f, e);
      Outcome(t[loc := e], f[loc := false], ep[loc := epoch], [])
    else
      var loc := After(u, e, last);
      Displaced(u, t[loc := e], f, ep[loc := epoch], t[loc], ep[loc], loc, depth - 1)
  }

  /** The element carried after i swaps. */
  ghost function Carried(u: Setup, t: seq<Element>, e: Element, last: int, i: nat): Element
    requires |t| == u.size > 0
    decreases i
  {
    if i == 0 then e
    else
      var loc := After(u, e, last);
      Carried(u, t[loc := e], t[loc], loc, i - 1)
  }

  /** Nothing is dropped if and only if one of the elements carried within the depth has a location marked for
      collection; otherwise it is the element carried last. */
  lemma {:induction false} DroppedIff(u: Setup, t: seq<Element>, f: seq<bool>, ep: seq<bool>,
                                      e: Element, epoch: bool, last: int, depth: nat)
    requires |t| == |f| == |ep| == u.size > 0
    ensures var d := Displaced(u, t, f, ep, e, epoch, last, depth).dropped;
            if exists i :: 0 <= i < depth && Open(u, f, Carried(u, t, e, last, i)) then d == []
            else d == [Carried(u, t, e, last, depth)]
    decreases depth
  {
    hide Open, FirstOpen, After;
    if depth > 0 {
      if Open(u, f, e) {
        assert Open(u, f, Carried(u, t, e, last, 0));
      } else {
        var loc := After(u, e, last);
        var t1, x := t[loc := e], t[loc];
        DroppedIff(u, t1, f, ep[loc := epoch], x, ep[loc], loc, depth - 1);
        forall i | 0 <= i < depth - 1
          ensures Carried(u, t, e, last, i + 1) == Carried(u, t1, x, loc, i) {}
        if i :| 0 <= i < depth && Open(u, f, Carried(u, t, e, last, i)) {
          assert i > 0;
          assert Carried(u, t, e, last, (i - 1) + 1) == Carried(u, t1, x, loc, i - 1);
        }
        if i :| 0 <= i < depth - 1 && Open(u, f, Carried(u, t1, x, loc, i)) {
          assert Open(u, f, Carried(u, t, e, last, i + 1));
        }
      }
    }
  }

  /** Everybody is accounted for: residents and dropped together are all there were. */
  ghost predicate Accounted(u: Setup, d: Outcome, all: multiset<Element>, live: nat) {
    && |d.table| == |d.collection| == |d.epochs| == u.size
    && Homed(u, d.table, d.collection) && NoDuplicates(d.table)
    && Residents(d.table, d.collection) + multiset(d.dropped) == all && Live(d.collection, d.epochs) <= live
  }

  lemma DroppedAccounted(u: Setup, t: seq<Element>, f: seq<bool>, ep: seq<bool>, e: Element, epoch: bool,
                         all: multiset<Element>, live: nat)
    requires Carrying(u, t, f, ep, e, epoch, all, live)
    ensures Accounted(u, Outcome(t, f, ep, [e]), all, live)
  {
    hide Residents, Live, Locs, Homed, NoDuplicates;
  }

  lemma PutDownAccounted(u: Setup, t: seq<Element>, f: seq<bool>, ep: seq<bool>, e: Element, epoch: bool,
                         all: multiset<Element>, live: nat, loc: nat)
    requires Carrying(u, t, f, ep, e, epoch, all, live)
    requires loc in Locs(u, e) && loc < u.size && f[loc]
    ensures Accounted(u, Outcome(t[loc := e], f[loc := false], ep[loc := epoch], []), all, live)
  {
    PutDown(u, t, f, ep, e, epoch, all, live, loc);
    hide Residents, Live, Locs, Homed, NoDuplicates;
  }

  lemma DisplacedOnce(u: Setup, t: seq<Element>, f: seq<bool>, ep: seq<bool>,
                      e: Element, epoch: bool, last: int, depth: nat, loc: nat)
    requires |t| == |f| == |ep| == u.size > 0 && depth > 0
    requires loc == if Open(u, f, e) then FirstOpen(u, f, e) else After(u, e, last)
    ensures Displaced(u, t, f, ep, e, epoch, last, depth) ==
              if Open(u, f, e) then Outcome(t[loc := e], f[loc := false], ep[loc := epoch], [])
              else Displaced(u, t[loc := e], f, ep[loc := epoch], t[loc], ep[loc], loc, depth - 1)
  {
    hide Open, FirstOpen, After;
  }

  lemma {:induction false} NobodyElseLost(u: Setup, t: seq<Element>, f: seq<bool>, ep: seq<bool>, e: Element,
                                          epoch: bool, last: int, depth: nat, all: multiset<Element>, live: nat)
    requires u.size > 0 && Carrying(u, t, f, ep, e, epoch, all, live)
    ensures Accounted(u, Displaced(u, t, f, ep, e, epoch, last, depth), all, live)
    decreases depth
  {
    hide Residents, Live, Locs, Carrying, Accounted, Open, FirstOpen, After, Homed, NoDuplicates, Absent;
    CarryingShape(u, t, f, ep, e, epoch, all, live);
    if depth == 0 {
      DroppedAccounted(u, t, f, ep, e, epoch, all, live);
    } else if Open(u, f, e) {
      hide Displaced;
      var loc := FirstOpen(u, f, e);
      DisplacedOnce(u, t, f, ep, e, epoch, last, depth, loc);
      PutDownAccounted(u, t, f, ep, e, epoch, all, live, loc);
    } else {
      hide Displaced;
      var loc := After(u, e, last);
      DisplacedOnce(u, t, f, ep, e, epoch, last, depth, loc);
      NotOpen(u, f, e, loc);
      Swapped(u, t, f, ep, e, epoch, all, live, loc);
      NobodyElseLost(u, t[loc := e], f, ep[loc := epoch], t[loc], ep[loc], loc, depth - 1, all, live);
    }
  }

  lemma NotOpen(u: Setup, f: seq<bool>, e: Element, loc: nat)
    requires |f| == u.size > 0 && !Open(u, f, e) && loc in Locs(u, e) && loc < u.size
    ensures !f[loc]
  {
    var k :| 0 <= k < 8 && Locs(u, e)[k] == loc;
  }

  lemma CarryingShape(u: Setup, t: seq<Element>, f: seq<bool>, ep: seq<bool>, e: Element, epoch: bool,
                      all: multiset<Element>, live: nat)
    requires Carrying(u, t, f, ep, e, epoch, all, live)
    ensures |t| == |f| == |ep| == u.size
  {}

  /** The element sits in one of its locations. */
  ghost predicate AtHome(u: Setup, t: seq<Element>, e: Element)
    requires |t| == u.size > 0
  {
    LocsBelow(u, e);
    exists k :: 0 <= k < 8 && t[Locs(u, e)[k]] == e
  }

  /** When a location of the element is marked for collection the element goes there and everything else stays. */
  lemma RoomMeansKept(u: Setup, t: seq<Element>, f: seq<bool>, ep: seq<bool>, e: Element, last: int, depth: nat)
    requires |t| == |f| == |ep| == u.size > 0 && Open(u, f, e) && depth >= 1
    ensures var d, loc := Displaced(u, t, f, ep, e, true, last, depth), FirstOpen(u, f, e);
            && d.dropped == [] && d.table == t[loc := e] && d.collection == f[loc := false] &&
                 d.epochs == ep[loc := true]
            && AtHome(u, d.table, e)
  {
    var loc := FirstOpen(u, f, e);
    var k :| 0 <= k < 8 && Locs(u, e)[k] == loc;
  }

  // ---- the steps of a cache

  /** Contents and flags of a cache. */
  datatype Store = Store(table: seq<Element>, collection: seq<bool>, epochs: seq<bool>, counter: nat)

  ghost predicate Fits(u: Setup, s: Store) {
    |s.table| == |s.collection| == |s.epochs| == u.size > 0
  }

  /** The scan before an insert is due and finds the current epoch full. */
  ghost predicate Ages(u: Setup, s: Store)
    requires Fits(u, s)
  {
    s.counter == 0 && Live(s.collection, s.epochs) >= u.epoch_size
  }

  /** An element in one of its locations is made current; any other is put into the table by displacements. */
  ghost predicate InsertStep(u: Setup, s: Store, e: Element, t: Store, dropped: seq<Element>) {
    && Fits(u, s) && Fits(u, t) && t.counter == CheckedCounter(u, s.collection, s.epochs, s.counter)
    && var f := CheckedFlags(u, s.collection, s.epochs, s.counter);
       var ep := CheckedEpochs(u, s.collection, s.epochs, s.counter);
       if AtHome(u, s.table, e) then
         dropped == [] && t.table == s.table && exists loc :: KeptAt(u, s.table, e, loc, f, ep, t.collection, t.epochs)
       else
         Outcome(t.table, t.collection, t.epochs, dropped) ==
           Displaced(u, s.table, f, ep, e, true, -1, u.depth_limit)
  }

  /** A look-up marks the slot of the element it found and is to erase. */
  ghost predicate LookStep(u: Setup, s: Store, e: Element, erase: bool, t: Store) {
    && Fits(u, s)
    && if erase && AtHome(u, s.table, e) then
         exists loc: nat :: loc < u.size && s.table[loc] == e && t == s.(collection := s.collection[loc := true])
       else t == s
  }

  class Cache {
    var table: array<Element>
    var collection_flags: array<bool>
    var epoch_flags: array<bool>
    var epoch_heuristic_counter: nat
    const setup: Setup

    ghost predicate Shaped()
      reads this
    {
      && setup.size > 0 && table.Length == collection_flags.Length == epoch_flags.Length == setup.size
      && collection_flags != epoch_flags
    }

    ghost function Contents(): Store
      reads this, table, collection_flags, epoch_flags
    {
      Store(table[..], collection_flags[..], epoch_flags[..], epoch_heuristic_counter)
    }

    ghost predicate Valid()
      reads this, table, collection_flags, epoch_flags
    {
      && Shaped()
      && Homed(setup, table[..], collection_flags[..]) && NoDuplicates(table[..])
      && Bounded(setup, collection_flags[..], epoch_flags[..], epoch_heuristic_counter)
    }

    constructor (hash: (nat, Element) -> nat, new_size: nat, depth_limit: nat)
      ensures Valid() && fresh(table) && fresh(collection_flags) && fresh(epoch_flags)
      ensures setup.size == Max(2, new_size) && setup.epoch_size == Max(1, 45 * setup.size / 100)
      ensures Residents(table[..], collection_flags[..]) == multiset{}
    {
      var size := Max(2, new_size);
      var epoch_size := Max(1, 45 * size / 100);
      setup := Setup(hash, size, epoch_size, depth_limit);
      table := new Element[size](_ => DEFAULT);
      collection_flags := new bool[size](_ => true);
      epoch_flags := new bool[size](_ => false);
      epoch_heuristic_counter := epoch_size;
      new;
      LiveNone(collection_flags[..], epoch_flags[..]);
      NoResidents(table[..], collection_flags[..]);
    }

    /** The number of live elements of the current epoch. */
    method CountLive() returns (count: nat)
      requires Shaped()
      ensures count == Live(collection_flags[..], epoch_flags[..])
    {
      hide Live;
      count := 0;
      assert Live([], []) == 0 by { LiveNone([], []); }
      for i := 0 to setup.size
        invariant count == Live(collection_flags[..i], epoch_flags[..i])
      {
        LivePrefix(collection_flags[..], epoch_flags[..], i);
        assert collection_flags[..][..i + 1] == collection_flags[..i + 1] &&
            collection_flags[..][..i] == collection_flags[..i];
        assert epoch_flags[..][..i + 1] == epoch_flags[..i + 1] && epoch_flags[..][..i] == epoch_flags[..i];
        if epoch_flags[i] && !collection_flags[i] { count := count + 1; }
      }
      assert collection_flags[..setup.size] == collection_flags[..] && epoch_flags[..setup.size] == epoch_flags[..];
    }

    method EpochCheck()
      requires Shaped()
      modifies this`epoch_heuristic_counter, collection_flags, epoch_flags
      ensures Shaped()
      ensures collection_flags[..] == old(CheckedFlags(setup, collection_flags[..], epoch_flags[..],
                                                       epoch_heuristic_counter))
      ensures epoch_flags[..] == old(CheckedEpochs(setup, collection_flags[..], epoch_flags[..],
                                                   epoch_heuristic_counter))
      ensures epoch_heuristic_counter ==
                old(CheckedCounter(setup, collection_flags[..], epoch_flags[..], epoch_heuristic_counter))
      ensures Residents(table[..], collection_flags[..]) +
                (if old(Ages(setup, Contents())) then OfEpoch(old(Contents()), false) else multiset{}) ==
              old(Residents(table[..], collection_flags[..]))
    {
      hide Live, Residents, OfEpoch;
      AgeingTakesOldEpoch(setup, Contents());
      if epoch_heuristic_counter != 0 {
        epoch_heuristic_counter := epoch_heuristic_counter - 1;
        return;
      }
      var count := CountLive();
      if count >= setup.epoch_size {
        for i := 0 to setup.size
          invariant forall j :: 0 <= j < i ==>
                      !epoch_flags[j] && collection_flags[j] == (old(collection_flags[j]) || !old(epoch_flags[j]))
          invariant forall j :: i <= j < setup.size ==>
                      epoch_flags[j] == old(epoch_flags[j]) && collection_flags[j] == old(collection_flags[j])
        {
          if epoch_flags[i] { epoch_flags[i] := false; } else { collection_flags[i] := true; }
        }
        epoch_heuristic_counter := setup.epoch_size;
      } else {
        epoch_heuristic_counter := Max(1, Max(setup.epoch_size / 16, setup.epoch_size - count));
      }
    }

    /** Looks through the eight locations for the element. */
    method Find(e: Element, locs: seq<nat>) returns (found: bool, loc: nat)
      requires Shaped() && forall k :: 0 <= k < |locs| ==> locs[k] < setup.size
      ensures found ==> loc in locs && loc < setup.size && table[loc] == e
      ensures !found ==> forall k :: 0 <= k < |locs| ==> table[locs[k]] != e
    {
      for k := 0 to |locs|
        invariant forall m :: 0 <= m < k ==> table[locs[m]] != e
      {
        if table[locs[k]] == e { return true, locs[k]; }
      }
      return false, 0;
    }

    method FindCollected(e: Element, locs: seq<nat>) returns (found: bool, loc: nat)
      requires Shaped() && locs == Locs(setup, e) && forall k :: 0 <= k < 8 ==> locs[k] < setup.size
      ensures found <==> Open(setup, collection_flags[..], e)
      ensures found ==> loc == FirstOpen(setup, collection_flags[..], e)
    {
      hide Locs, FirstOpen;
      for k := 0 to 8
        invariant forall m :: 0 <= m < k ==> !collection_flags[locs[m]]
      {
        if collection_flags[locs[k]] {
          FirstOpenIs(setup, collection_flags[..], e, k);
          return true, locs[k];
        }
      }
      return false, 0;
    }

    method Contains(e: Element, erase: bool) returns (found: bool)
      requires Valid()
      modifies collection_flags
      ensures Valid()
      ensures e != DEFAULT ==> (found <==> e in table[..])
      ensures !erase ==> collection_flags[..] == old(collection_flags[..])
      ensures LookStep(setup, old(Contents()), e, erase, Contents())
      ensures erase && e != DEFAULT ==>
                Residents(table[..], collection_flags[..]) ==
                    old(Residents(table[..], collection_flags[..])) - multiset{e}
    {
      hide Residents, Live, Locs, Homed, NoDuplicates;
      var locs := Locs(setup, e);
      LocsBelow(setup, e);
      var loc;
      found, loc := Find(e, locs);
      ghost var t, f := table[..], collection_flags[..];
      AtHomeIs(setup, t, e, found, loc);
      hide AtHome;
      if !found {
        FoundAtHome(setup, t, f, e);
        if e != DEFAULT { NotResident(t, f, e); }
      } else if erase {
        Erased(setup, t, f, epoch_flags[..], e, loc);
        collection_flags[loc] := true;
        assert collection_flags[..] == f[loc := true];
      }
    }

    /** The location after the last one looked at. */
    method NextLoc(e: Element, locs: seq<nat>, last_loc: int) returns (loc: nat)
      requires setup.size > 0 && locs == Locs(setup, e)
      ensures loc == After(setup, e, last_loc)
    {
      hide Locs;
      var k := 0;
      while k < 8 && locs[k] != last_loc
        invariant 0 <= k <= 8 && forall m :: 0 <= m < k ==> locs[m] != last_loc
      {
        k := k + 1;
      }
      assert k == Place(locs, last_loc);
      return locs[(1 + k) % 8];
    }

    /** The displacement loop: slot after slot is taken over until one marked for collection is met. */
    method Displace(first: Element) returns (ghost dropped: seq<Element>)
      requires Shaped()
      modifies table, collection_flags, epoch_flags
      ensures Shaped()
      ensures Outcome(table[..], collection_flags[..], epoch_flags[..], dropped) ==
                old(Displaced(setup, table[..], collection_flags[..], epoch_flags[..], first, true, -1,
                              setup.depth_limit))
    {
      hide Locs, Open, FirstOpen, After;
      var e, last_loc, last_epoch := first, -1, true;
      var locs := Locs(setup, e);
      ghost var all := Displaced(setup, table[..], collection_flags[..], epoch_flags[..], e, true, -1,
                                 setup.depth_limit);
      for depth := 0 to setup.depth_limit
        invariant Shaped() && locs == Locs(setup, e)
        invariant Displaced(setup, table[..], collection_flags[..], epoch_flags[..], e, last_epoch, last_loc,
                            setup.depth_limit - depth) == all
      {
        LocsBelow(setup, e);
        ghost var t, f, ep := table[..], collection_flags[..], epoch_flags[..];
        var found, loc := FindCollected(e, locs);
        if found {
          table[loc], collection_flags[loc], epoch_flags[loc] := e, false, last_epoch;
          assert table[..] == t[loc := e];
          assert collection_flags[..] == f[loc := false] && epoch_flags[..] == ep[loc := last_epoch];
          dropped := [];
          return;
        }
        last_loc := NextLoc(e, locs, last_loc);
        var x, b := table[last_loc], epoch_flags[last_loc];
        table[last_loc], epoch_flags[last_loc] := e, last_epoch;
        assert table[..] == t[last_loc := e] && epoch_flags[..] == ep[last_loc := last_epoch];
        assert collection_flags[..] == f;
        e, last_epoch := x, b;
        locs := Locs(setup, e);
      }
      dropped := [e];
    }

    /** Inserts an element. One found in the table is made current and kept. Otherwise the displacements are run on the
        flags the check leaves; with a location marked for collection among its eight, the element is in the table
        and nobody is lost, and in any case the residents lose at most one. */
    method Insert(e: Element) returns (ghost dropped: seq<Element>)
      requires Valid()
      modifies this`epoch_heuristic_counter, table, collection_flags, epoch_flags
      ensures Valid() && |dropped| <= 1
      ensures InsertStep(setup, old(Contents()), e, Contents(), dropped)
      ensures !old(AtHome(setup, table[..], e)) ==>
                && Residents(table[..], collection_flags[..]) + multiset(dropped) ==
                     Residents(old(table[..]), old(AgedFlags())) + multiset{e}
                && (setup.depth_limit >= 1 && Open(setup, old(AgedFlags()), e) ==>
                      dropped == [] && AtHome(setup, table[..], e))
    {
      hide Residents, Live, Locs, Carrying, Homed, NoDuplicates, CheckedFlags, CheckedEpochs, CheckedCounter,
           Displaced, Open, AtHome;
      CheckLeavesRoom(setup, collection_flags[..], epoch_flags[..], epoch_heuristic_counter);
      CheckKeepsHomes(setup, table[..], collection_flags[..], epoch_flags[..], epoch_heuristic_counter);
      EpochCheck();
      var locs := Locs(setup, e);
      LocsBelow(setup, e);
      ghost var t, f, ep := table[..], collection_flags[..], epoch_flags[..];
      var found, loc := Find(e, locs);
      AtHomeIs(setup, t, e, found, loc);
      if found {
        Kept(setup, t, f, ep, e, loc);
        collection_flags[loc] := false;
        epoch_flags[loc] := true;
        assert collection_flags[..] == f[loc := false] && epoch_flags[..] == ep[loc := true];
        assert table[..] == t && f == old(AgedFlags()) && ep == old(AgedEpochs());
        assert KeptAt(setup, table[..], e, loc, old(AgedFlags()), old(AgedEpochs()), collection_flags[..],
                      epoch_flags[..]);
        dropped := [];
        return;
      }
      FoundAtHome(setup, t, f, e);
      StartCarrying(setup, t, f, ep, e);
      DroppedIff(setup, t, f, ep, e, true, -1, setup.depth_limit);
      NobodyElseLost(setup, t, f, ep, e, true, -1, setup.depth_limit, Residents(t, f) + multiset{e}, Live(f, ep) + 1);
      if setup.depth_limit >= 1 && Open(setup, f, e) { RoomMeansKept(setup, t, f, ep, e, -1, setup.depth_limit); }
      dropped := Displace(e);
    }

    /** The flags as the check before an insert leaves them. */
    ghost function AgedFlags(): (g: seq<bool>)
      requires Shaped()
      reads this, collection_flags, epoch_flags
      ensures |g| == setup.size
    {
      CheckedFlags(setup, collection_flags[..], epoch_flags[..], epoch_heuristic_counter)
    }

    ghost function AgedEpochs(): (g: seq<bool>)
      requires Shaped()
      reads this, collection_flags, epoch_flags
      ensures |g| == setup.size
    {
      CheckedEpochs(setup, collection_flags[..], epoch_flags[..], epoch_heuristic_counter)
    }
  }

  lemma AtHomeIs(u: Setup, t: seq<Element>, e: Element, found: bool, loc: nat)
    requires |t| == u.size > 0 && forall k :: 0 <= k < 8 ==> Locs(u, e)[k] < u.size
    requires found ==> loc in Locs(u, e) && loc < u.size && t[loc] == e
    requires !found ==> forall k :: 0 <= k < 8 ==> t[Locs(u, e)[k]] != e
    ensures found <==> AtHome(u, t, e)
  {
    if found { var k :| 0 <= k < 8 && Locs(u, e)[k] == loc; }
  }

  lemma StartCarrying(u: Setup, t: seq<Element>, f: seq<bool>, ep: seq<bool>, e: Element)
    requires |t| == |f| == |ep| == u.size && Homed(u, t, f) && NoDuplicates(t) && Absent(t, e)
    ensures Carrying(u, t, f, ep, e, true, Residents(t, f) + multiset{e}, Live(f, ep) + 1)
    ensures e != DEFAULT ==> e !in t
  {}

  lemma {:induction false} NoResidents(t: seq<Element>, f: seq<bool>)
    requires |t| == |f| && forall i :: 0 <= i < |f| ==> f[i]
    ensures Residents(t, f) == multiset{}
  {
    if t != [] { NoResidents(t[..|t| - 1], f[..|t| - 1]); }
  }

  lemma NotResident(t: seq<Element>, f: seq<bool>, e: Element)
    requires |t| == |f| && Absent(t, e) && e != DEFAULT
    ensures Residents(t, f) - multiset{e} == Residents(t, f)
  {
    ResidentsIn(t, f, e);
  }

  lemma NotAmongResidents(t: seq<Element>, f: seq<bool>, e: Element, loc: nat)
    requires |t| == |f| && NoDuplicates(t) && e != DEFAULT && loc < |t| && t[loc] == e && f[loc]
    ensures e !in Residents(t, f)
  {
    ResidentsIn(t, f, e);
  }

  /** Marking the one slot of an element removes it from the residents. */
  lemma Erased(u: Setup, t: seq<Element>, f: seq<bool>, ep: seq<bool>, e: Element, loc: nat)
    requires |t| == |f| == |ep| && Homed(u, t, f) && NoDuplicates(t) && loc < |t| && t[loc] == e
    ensures Homed(u, t, f[loc := true]) && Live(f[loc := true], ep) <= Live(f, ep)
    ensures e != DEFAULT ==> Residents(t, f[loc := true]) == Residents(t, f) - multiset{e}
  {
    hide Residents, Live, Locs;
    assert t[loc := e] == t && ep[loc := ep[loc]] == ep;
    ResidentsSet(t, f, loc, e, true);
    LiveSet(f, ep, loc, true, ep[loc]);
    if f[loc] {
      assert f[loc := true] == f;
      if e != DEFAULT { NotAmongResidents(t, f, e, loc); }
    } else {
      assert Residents(t, f[loc := true]) + multiset{e} == Residents(t, f);
    }
  }
}
