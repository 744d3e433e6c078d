/** Infinity nodes: found by scanning the chain for burns, and paid in turn by deterministic statements. */
module InfinitynodeModel {
  import Order

  const INF_MATURED_LIMIT: int := 55
  const LIFETIME: int := 720 * 365
  const FAR: int := 100000

  /** An outpoint, numbered in the order of outpoints. */
  type OutPoint = nat

  datatype Node = Node(outpoint: OutPoint, height: int, tier: nat) {
    function ExpireHeight(): int { height + LIFETIME }

    predicate Eligible(t: nat, at: int) {
      tier == t && height < at <= ExpireHeight()
    }

    /** By burn height, then by outpoint. */
    predicate Before(other: Node) {
      height < other.height || (height == other.height && outpoint < other.outpoint)
    }
  }

  type Nodes = map<OutPoint, Node>

  ghost predicate Keyed(nodes: Nodes) {
    forall o :: o in nodes ==> nodes[o].outpoint == o
  }

  function EligibleSet(nodes: Nodes, tier: nat, at: int): set<OutPoint> {
    set o | o in nodes && nodes[o].Eligible(tier, at)
  }

  function Size(nodes: Nodes, tier: nat, at: int): nat {
    |EligibleSet(nodes, tier, at)|
  }

  // ---- statements

  /** The statements from height at on: each begins where the one before has paid everybody; a statement
      without nodes is put at the tip and is the last. */
  function Statements(nodes: Nodes, tier: nat, at: int, tip: int): map<int, nat>
    decreases tip - at
  {
    if at >= tip then map[]
    else
      var n := Size(nodes, tier, at);
      if n == 0 then map[tip := 0]
      else Statements(nodes, tier, at + n, tip)[at := n]
  }

  /** Where the run of non-empty statements from height at ends. */
  function End(nodes: Nodes, tier: nat, at: int, tip: int): (e: int)
    ensures e >= at
    decreases tip - at
  {
    if at >= tip || Size(nodes, tier, at) == 0 then at
    else End(nodes, tier, at + Size(nodes, tier, at), tip)
  }

  /** The last statement laid out, the earlier one when there is none. */
  function Last(nodes: Nodes, tier: nat, at: int, tip: int, earlier: (int, nat)): (int, nat)
    decreases tip - at
  {
    if at >= tip then earlier
    else
      var n := Size(nodes, tier, at);
      if n == 0 then (tip, 0) else Last(nodes, tier, at + n, tip, (at, n))
  }

  ghost predicate Covers(stm: map<int, nat>, s: int, h: int) {
    s in stm && s < h <= s + stm[s]
  }

  lemma {:induction false} StatementKeys(nodes: Nodes, tier: nat, at: int, tip: int, s: int)
    requires s in Statements(nodes, tier, at, tip)
    ensures at <= s <= tip && (s == tip ==> Statements(nodes, tier, at, tip)[s] == 0)
    ensures s < tip ==> Statements(nodes, tier, at, tip)[s] == Size(nodes, tier, s) > 0
    decreases tip - at
  {
    hide Size;
    var n := Size(nodes, tier, at);
    if at < tip && n > 0 && s != at { StatementKeys(nodes, tier, at + n, tip, s); }
  }

  /** Past the first statement the cover is that of the others. */
  lemma CoversRest(nodes: Nodes, tier: nat, at: int, tip: int, s: int, h: int)
    requires at < tip && Size(nodes, tier, at) > 0 && s != at
    ensures Covers(Statements(nodes, tier, at, tip), s, h) <==>
              Covers(Statements(nodes, tier, at + Size(nodes, tier, at), tip), s, h)
  {}

  lemma {:induction false} CoversWithin(nodes: Nodes, tier: nat, at: int, tip: int, s: int, h: int)
    requires Covers(Statements(nodes, tier, at, tip), s, h)
    ensures at <= s && at < h <= End(nodes, tier, at, tip)
    decreases tip - at
  {
    hide Size;
    var n := Size(nodes, tier, at);
    if at < tip && n > 0 && s != at {
      CoversRest(nodes, tier, at, tip, s, h);
      CoversWithin(nodes, tier, at + n, tip, s, h);
    }
  }

  lemma {:induction false} FindCover(nodes: Nodes, tier: nat, at: int, tip: int, h: int) returns (s: int)
    requires at < h <= End(nodes, tier, at, tip)
    ensures Covers(Statements(nodes, tier, at, tip), s, h)
    decreases tip - at
  {
    hide Size;
    var n := Size(nodes, tier, at);
    if h <= at + n {
      s := at;
    } else {
      s := FindCover(nodes, tier, at + n, tip, h);
      CoversWithin(nodes, tier, at + n, tip, s, h);
      CoversRest(nodes, tier, at, tip, s, h);
    }
  }

  lemma {:induction false} CoverIsUnique(nodes: Nodes, tier: nat, at: int, tip: int, h: int, s: int, t: int)
    requires Covers(Statements(nodes, tier, at, tip), s, h) && Covers(Statements(nodes, tier, at, tip), t, h)
    ensures s == t
    decreases tip - at
  {
    hide Size;
    var n := Size(nodes, tier, at);
    if at < tip && n > 0 {
      if s != at { CoversRest(nodes, tier, at, tip, s, h); CoversWithin(nodes, tier, at + n, tip, s, h); }
      if t != at { CoversRest(nodes, tier, at, tip, t, h); CoversWithin(nodes, tier, at + n, tip, t, h); }
      if s != at && t != at { CoverIsUnique(nodes, tier, at + n, tip, h, s, t); }
    }
  }

  /** The statements tile the heights after the first: every height up to their end is covered, by one
      statement only, and no height outside is covered at all. */
  lemma Tiling(nodes: Nodes, tier: nat, at: int, tip: int, h: int)
    ensures (exists s :: Covers(Statements(nodes, tier, at, tip), s, h)) <==> at < h <= End(nodes, tier, at, tip)
    ensures var stm := Statements(nodes, tier, at, tip);
            forall s, t :: Covers(stm, s, h) && Covers(stm, t, h) ==> s == t
  {
    hide Statements, End, Covers;
    var stm := Statements(nodes, tier, at, tip);
    if at < h <= End(nodes, tier, at, tip) {
      var s := FindCover(nodes, tier, at, tip, h);
    }
    forall s | Covers(stm, s, h) ensures at < h <= End(nodes, tier, at, tip) {
      CoversWithin(nodes, tier, at, tip, s, h);
    }
    forall s, t | Covers(stm, s, h) && Covers(stm, t, h) ensures s == t {
      CoverIsUnique(nodes, tier, at, tip, h, s, t);
    }
  }

  /** Two lists of nodes that agree on what was burned below a height. */
  ghost predicate AgreeBelow(a: Nodes, b: Nodes, height: int) {
    forall o :: (o in a && a[o].height < height) || (o in b && b[o].height < height) ==>
        o in a && o in b && a[o] == b[o]
  }

  lemma SameSize(a: Nodes, b: Nodes, tier: nat, at: int, height: int)
    requires AgreeBelow(a, b, height) && at <= height
    ensures Size(a, tier, at) == Size(b, tier, at)
  {
    var x, y := EligibleSet(a, tier, at), EligibleSet(b, tier, at);
    forall o ensures o in x <==> o in y {}
    assert x == y;
  }

  /** Statements up to a height depend only on the nodes burned below it. */
  lemma {:induction false} StatementsDependBelow(a: Nodes, b: Nodes, tier: nat, at: int, tip: int)
    requires AgreeBelow(a, b, tip)
    ensures Statements(a, tier, at, tip) == Statements(b, tier, at, tip)
    decreases tip - at
  {
    hide Size, AgreeBelow;
    if at < tip {
      SameSize(a, b, tier, at, tip);
      var n := Size(a, tier, at);
      if n > 0 { StatementsDependBelow(a, b, tier, at + n, tip); }
    }
  }

  // ---- ranks

  /** r lists exactly the nodes of the set, by burn height and outpoint. */
  ghost predicate IsRanking(nodes: Nodes, e: set<OutPoint>, r: seq<Node>) {
    && (forall i :: 0 <= i < |r| ==> r[i].outpoint in e && r[i].outpoint in nodes && nodes[r[i].outpoint] == r[i])
    && (forall i, j :: 0 <= i < j < |r| ==> r[i].Before(r[j]))
    && (forall o :: o in e ==> o in nodes && nodes[o] in r)
  }

  lemma {:induction false} RankingCounts(nodes: Nodes, e: set<OutPoint>, r: seq<Node>)
    requires Keyed(nodes) && IsRanking(nodes, e, r)
    ensures |r| == |e|
    decreases |r|
  {
    if r == [] {
      forall o ensures o !in e {}
      assert e == {};
    } else {
      var n := |r| - 1;
      var o := r[n].outpoint;
      DropLast(nodes, e, r);
      RankingCounts(nodes, e - {o}, r[..n]);
    }
  }

  lemma DropLast(nodes: Nodes, e: set<OutPoint>, r: seq<Node>)
    requires Keyed(nodes) && IsRanking(nodes, e, r) && r != []
    ensures IsRanking(nodes, e - {r[|r| - 1].outpoint}, r[..|r| - 1])
  {
    var n := |r| - 1;
    var o := r[n].outpoint;
    forall i | 0 <= i < n ensures r[i].outpoint != o {
      assert r[i].Before(r[n]);
    }
    forall p | p in e && p != o ensures nodes[p] in r[..n] {
      var i :| 0 <= i < |r| && r[i] == nodes[p];
      assert r[..n][i] == nodes[p];
    }
  }

  /** The ranking is determined by the set alone, whatever the sort does on the way. */
  lemma {:induction false} RankingIsUnique(nodes: Nodes, e: set<OutPoint>, q: seq<Node>, r: seq<Node>)
    requires Keyed(nodes) && IsRanking(nodes, e, q) && IsRanking(nodes, e, r)
    ensures q == r
    decreases |q|
  {
    RankingCounts(nodes, e, q);
    RankingCounts(nodes, e, r);
    if q != [] {
      var n := |q| - 1;
      var i :| 0 <= i < |r| && r[i] == q[n];
      var j :| 0 <= j < |q| && q[j] == r[n];
      SameLast(q, r, i, j);
      DropLast(nodes, e, q);
      DropLast(nodes, e, r);
      RankingIsUnique(nodes, e - {q[n].outpoint}, q[..n], r[..n]);
      assert q == q[..n] + [q[n]] && r == r[..n] + [r[n]];
    }
  }

  lemma SameLast(q: seq<Node>, r: seq<Node>, i: nat, j: nat)
    requires |q| == |r| && i < |r| && j < |q| && r[i] == q[|q| - 1] && q[j] == r[|r| - 1]
    requires forall i, j :: 0 <= i < j < |q| ==> q[i].Before(q[j])
    requires forall i, j :: 0 <= i < j < |r| ==> r[i].Before(r[j])
    ensures q[|q| - 1] == r[|r| - 1]
  {}

  /** The node a statement at s pays at height h. */
  function PaidAt(r: seq<Node>, s: int, h: int): Node
    requires s < h <= s + |r|
  {
    r[h - s - 1]
  }

  /** Over the heights a statement covers, every node eligible at it is paid exactly once, in rank order. */
  lemma EachPaidOnce(nodes: Nodes, tier: nat, s: int, r: seq<Node>, o: OutPoint)
    requires Keyed(nodes) && IsRanking(nodes, EligibleSet(nodes, tier, s), r) && o in EligibleSet(nodes, tier, s)
    ensures |r| == Size(nodes, tier, s)
    ensures exists h :: s < h <= s + |r| && PaidAt(r, s, h) == nodes[o]
    ensures forall h, g :: s < h < g <= s + |r| ==>
              PaidAt(r, s, h).Before(PaidAt(r, s, g)) && PaidAt(r, s, h) != PaidAt(r, s, g)
  {
    RankingCounts(nodes, EligibleSet(nodes, tier, s), r);
    var i :| 0 <= i < |r| && r[i] == nodes[o];
    assert PaidAt(r, s, s + 1 + i) == nodes[o];
  }

  /** The statement at s covers height h and its ranking r gives the node. */
  ghost predicate Pays(nodes: Nodes, stm: map<int, nat>, tier: nat, s: int, r: seq<Node>, h: int, node: Node) {
    && Covers(stm, s, h) && IsRanking(nodes, EligibleSet(nodes, tier, s), r)
    && s < h <= s + |r| && node == PaidAt(r, s, h)
  }

  lemma InsertedInOrder(r: seq<Node>, x: Node, k: nat, q: seq<Node>)
    requires k <= |r| && q == r[..k] + [x] + r[k..]
    requires forall i, j :: 0 <= i < j < |r| ==> r[i].Before(r[j])
    requires (forall i :: 0 <= i < k ==> r[i].Before(x)) && (forall i :: k <= i < |r| ==> x.Before(r[i]))
    ensures forall i, j :: 0 <= i < j < |q| ==> q[i].Before(q[j])
  {
    hide Node.Before;
    forall i, j | 0 <= i < j < |q| ensures q[i].Before(q[j]) {
      if i < k {
        assert q[i] == r[i];
        if j < k { assert q[j] == r[j]; } else if j > k { assert q[j] == r[j - 1]; }
      } else if i == k {
        assert q[j] == r[j - 1];
      } else {
        assert q[i] == r[i - 1] && q[j] == r[j - 1];
      }
    }
  }

  lemma LaterOnes(r: seq<Node>, x: Node, k: nat)
    requires forall i, j :: 0 <= i < j < |r| ==> r[i].Before(r[j])
    requires k < |r| ==> !r[k].Before(x) && r[k].outpoint != x.outpoint
    ensures forall i :: k <= i < |r| ==> x.Before(r[i])
  {
    forall i | k <= i < |r| ensures x.Before(r[i]) {
      assert i > k ==> r[k].Before(r[i]);
    }
  }

  lemma InsertedMembers(r: seq<Node>, x: Node, k: nat, q: seq<Node>)
    requires k <= |r| && q == r[..k] + [x] + r[k..]
    ensures forall y :: y in q <==> y == x || y in r
  {
    assert r == r[..k] + r[k..];
  }

  lemma InsertedIsRanking(nodes: Nodes, e: set<OutPoint>, r: seq<Node>, x: Node, k: nat, q: seq<Node>)
    requires Keyed(nodes) && IsRanking(nodes, e, r) && k <= |r| && q == r[..k] + [x] + r[k..]
    requires x.outpoint in nodes && nodes[x.outpoint] == x && x.outpoint !in e
    requires (forall i :: 0 <= i < k ==> r[i].Before(x)) && (k < |r| ==> !r[k].Before(x))
    ensures IsRanking(nodes, e + {x.outpoint}, q)
  {
    hide Node.Before;
    LaterOnes(r, x, k);
    InsertedInOrder(r, x, k, q);
    InsertedMembers(r, x, k, q);
    forall i | 0 <= i < |q|
      ensures q[i].outpoint in e + {x.outpoint} && q[i].outpoint in nodes && nodes[q[i].outpoint] == q[i]
    {
      assert q[i] in q;
    }
  }

  // ---- scanning the chain

  /** The burns found in the blocks from a up to but not including b. */
  function Between(chain: Nodes, a: int, b: int): Nodes {
    map o | o in chain && a <= chain[o].height < b :: chain[o]
  }

  lemma BetweenKeyed(chain: Nodes, a: int, b: int)
    requires Keyed(chain)
    ensures Keyed(Between(chain, a, b))
  {}

  lemma BetweenJoined(chain: Nodes, a: int, b: int, c: int)
    requires a <= b <= c
    ensures Between(chain, b, c) + Between(chain, a, b) == Between(chain, a, c)
    ensures Between(chain, a, b) + Between(chain, b, c) == Between(chain, a, c)
  {}

  lemma BetweenNone(chain: Nodes, a: int, b: int)
    requires a >= b
    ensures Between(chain, a, b) == map[]
  {}

  function Max(a: int, b: int): int { if a < b then b else a }

  /** The burns of a scan from low to tip, old enough to count or not. */
  function MaturedIn(chain: Nodes, low: int, tip: int): Nodes { Between(chain, low, tip - INF_MATURED_LIMIT) }

  function FreshIn(chain: Nodes, low: int, tip: int): Nodes {
    Between(chain, Max(low, tip - INF_MATURED_LIMIT), tip + 1)
  }

  /** With all burns filed but those in todo. */
  ghost function Added(burns: Nodes, todo: set<OutPoint>, m: Nodes): Nodes { (burns - todo) + m }
  ghost function Kept(burns: Nodes, todo: set<OutPoint>, n: Nodes): Nodes { n + (burns - todo) }

  lemma AddedEnds(burns: Nodes, m: Nodes)
    ensures Added(burns, burns.Keys, m) == m && Added(burns, {}, m) == burns + m
  {
    assert burns - {} == burns;
  }

  lemma KeptEnds(burns: Nodes, n: Nodes)
    ensures Kept(burns, burns.Keys, n) == n && Kept(burns, {}, n) == n + burns
  {
    assert burns - {} == burns;
  }

  lemma OneMoreAdded(burns: Nodes, todo: set<OutPoint>, o: OutPoint, m: Nodes)
    requires o in todo && todo <= burns.Keys
    ensures var was := Added(burns, todo, m);
            Added(burns, todo - {o}, m) == if o in was then was else was[o := burns[o]]
  {}

  lemma OneMoreKept(burns: Nodes, todo: set<OutPoint>, o: OutPoint, n: Nodes)
    requires o in todo && todo <= burns.Keys
    ensures Kept(burns, todo - {o}, n) == Kept(burns, todo, n)[o := burns[o]]
  {}

  lemma ReadNone(chain: Nodes, tip: int, known: Nodes)
    ensures MaturedIn(chain, tip + 1, tip) + known == known && FreshIn(chain, tip + 1, tip) == map[]
  {
    BetweenNone(chain, tip + 1, tip - INF_MATURED_LIMIT);
    BetweenNone(chain, tip + 1, tip + 1);
  }

  lemma NothingKnown(chain: Nodes, low: int, tip: int)
    ensures MaturedIn(chain, low, tip) + map[] == MaturedIn(chain, low, tip)
  {}

  /** A scan from where the last one stopped adds exactly what a whole scan would have. */
  lemma ScanJoined(chain: Nodes, begin: int, last: int, tip: int)
    requires begin <= last <= tip - INF_MATURED_LIMIT
    ensures MaturedIn(chain, last, tip) + Between(chain, begin, last) == MaturedIn(chain, begin, tip)
    ensures FreshIn(chain, last, tip) == FreshIn(chain, begin, tip)
  {
    BetweenJoined(chain, begin, last, tip - INF_MATURED_LIMIT);
  }

  /** A scan that starts no later than the list already reaches, at a tip before or after that of the list. */
  lemma ScanMerged(chain: Nodes, begin: int, last: int, reached: int, tip: int)
    requires begin <= last <= reached - INF_MATURED_LIMIT
    ensures MaturedIn(chain, last, tip) + MaturedIn(chain, begin, reached) == MaturedIn(chain, begin, Max(reached, tip))
  {}

  lemma NothingMatured(chain: Nodes, begin: int)
    ensures MaturedIn(chain, begin, begin) == map[]
  {
    BetweenNone(chain, begin, begin - INF_MATURED_LIMIT);
  }

  lemma ReadOneMore(chain: Nodes, h: int, tip: int, known: Nodes)
    requires h <= tip
    ensures h < tip - INF_MATURED_LIMIT ==>
              && Between(chain, h, h + 1) + (MaturedIn(chain, h + 1, tip) + known) == MaturedIn(chain, h, tip) + known
              && FreshIn(chain, h + 1, tip) == FreshIn(chain, h, tip)
    ensures h >= tip - INF_MATURED_LIMIT ==>
              && FreshIn(chain, h + 1, tip) + Between(chain, h, h + 1) == FreshIn(chain, h, tip)
              && MaturedIn(chain, h + 1, tip) == MaturedIn(chain, h, tip)
  {}

  lemma ReadAll(chain: Nodes, from: int, h: int, tip: int)
    requires h < from && (tip >= from ==> h == from - 1) && (tip < from ==> h == tip)
    ensures MaturedIn(chain, h + 1, tip) == MaturedIn(chain, from, tip)
    ensures FreshIn(chain, h + 1, tip) == FreshIn(chain, from, tip)
  {}

  /** A first scan less than 55 blocks past the begin height makes the next one start below it: the lists
      then agree with a full scan exactly when nothing was burned in between. */
  lemma EarlyFirstScan(chain: Nodes, begin: int, first: int, tip: int)
    requires first - INF_MATURED_LIMIT < begin <= first && begin <= tip - INF_MATURED_LIMIT
    ensures var low := first - INF_MATURED_LIMIT;
            MaturedIn(chain, low, tip) + MaturedIn(chain, begin, first) == MaturedIn(chain, begin, tip) <==>
              Between(chain, low, begin) == map[]
  {
    var low := first - INF_MATURED_LIMIT;
    var all := MaturedIn(chain, low, tip);
    BetweenNone(chain, begin, low);
    assert all + map[] == all;
    BetweenJoined(chain, low, begin, tip - INF_MATURED_LIMIT);
    if Between(chain, low, begin) != map[] {
      var o :| o in Between(chain, low, begin);
      assert o in all && o !in MaturedIn(chain, begin, tip);
    } else {
      assert map[] + MaturedIn(chain, begin, tip) == MaturedIn(chain, begin, tip);
    }
  }

  // ---- the same statements at a later tip, from a list that has grown

  ghost predicate SameSizes(a: Nodes, b: Nodes, tier: nat, height: int) {
    forall x :: x <= height ==> Size(a, tier, x) == Size(b, tier, x)
  }

  lemma {:induction false} SameUpTo(a: Nodes, b: Nodes, tier: nat, at: int, tip: int, later: int, s: int)
    requires SameSizes(a, b, tier, s) && s < tip <= later
    ensures s in Statements(a, tier, at, tip) <==> s in Statements(b, tier, at, later)
    ensures s in Statements(a, tier, at, tip) ==> Statements(a, tier, at, tip)[s] == Statements(b, tier, at, later)[s]
    decreases tip - at
  {
    hide Size;
    if at > s {
      if s in Statements(a, tier, at, tip) { StatementKeys(a, tier, at, tip, s); }
      if s in Statements(b, tier, at, later) { StatementKeys(b, tier, at, later, s); }
    } else {
      var n := Size(a, tier, at);
      assert n == Size(b, tier, at);
      if n > 0 && s != at { SameUpTo(a, b, tier, at + n, tip, later, s); }
    }
  }

  /** A burn of the tier that the list at the earlier tip does not hold yet and the later list does, below s. */
  ghost predicate BurnedSince(chain: Nodes, tier: nat, begin: int, tip: int, later: int, s: int) {
    exists o :: o in chain && chain[o].tier == tier &&
      Max(begin, tip - INF_MATURED_LIMIT) <= chain[o].height && chain[o].height < s &&
      chain[o].height < later - INF_MATURED_LIMIT
  }

  lemma SameEligible(chain: Nodes, tier: nat, begin: int, tip: int, later: int, s: int, x: int)
    requires tip <= later && x <= s && !BurnedSince(chain, tier, begin, tip, later, s)
    ensures EligibleSet(MaturedIn(chain, begin, tip), tier, x) == EligibleSet(MaturedIn(chain, begin, later), tier, x)
  {
    var a, b := MaturedIn(chain, begin, tip), MaturedIn(chain, begin, later);
    forall o ensures o in EligibleSet(a, tier, x) <==> o in EligibleSet(b, tier, x) {}
  }

  lemma OneMoreMember(a: set<OutPoint>, b: set<OutPoint>, o: OutPoint)
    requires a <= b && o in b && o !in a
    ensures |a| < |b|
  {
    assert b == a + (b - a) && o in b - a;
  }

  lemma MoreEligible(chain: Nodes, tier: nat, begin: int, tip: int, later: int, s: int)
    requires s < tip <= later && BurnedSince(chain, tier, begin, tip, later, s)
    ensures Size(MaturedIn(chain, begin, tip), tier, s) < Size(MaturedIn(chain, begin, later), tier, s)
  {
    var a := EligibleSet(MaturedIn(chain, begin, tip), tier, s);
    var b := EligibleSet(MaturedIn(chain, begin, later), tier, s);
    var o :| o in chain && chain[o].tier == tier && Max(begin, tip - INF_MATURED_LIMIT) <= chain[o].height &&
             chain[o].height < s && chain[o].height < later - INF_MATURED_LIMIT;
    assert a <= b && o in b && o !in a;
    OneMoreMember(a, b, o);
  }

  /** A statement laid out at one tip is there, of the same size, when the statements are laid out again at a later tip
      from the list of that tip, if and only if no burn of the tier below it has matured in between. */
  lemma StatementStaysIff(chain: Nodes, tier: nat, begin: int, at: int, tip: int, later: int, s: int)
    requires s < tip <= later && s in Statements(MaturedIn(chain, begin, tip), tier, at, tip)
    ensures var was := Statements(MaturedIn(chain, begin, tip), tier, at, tip);
            var now := Statements(MaturedIn(chain, begin, later), tier, at, later);
            s in now && now[s] == was[s] <==> !BurnedSince(chain, tier, begin, tip, later, s)
  {
    var a, b := MaturedIn(chain, begin, tip), MaturedIn(chain, begin, later);
    hide MaturedIn, Statements;
    StatementKeys(a, tier, at, tip, s);
    if BurnedSince(chain, tier, begin, tip, later, s) {
      MoreEligible(chain, tier, begin, tip, later, s);
      if s in Statements(b, tier, at, later) { StatementKeys(b, tier, at, later, s); }
    } else {
      forall x | x <= s ensures Size(a, tier, x) == Size(b, tier, x) {
        SameEligible(chain, tier, begin, tip, later, s, x);
      }
      SameUpTo(a, b, tier, at, tip, later, s);
    }
  }

  /** What was laid out at least 55 blocks below a tip is settled: every later layout has the same statements there. */
  lemma StatementsSettle(chain: Nodes, tier: nat, begin: int, at: int, tip: int, later: int, s: int)
    requires tip <= later && s <= tip - INF_MATURED_LIMIT
    ensures var was := Statements(MaturedIn(chain, begin, tip), tier, at, tip);
            var now := Statements(MaturedIn(chain, begin, later), tier, at, later);
            (s in was <==> s in now) && (s in was ==> was[s] == now[s])
  {
    var a, b := MaturedIn(chain, begin, tip), MaturedIn(chain, begin, later);
    forall x | x <= s ensures Size(a, tier, x) == Size(b, tier, x) {
      SameEligible(chain, tier, begin, tip, later, s, x);
    }
    hide MaturedIn, Statements, Size;
    SameUpTo(a, b, tier, at, tip, later, s);
  }

  /** While there is one node only, every height has a statement. */
  lemma {:induction false} OneNodeEachHeight(nodes: Nodes, tier: nat, at: int, tip: int, s: int)
    requires at <= s < tip && (forall x :: at <= x < s ==> Size(nodes, tier, x) == 1) && Size(nodes, tier, s) > 0
    ensures s in Statements(nodes, tier, at, tip) && Statements(nodes, tier, at, tip)[s] == Size(nodes, tier, s)
    decreases s - at
  {
    hide Size;
    if at < s {
      assert Size(nodes, tier, at) == 1;
      OneNodeEachHeight(nodes, tier, at + 1, tip, s);
    }
  }

  /** A chain with nodes burned at 100 and 158. */
  function TwoBurns(): Nodes { map[1 := Node(1, 100, 10), 2 := Node(2, 158, 10)] }

  lemma TwoBurnsMatured(tip: int)
    ensures 156 <= tip <= 213 ==> MaturedIn(TwoBurns(), 100, tip) == map[1 := Node(1, 100, 10)]
    ensures tip >= 214 ==> MaturedIn(TwoBurns(), 100, tip) == TwoBurns()
  {}

  lemma TwoBurnsSizes(x: int)
    requires 110 <= x <= 160
    ensures EligibleSet(map[1 := Node(1, 100, 10)], 10, x) == {1}
    ensures EligibleSet(TwoBurns(), 10, x) == if x <= 158 then {1} else {1, 2}
  {
    var a, b := EligibleSet(map[1 := Node(1, 100, 10)], 10, x), EligibleSet(TwoBurns(), 10, x);
    forall o ensures o in a <==> o == 1 {}
    forall o ensures o in b <==> o == 1 || (o == 2 && x > 158) {}
  }

  lemma TwoBurnsStatement(nodes: Nodes, tip: int, s: int)
    requires nodes == map[1 := Node(1, 100, 10)] || nodes == TwoBurns()
    requires 110 <= s < tip && s <= 160 && (nodes == TwoBurns() ==> s <= 159)
    ensures s in Statements(nodes, 10, 110, tip)
    ensures Statements(nodes, 10, 110, tip)[s] == if nodes == TwoBurns() && s == 159 then 2 else 1
  {
    forall x | 110 <= x <= s ensures Size(nodes, 10, x) == if nodes == TwoBurns() && x == 159 then 2 else 1 {
      TwoBurnsSizes(x);
    }
    OneNodeEachHeight(nodes, 10, 110, tip, s);
  }

  /** With begin height 100 and genesis statement 110, burns at 100 and 158: the statement at 159 has one node when laid
      out at tip 160 and two when laid out at tip 214. */
  lemma StatementChanges()
    ensures Keyed(TwoBurns())
    ensures var was := Statements(MaturedIn(TwoBurns(), 100, 160), 10, 110, 160); 159 in was && was[159] == 1
    ensures var now := Statements(MaturedIn(TwoBurns(), 100, 214), 10, 110, 214); 159 in now && now[159] == 2
  {
    assert 2 in TwoBurns();
    TwoBurnsMatured(160);
    TwoBurnsMatured(214);
    TwoBurnsStatement(MaturedIn(TwoBurns(), 100, 160), 160, 159);
    TwoBurnsStatement(MaturedIn(TwoBurns(), 100, 214), 214, 159);
  }

  // ---- the same payments from a list that has grown

  ghost predicate Extends(a: Nodes, b: Nodes) {
    forall o :: o in a ==> o in b && b[o] == a[o]
  }

  lemma LastIsNew(b: Nodes, e: set<OutPoint>, f: set<OutPoint>, q: seq<Node>, height: int)
    requires IsRanking(b, f, q) && !(f <= e)
    requires forall o :: o in f ==> o in b && (o in e <==> b[o].height < height)
    ensures q != [] && q[|q| - 1].outpoint in f && q[|q| - 1].outpoint !in e
  {
    var p :| p in f && p !in e;
    var i :| 0 <= i < |q| && q[i] == b[p];
    assert i < |q| - 1 ==> q[i].Before(q[|q| - 1]);
  }

  lemma RankingInEarlier(a: Nodes, b: Nodes, e: set<OutPoint>, q: seq<Node>)
    requires Extends(a, b) && IsRanking(b, e, q) && e <= a.Keys
    ensures IsRanking(a, e, q)
  {}

  /** Nodes burned later rank after all that were there before: the earlier ranking is the beginning of the later. */
  lemma {:induction false} EarlierRankFirst(
    a: Nodes, b: Nodes, e: set<OutPoint>, f: set<OutPoint>, q: seq<Node>, height: int) returns (r: seq<Node>)
    requires Keyed(b) && Extends(a, b) && IsRanking(b, f, q) && e <= f && e <= a.Keys
    requires forall o :: o in f ==> o in b && (o in e <==> b[o].height < height)
    ensures |r| <= |q| && q[..|r|] == r && IsRanking(a, e, r)
    decreases |q|
  {
    hide IsRanking, Keyed, Extends;
    if f <= e {
      assert e == f;
      RankingInEarlier(a, b, e, q);
      r := q;
      assert q[..|q|] == q;
    } else {
      LastIsNew(b, e, f, q, height);
      var n := |q| - 1;
      DropLast(b, f, q);
      r := EarlierRankFirst(a, b, e, f - {q[n].outpoint}, q[..n], height);
      assert q[..n][..|r|] == q[..|r|];
    }
  }

  lemma MaturedEligible(chain: Nodes, tier: nat, begin: int, tip: int, later: int, s: int)
    requires tip <= later
    ensures var a, b := MaturedIn(chain, begin, tip), MaturedIn(chain, begin, later);
            var e, f := EligibleSet(a, tier, s), EligibleSet(b, tier, s);
            && Extends(a, b) && e <= f
            && forall o :: o in f ==> o in b && (o in e <==> b[o].height < tip - INF_MATURED_LIMIT)
  {}

  lemma RankingAtEarlierTip(chain: Nodes, tier: nat, begin: int, tip: int, later: int, s: int, q: seq<Node>)
    returns (r: seq<Node>)
    requires Keyed(chain) && tip <= later
    requires IsRanking(MaturedIn(chain, begin, later), EligibleSet(MaturedIn(chain, begin, later), tier, s), q)
    ensures IsRanking(MaturedIn(chain, begin, tip), EligibleSet(MaturedIn(chain, begin, tip), tier, s), r)
    ensures |r| == Size(MaturedIn(chain, begin, tip), tier, s) && |r| <= |q| && q[..|r|] == r
  {
    var a, b := MaturedIn(chain, begin, tip), MaturedIn(chain, begin, later);
    var e, f := EligibleSet(a, tier, s), EligibleSet(b, tier, s);
    MaturedEligible(chain, tier, begin, tip, later, s);
    BetweenKeyed(chain, begin, tip - INF_MATURED_LIMIT);
    BetweenKeyed(chain, begin, later - INF_MATURED_LIMIT);
    assert e <= a.Keys;
    hide IsRanking, MaturedIn, EligibleSet;
    r := EarlierRankFirst(a, b, e, f, q, tip - INF_MATURED_LIMIT);
    RankingCounts(a, e, r);
    SizeIs(a, tier, s);
  }

  /** A statement laid out from the list of one scan pays the same node at every height it covers, whichever list of a
      later scan its ranking is computed from. */
  lemma PaidTheSame(chain: Nodes, tier: nat, begin: int, at: int, scan: int, tip: int, later: int,
                    s: int, h: int, r: seq<Node>, q: seq<Node>)
    requires Keyed(chain) && scan <= later && Covers(Statements(MaturedIn(chain, begin, scan), tier, at, tip), s, h)
    requires IsRanking(MaturedIn(chain, begin, scan), EligibleSet(MaturedIn(chain, begin, scan), tier, s), r)
    requires IsRanking(MaturedIn(chain, begin, later), EligibleSet(MaturedIn(chain, begin, later), tier, s), q)
    ensures s < h <= s + |r| && h <= s + |q| && PaidAt(q, s, h) == PaidAt(r, s, h)
  {
    var a := MaturedIn(chain, begin, scan);
    BetweenKeyed(chain, begin, scan - INF_MATURED_LIMIT);
    hide Statements, IsRanking, MaturedIn, EligibleSet, Size;
    StatementKeys(a, tier, at, tip, s);
    var first := RankingAtEarlierTip(chain, tier, begin, scan, later, s, q);
    RankingIsUnique(a, EligibleSet(a, tier, s), r, first);
    assert q[..|r|][h - s - 1] == q[h - s - 1];
  }

  // ---- two nodes of the network

  lemma RankingInChain(chain: Nodes, begin: int, scan: int, e: set<OutPoint>, r: seq<Node>)
    requires IsRanking(MaturedIn(chain, begin, scan), e, r)
    ensures IsRanking(chain, e, r)
  {}

  /** The members of a set that rank before a node. */
  ghost function Ahead(chain: Nodes, e: set<OutPoint>, n: Node): set<OutPoint> {
    set o | o in e && o in chain && chain[o].Before(n)
  }

  /** A node's place is the number of nodes ahead of it. */
  lemma PlaceIs(chain: Nodes, e: set<OutPoint>, r: seq<Node>, i: nat)
    requires Keyed(chain) && IsRanking(chain, e, r) && i < |r|
    ensures |Ahead(chain, e, r[i])| == i
  {
    var f := Ahead(chain, e, r[i]);
    assert IsRanking(chain, f, r[..i]) by {
      forall o | o in f ensures o in chain && chain[o] in r[..i] {
        var k :| 0 <= k < |r| && r[k] == chain[o];
        assert k > i ==> r[i].Before(r[k]);
        assert r[..i][k] == chain[o];
      }
    }
    RankingCounts(chain, f, r[..i]);
  }

  /** The nodes of the list of a scan that a statement at s pays and one at s' no longer does. */
  ghost function Expiring(chain: Nodes, tier: nat, begin: int, scan: int, s: int, s': int): set<OutPoint> {
    set o | o in chain && chain[o].tier == tier && begin <= chain[o].height < scan - INF_MATURED_LIMIT &&
            chain[o].height < s <= chain[o].height + 262800 < s'
  }

  /** n is in the list of a scan and paid by a statement at s. */
  ghost predicate InTurn(chain: Nodes, tier: nat, begin: int, scan: int, s: int, n: Node) {
    && n.tier == tier && begin <= n.height < scan - INF_MATURED_LIMIT && n.height < s <= n.height + 262800
  }

  lemma EligibleIs(chain: Nodes, tier: nat, begin: int, scan: int, s: int, o: OutPoint)
    ensures o in EligibleSet(MaturedIn(chain, begin, scan), tier, s) <==>
              o in chain && InTurn(chain, tier, begin, scan, s, chain[o])
  {}

  /** Between two statements a node moves forward by the number of those that expire in between. */
  lemma PlaceMoves(chain: Nodes, tier: nat, begin: int, scan: int, s: int, scan': int, s': int, n: Node)
    requires s <= s' && InTurn(chain, tier, begin, scan, s, n) && InTurn(chain, tier, begin, scan', s', n)
    ensures var e := EligibleSet(MaturedIn(chain, begin, scan), tier, s);
            var f := EligibleSet(MaturedIn(chain, begin, scan'), tier, s');
            |Ahead(chain, e, n)| == |Ahead(chain, f, n)| + |Expiring(chain, tier, begin, scan, s, s')|
  {
    var e := EligibleSet(MaturedIn(chain, begin, scan), tier, s);
    var f := EligibleSet(MaturedIn(chain, begin, scan'), tier, s');
    var a, b, k := Ahead(chain, e, n), Ahead(chain, f, n), Expiring(chain, tier, begin, scan, s, s');
    forall o ensures o in a <==> o in b || o in k {
      EligibleIs(chain, tier, begin, scan, s, o);
      EligibleIs(chain, tier, begin, scan', s', o);
    }
    forall o | o in b ensures o !in k { EligibleIs(chain, tier, begin, scan', s', o); }
    assert a == b + k && b !! k;
  }

  /** Those that expire are all ahead of those that do not. */
  lemma ExpiringFirst(chain: Nodes, tier: nat, begin: int, scan: int, s: int, s': int, n: Node)
    requires InTurn(chain, tier, begin, scan, s, n) && n.height + 262800 < s' && n.outpoint in chain
    requires chain[n.outpoint] == n
    ensures |Ahead(chain, EligibleSet(MaturedIn(chain, begin, scan), tier, s), n)| <
              |Expiring(chain, tier, begin, scan, s, s')|
  {
    var a := Ahead(chain, EligibleSet(MaturedIn(chain, begin, scan), tier, s), n);
    var k := Expiring(chain, tier, begin, scan, s, s');
    forall o | o in a ensures o in k { EligibleIs(chain, tier, begin, scan, s, o); }
    assert n.outpoint in k && n.outpoint !in a;
    OneMoreMember(a, k, n.outpoint);
  }

  /** Two rankings name the same node exactly at places that differ by the number of those expiring in between. */
  lemma PlacesMeet(chain: Nodes, tier: nat, begin: int, scan: int, s: int, scan': int, s': int,
                   r: seq<Node>, q: seq<Node>, i: nat, j: nat)
    requires Keyed(chain) && s <= s' && i < |r| && j < |q|
    requires IsRanking(chain, EligibleSet(MaturedIn(chain, begin, scan), tier, s), r)
    requires IsRanking(chain, EligibleSet(MaturedIn(chain, begin, scan'), tier, s'), q)
    ensures r[i] == q[j] <==> i == j + |Expiring(chain, tier, begin, scan, s, s')|
  {
    var e := EligibleSet(MaturedIn(chain, begin, scan), tier, s);
    var f := EligibleSet(MaturedIn(chain, begin, scan'), tier, s');
    var n, m := r[i], q[j];
    EligibleIs(chain, tier, begin, scan, s, n.outpoint);
    EligibleIs(chain, tier, begin, scan', s', m.outpoint);
    PlaceIs(chain, e, r, i);
    PlaceIs(chain, f, q, j);
    if n == m {
      PlaceMoves(chain, tier, begin, scan, s, scan', s', n);
    } else if i == j + |Expiring(chain, tier, begin, scan, s, s')| {
      if n.height + 262800 < s' {
        ExpiringFirst(chain, tier, begin, scan, s, s', n);
      } else if InTurn(chain, tier, begin, scan', s', n) {
        SamePlace(chain, tier, begin, scan, s, scan', s', f, q, n, j);
      } else {
        assert m.height < n.height;
        PlaceMoves(chain, tier, begin, scan, s, scan', s', m);
        EligibleIs(chain, tier, begin, scan, s, m.outpoint);
        OnePlace(chain, e, r, m, i);
      }
    }
  }

  lemma OnePlace(chain: Nodes, e: set<OutPoint>, r: seq<Node>, m: Node, i: nat)
    requires Keyed(chain) && IsRanking(chain, e, r) && i < |r| && m.outpoint in e && m.outpoint in chain
    requires chain[m.outpoint] == m && |Ahead(chain, e, m)| == i
    ensures r[i] == m
  {
    var k :| 0 <= k < |r| && r[k] == m;
    PlaceIs(chain, e, r, k);
  }

  lemma SamePlace(chain: Nodes, tier: nat, begin: int, scan: int, s: int, scan': int, s': int, f: set<OutPoint>,
                  q: seq<Node>, n: Node, j: nat)
    requires Keyed(chain) && s <= s' && f == EligibleSet(MaturedIn(chain, begin, scan'), tier, s')
    requires IsRanking(chain, f, q) && j < |q| && n.outpoint in chain && chain[n.outpoint] == n
    requires InTurn(chain, tier, begin, scan, s, n) && InTurn(chain, tier, begin, scan', s', n)
    requires |Ahead(chain, EligibleSet(MaturedIn(chain, begin, scan), tier, s), n)| ==
               j + |Expiring(chain, tier, begin, scan, s, s')|
    ensures q[j] == n
  {
    PlaceMoves(chain, tier, begin, scan, s, scan', s', n);
    EligibleIs(chain, tier, begin, scan', s', n.outpoint);
    OnePlace(chain, f, q, n, j);
  }

  /** Two nodes on one chain, whose statements were laid out at any tips and from any scans, pay the same infinity node
      at a height both cover if and only if the covering statements begin as many blocks apart as nodes of the first
      expire in between. */
  lemma PaidAlikeIff(chain: Nodes, tier: nat, begin: int, at: int, h: int,
                     scan: int, tip: int, s: int, r: seq<Node>, scan': int, tip': int, s': int, q: seq<Node>)
    requires Keyed(chain) && s <= s'
    requires Covers(Statements(MaturedIn(chain, begin, scan), tier, at, tip), s, h)
    requires Covers(Statements(MaturedIn(chain, begin, scan'), tier, at, tip'), s', h)
    requires IsRanking(MaturedIn(chain, begin, scan), EligibleSet(MaturedIn(chain, begin, scan), tier, s), r)
    requires IsRanking(MaturedIn(chain, begin, scan'), EligibleSet(MaturedIn(chain, begin, scan'), tier, s'), q)
    ensures s < h <= s + |r| && s' < h <= s' + |q|
    ensures PaidAt(r, s, h) == PaidAt(q, s', h) <==> s' - s == |Expiring(chain, tier, begin, scan, s, s')|
  {
    PaidWithin(chain, tier, begin, at, h, scan, tip, s, r);
    PaidWithin(chain, tier, begin, at, h, scan', tip', s', q);
    hide IsRanking, MaturedIn, EligibleSet, Statements, Expiring;
    RankingInChain(chain, begin, scan, EligibleSet(MaturedIn(chain, begin, scan), tier, s), r);
    RankingInChain(chain, begin, scan', EligibleSet(MaturedIn(chain, begin, scan'), tier, s'), q);
    PlacesMeet(chain, tier, begin, scan, s, scan', s', r, q, h - s - 1, h - s' - 1);
  }

  /** While nobody expires, that is if and only if the covering statements begin at the same height. */
  lemma NobodyExpires(chain: Nodes, tier: nat, begin: int, scan: int, s: int, s': int)
    requires forall o :: o in chain && chain[o].tier == tier ==> s' <= chain[o].height + 262800
    ensures Expiring(chain, tier, begin, scan, s, s') == {}
  {}

  lemma PaidWithin(chain: Nodes, tier: nat, begin: int, at: int, h: int, scan: int, tip: int, s: int, r: seq<Node>)
    requires Keyed(chain) && Covers(Statements(MaturedIn(chain, begin, scan), tier, at, tip), s, h)
    requires IsRanking(MaturedIn(chain, begin, scan), EligibleSet(MaturedIn(chain, begin, scan), tier, s), r)
    ensures s < h <= s + |r|
  {
    var a := MaturedIn(chain, begin, scan);
    BetweenKeyed(chain, begin, scan - INF_MATURED_LIMIT);
    hide Statements, IsRanking, MaturedIn, EligibleSet;
    StatementKeys(a, tier, at, tip, s);
    RankingCounts(a, EligibleSet(a, tier, s), r);
    SizeIs(a, tier, s);
  }

  /** Two such nodes whose statements cover a height begin them at the same height when no burn of the tier below the
      earlier layout's one has matured in between. */
  lemma PaidAlikeUnburned(chain: Nodes, tier: nat, begin: int, at: int, tip: int, later: int, s: int, h: int)
    requires tip <= later && Covers(Statements(MaturedIn(chain, begin, tip), tier, at, tip), s, h)
    requires !BurnedSince(chain, tier, begin, tip, later, s)
    ensures Covers(Statements(MaturedIn(chain, begin, later), tier, at, later), s, h)
  {
    hide Statements, MaturedIn, BurnedSince;
    StatementKeys(MaturedIn(chain, begin, tip), tier, at, tip, s);
    StatementStaysIff(chain, tier, begin, at, tip, later, s);
  }

  /** Burns at 100 and 158: at height 161 the layout of tip 161 pays by the statement at 160, that of tip 214 by the one
      at 159, and so two different nodes. */
  lemma PaidDifferently(r: seq<Node>, q: seq<Node>)
    requires var a := MaturedIn(TwoBurns(), 100, 161); IsRanking(a, EligibleSet(a, 10, 160), r)
    requires var b := MaturedIn(TwoBurns(), 100, 214); IsRanking(b, EligibleSet(b, 10, 159), q)
    ensures Covers(Statements(MaturedIn(TwoBurns(), 100, 161), 10, 110, 161), 160, 161)
    ensures Covers(Statements(MaturedIn(TwoBurns(), 100, 214), 10, 110, 214), 159, 161)
    ensures |r| >= 1 && |q| >= 2 && PaidAt(r, 160, 161) != PaidAt(q, 159, 161)
  {
    hide IsRanking, Statements, EligibleSet;
    assert 2 in TwoBurns();
    TwoBurnsMatured(161);
    TwoBurnsMatured(214);
    TwoBurnsStatement(MaturedIn(TwoBurns(), 100, 161), 161, 160);
    TwoBurnsStatement(MaturedIn(TwoBurns(), 100, 214), 214, 159);
    NobodyExpires(TwoBurns(), 10, 100, 214, 159, 160);
    PaidAlikeIff(TwoBurns(), 10, 100, 110, 161, 214, 214, 159, q, 161, 161, 160, r);
  }

  // ---- looking a payment up

  /** What the source's map of ranks gives for a rank it does not hold. */
  const NOBODY: Node := Node(0, 0, 0)

  ghost predicate Near(stm: map<int, nat>, s: int, h: int) {
    Covers(stm, s, h) && h - s < FAR
  }

  ghost predicate Nearest(stm: map<int, nat>, s: int, h: int) {
    Near(stm, s, h) && forall t :: Near(stm, t, h) ==> t <= s
  }

  /** The nearest statement that covers a height, and the node of the height's rank in it. */
  ghost predicate RankedAt(nodes: Nodes, stm: map<int, nat>, tier: nat, s: int, r: seq<Node>, h: int, node: Node) {
    && Nearest(stm, s, h) && IsRanking(nodes, EligibleSet(nodes, tier, s), r)
    && node == if s < h <= s + |r| then PaidAt(r, s, h) else NOBODY
  }

  lemma NearestIs(stm: map<int, nat>, last: int, h: int)
    requires (exists s :: Near(stm, s, h)) ==> Nearest(stm, last, h)
    requires (forall s :: !Near(stm, s, h)) ==> last == 0
    ensures last != 0 <==> exists s :: s != 0 && Nearest(stm, s, h)
    ensures last != 0 ==> Nearest(stm, last, h) && last < h
  {
    forall s | Nearest(stm, s, h) ensures s == last { assert Near(stm, s, h) && Near(stm, last, h); }
  }

  /** Among statements that were laid out, the nearest cover is the only one. */
  lemma CoverIsNearest(nodes: Nodes, tier: nat, at: int, tip: int, h: int)
    requires at > 0
    ensures var stm := Statements(nodes, tier, at, tip);
            (exists s :: s != 0 && Nearest(stm, s, h)) <==> (exists s :: Covers(stm, s, h) && h - s < FAR)
  {
    var stm := Statements(nodes, tier, at, tip);
    Tiling(nodes, tier, at, tip, h);
    hide Statements;
    if s :| Covers(stm, s, h) && h - s < FAR {
      StatementKeys(nodes, tier, at, tip, s);
      assert Near(stm, s, h);
      forall t | Near(stm, t, h) ensures t <= s { assert Covers(stm, t, h); }
      assert s != 0 && Nearest(stm, s, h);
    }
    if s :| s != 0 && Nearest(stm, s, h) { assert Covers(stm, s, h) && h - s < FAR; }
  }

  lemma PaidAsLaid(chain: Nodes, tier: nat, begin: int, at: int, scan: int, tip: int, later: int,
                   s: int, h: int, q: seq<Node>, node: Node)
    requires Keyed(chain) && scan <= later
    requires RankedAt(MaturedIn(chain, begin, later), Statements(MaturedIn(chain, begin, scan), tier, at, tip),
                      tier, s, q, h, node)
    ensures exists r :: Pays(MaturedIn(chain, begin, scan), Statements(MaturedIn(chain, begin, scan), tier, at, tip),
                             tier, s, r, h, node)
  {
    var a := MaturedIn(chain, begin, scan);
    BetweenKeyed(chain, begin, scan - INF_MATURED_LIMIT);
    hide MaturedIn, Statements, IsRanking, EligibleSet;
    var r := RankingAtEarlierTip(chain, tier, begin, scan, later, s, q);
    PaidTheSame(chain, tier, begin, at, scan, tip, later, s, h, r, q);
    assert Pays(a, Statements(a, tier, at, tip), tier, s, r, h, node);
  }

  lemma SizeIs(nodes: Nodes, tier: nat, at: int)
    ensures Size(nodes, tier, at) == |EligibleSet(nodes, tier, at)|
  {}

  lemma EmptyRanking(nodes: Nodes)
    ensures IsRanking(nodes, {}, [])
  {}

  lemma AscendingKeys(xs: set<int>, v: seq<int>)
    requires v == Order.Ascending(xs)
    ensures Order.Increasing(v) && forall x :: x in xs <==> x in v
  {}

  /** The last statement of one turn of laying out and of those to come. */
  lemma LastLaid(nodes: Nodes, tier: nat, at: int, tip: int, earlier: (int, nat))
    requires at < tip
    ensures var n := Size(nodes, tier, at);
            var s := if n == 0 then tip else at;
            Last(nodes, tier, s + n, tip, (s, n)) == Last(nodes, tier, at, tip, earlier)
  {
    hide Size;
  }

  /** The statements reach at least to the tip once there is one, and to their end if they have nodes. */
  lemma {:induction false} LastReaches(nodes: Nodes, tier: nat, at: int, tip: int, earlier: (int, nat))
    requires at < tip
    ensures var (s, n) := Last(nodes, tier, at, tip, earlier);
            && s in Statements(nodes, tier, at, tip) && Statements(nodes, tier, at, tip)[s] == n
            && s <= tip <= s + n && (n > 0 ==> s + n == End(nodes, tier, at, tip))
    decreases tip - at
  {
    hide Size;
    var n := Size(nodes, tier, at);
    if n > 0 && at + n < tip {
      LastReaches(nodes, tier, at + n, tip, (at, n));
      var (s, m) := Last(nodes, tier, at + n, tip, (at, n));
      StatementKeys(nodes, tier, at + n, tip, s);
    }
  }

  /** One turn of laying out: the statement just made and those still to come are those that were to come. */
  lemma LaidOut(nodes: Nodes, tier: nat, at: int, tip: int, before: map<int, nat>)
    requires at < tip
    ensures var n := Size(nodes, tier, at);
            var s := if n == 0 then tip else at;
            before[s := n] + Statements(nodes, tier, s + n, tip) == before + Statements(nodes, tier, at, tip)
  {
    hide Size;
    var n := Size(nodes, tier, at);
    if n > 0 && at in Statements(nodes, tier, at + n, tip) { StatementKeys(nodes, tier, at + n, tip, at); }
  }
}
