/** Who is paid, in the nodes' own fields: from the block after its burn a node takes part for 720 * 365 blocks. */
module InfinitynodeLife {
  import opened InfinitynodeModel

  /** A node of the tier, burned below s, whose year is not over at s. */
  predicate Alive(n: Node, tier: nat, s: int) {
    n.tier == tier && n.height < s <= n.height + 262800
  }

  function AliveSet(nodes: Nodes, tier: nat, s: int): set<OutPoint> {
    set o | o in nodes && Alive(nodes[o], tier, s)
  }

  lemma AliveIsEligible(nodes: Nodes, tier: nat, s: int)
    ensures EligibleSet(nodes, tier, s) == AliveSet(nodes, tier, s)
  {}

  /** A statement before the tip has as many blocks as nodes are alive at it. */
  lemma SizeIsAlive(nodes: Nodes, tier: nat, at: int, tip: int, s: int)
    requires s in Statements(nodes, tier, at, tip) && s < tip
    ensures Statements(nodes, tier, at, tip)[s] == |AliveSet(nodes, tier, s)| > 0
  {
    hide Statements;
    AliveIsEligible(nodes, tier, s);
    StatementKeys(nodes, tier, at, tip, s);
  }

  /** r is what the ranking at s computes: the nodes alive, by burn height and outpoint. */
  ghost predicate RanksAlive(nodes: Nodes, tier: nat, s: int, r: seq<Node>) {
    && (forall n :: n in r <==> n.outpoint in nodes && nodes[n.outpoint] == n && Alive(n, tier, s))
    && (forall i, j :: 0 <= i < j < |r| ==>
         r[i].height < r[j].height || (r[i].height == r[j].height && r[i].outpoint < r[j].outpoint))
  }

  lemma RankedAlive(nodes: Nodes, tier: nat, s: int, r: seq<Node>)
    requires Keyed(nodes)
    ensures IsRanking(nodes, EligibleSet(nodes, tier, s), r) <==> RanksAlive(nodes, tier, s, r)
  {
    AliveIsEligible(nodes, tier, s);
    var e := AliveSet(nodes, tier, s);
    if IsRanking(nodes, e, r) {
      forall i, j | 0 <= i < j < |r|
        ensures r[i].height < r[j].height || (r[i].height == r[j].height && r[i].outpoint < r[j].outpoint)
      {
        assert r[i].Before(r[j]);
      }
      forall n: Node | n.outpoint in nodes && nodes[n.outpoint] == n && Alive(n, tier, s) ensures n in r {
        assert n.outpoint in e;
      }
    }
    if RanksAlive(nodes, tier, s, r) {
      forall i | 0 <= i < |r| ensures r[i].outpoint in e && nodes[r[i].outpoint] == r[i] { assert r[i] in r; }
      forall o | o in e ensures nodes[o] in r { assert nodes[o].outpoint == o; }
    }
  }

  /** A node is paid by a statement if and only if it is alive at it, and then at one height only. */
  lemma PaidWhileAlive(nodes: Nodes, tier: nat, at: int, tip: int, s: int, r: seq<Node>, o: OutPoint)
    requires Keyed(nodes) && s in Statements(nodes, tier, at, tip) && s < tip && o in nodes
    requires RanksAlive(nodes, tier, s, r)
    ensures |r| == Statements(nodes, tier, at, tip)[s]
    ensures Alive(nodes[o], tier, s) <==>
              exists h :: Covers(Statements(nodes, tier, at, tip), s, h) && PaidAt(r, s, h) == nodes[o]
    ensures forall h, g :: s < h < g <= s + |r| ==> PaidAt(r, s, h) != PaidAt(r, s, g)
  {
    var e := EligibleSet(nodes, tier, s);
    RankedAlive(nodes, tier, s, r);
    RankingCounts(nodes, e, r);
    AliveIsEligible(nodes, tier, s);
    SizeIsAlive(nodes, tier, at, tip, s);
    hide Statements, IsRanking;
    if Alive(nodes[o], tier, s) {
      assert nodes[o] in r;
      var i :| 0 <= i < |r| && r[i] == nodes[o];
      assert PaidAt(r, s, s + 1 + i) == nodes[o];
    }
    if h :| Covers(Statements(nodes, tier, at, tip), s, h) && PaidAt(r, s, h) == nodes[o] {
      assert r[h - s - 1] in r;
    }
  }

  /** Whoever is paid at a height is a node of the list and alive at the statement that covers it. */
  lemma PayeeIsAlive(nodes: Nodes, stm: map<int, nat>, tier: nat, s: int, r: seq<Node>, h: int, node: Node)
    requires Pays(nodes, stm, tier, s, r, h, node)
    ensures node.outpoint in nodes && nodes[node.outpoint] == node && Alive(node, tier, s)
  {
    AliveIsEligible(nodes, tier, s);
  }

  // ---- from one statement to the next

  /** Those a statement at s pays that are no longer alive at a later one. */
  function Leaving(nodes: Nodes, tier: nat, s: int, later: int): set<OutPoint> {
    set o | o in nodes && nodes[o].tier == tier && nodes[o].height < s <= nodes[o].height + 262800 < later
  }

  /** Those burned since a statement at s and alive at a later one. */
  function Joining(nodes: Nodes, tier: nat, s: int, later: int): set<OutPoint> {
    set o | o in nodes && nodes[o].tier == tier && s <= nodes[o].height < later <= nodes[o].height + 262800
  }

  /** The next statement has the nodes of this one, less those whose year ends in between, and the new ones. */
  lemma Turnover(nodes: Nodes, tier: nat, s: int, later: int)
    requires s <= later
    ensures AliveSet(nodes, tier, later) ==
              AliveSet(nodes, tier, s) - Leaving(nodes, tier, s, later) + Joining(nodes, tier, s, later)
    ensures |AliveSet(nodes, tier, later)| ==
              |AliveSet(nodes, tier, s)| - |Leaving(nodes, tier, s, later)| + |Joining(nodes, tier, s, later)|
  {
    var a, b := AliveSet(nodes, tier, s), AliveSet(nodes, tier, later);
    var out, in_ := Leaving(nodes, tier, s, later), Joining(nodes, tier, s, later);
    assert out <= a && a !! in_;
    assert b == a - out + in_;
    assert a == (a - out) + out;
  }

  /** A statement follows where the one before has paid everybody, and is larger or smaller by those who came and
      went. */
  lemma NextStatement(nodes: Nodes, tier: nat, at: int, tip: int, s: int)
    requires s in Statements(nodes, tier, at, tip) && s + Statements(nodes, tier, at, tip)[s] < tip
    ensures var stm := Statements(nodes, tier, at, tip);
            var later := s + stm[s];
            && |AliveSet(nodes, tier, later)| ==
                 stm[s] - |Leaving(nodes, tier, s, later)| + |Joining(nodes, tier, s, later)|
            && (AliveSet(nodes, tier, later) != {} ==> later in stm && stm[later] == |AliveSet(nodes, tier, later)|)
            && (AliveSet(nodes, tier, later) == {} ==> tip in stm && stm[tip] == 0)
  {
    var later := s + Statements(nodes, tier, at, tip)[s];
    SizeIsAlive(nodes, tier, at, tip, s);
    Turnover(nodes, tier, s, later);
    AliveIsEligible(nodes, tier, later);
    Follows(nodes, tier, at, tip, s);
  }

  lemma {:induction false} Follows(nodes: Nodes, tier: nat, at: int, tip: int, s: int)
    requires s in Statements(nodes, tier, at, tip) && s + Statements(nodes, tier, at, tip)[s] < tip
    ensures var stm := Statements(nodes, tier, at, tip);
            var later := s + stm[s];
            if Size(nodes, tier, later) > 0 then later in stm && stm[later] == Size(nodes, tier, later)
            else tip in stm && stm[tip] == 0
    decreases tip - at
  {
    hide Size;
    var n := Size(nodes, tier, at);
    StatementKeys(nodes, tier, at, tip, s);
    if s != at {
      Follows(nodes, tier, at + n, tip, s);
      var rest := Statements(nodes, tier, at + n, tip);
      var next := if Size(nodes, tier, s + rest[s]) > 0 then s + rest[s] else tip;
      StatementKeys(nodes, tier, at + n, tip, next);
    }
  }

  /** From its expiry on a node makes no difference: the statements are those of the list without it. */
  lemma {:induction false} ExpiredMakesNoDifference(nodes: Nodes, gone: set<OutPoint>, tier: nat, at: int, tip: int)
    requires forall o :: o in gone && o in nodes ==> nodes[o].height + 262800 < at
    ensures Statements(nodes, tier, at, tip) == Statements(nodes - gone, tier, at, tip)
    decreases tip - at
  {
    AliveIsEligible(nodes, tier, at);
    AliveIsEligible(nodes - gone, tier, at);
    assert AliveSet(nodes, tier, at) == AliveSet(nodes - gone, tier, at);
    assert Size(nodes, tier, at) == Size(nodes - gone, tier, at);
    hide Size;
    var n := Size(nodes, tier, at);
    if at < tip && n > 0 { ExpiredMakesNoDifference(nodes, gone, tier, at + n, tip); }
  }
}
