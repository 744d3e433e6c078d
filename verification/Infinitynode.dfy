/** The manager of the infinity nodes: its lists and statements are changed in place. */
module Infinitynode {
  import Order
  import opened InfinitynodeModel
  import L = InfinitynodeLife

  method InsertRanked(ghost nodes: Nodes, ghost e: set<OutPoint>, r: seq<Node>, x: Node) returns (q: seq<Node>)
    requires Keyed(nodes) && IsRanking(nodes, e, r)
    requires x.outpoint in nodes && nodes[x.outpoint] == x && x.outpoint !in e
    ensures IsRanking(nodes, e + {x.outpoint}, q)
  {
    var k := 0;
    while k < |r| && r[k].Before(x)
      invariant 0 <= k <= |r| && forall i :: 0 <= i < k ==> r[i].Before(x)
    {
      k := k + 1;
    }
    q := r[..k] + [x] + r[k..];
    InsertedIsRanking(nodes, e, r, x, k, q);
  }

  const TIERS: set<nat> := {10, 5, 1}

  datatype Consensus = Consensus(nBeginHeight: int, nGenesisStatement: int)

  class InfinitynodeMan {
    const params: Consensus
    var mapInfinitynodes: Nodes
    var mapInfinitynodesNonMatured: Nodes
    var nLastScanHeight: int
    var nCachedBlockHeight: int
    var mapStatement: map<nat, map<int, nat>>
    var lastStatement: map<nat, (int, nat)>
    ghost var scanned: int                    // the highest tip of a scan, the begin height before any
    ghost var laid: map<nat, (int, int)>      // the scan and the tip from which the statements of a tier were laid out

    constructor (p: Consensus)
      ensures params == p && mapInfinitynodes == map[] && mapInfinitynodesNonMatured == map[] && nLastScanHeight == 0
      ensures mapStatement == map[] && lastStatement == map[] && laid == map[] && scanned == p.nBeginHeight
      ensures nCachedBlockHeight == 0
    {
      params := p;
      mapInfinitynodes, mapInfinitynodesNonMatured, nLastScanHeight, nCachedBlockHeight := map[], map[], 0, 0;
      mapStatement, lastStatement, laid, scanned := map[], map[], map[], p.nBeginHeight;
    }

    function LastStatement(tier: nat): (int, nat)
      reads this`lastStatement
    {
      if tier in lastStatement then lastStatement[tier] else (0, 0)
    }

    method CountEligible(tier: nat, at: int) returns (total: nat)
      ensures total == Size(mapInfinitynodes, tier, at)
    {
      total := 0;
      var todo := mapInfinitynodes.Keys;
      ghost var all := EligibleSet(mapInfinitynodes, tier, at);
      assert all - todo == {};
      while todo != {}
        invariant todo <= mapInfinitynodes.Keys && total == |all - todo|
        decreases |todo|
      {
        var o :| o in todo;
        if mapInfinitynodes[o].Eligible(tier, at) {
          assert all - (todo - {o}) == (all - todo) + {o};
          total := total + 1;
        } else {
          assert all - (todo - {o}) == all - todo;
        }
        todo := todo - {o};
      }
      assert all - todo == all;
    }

    /** Lays out the statements of a tier from the genesis statement to the tip. */
    method DeterministicRewardStatement(tier: nat)
      modifies this`mapStatement, this`lastStatement, this`laid
      ensures laid == old(laid)[tier := (scanned, nCachedBlockHeight)]
      ensures mapStatement ==
                old(mapStatement)[tier := Statements(mapInfinitynodes, tier, params.nGenesisStatement,
                                                     nCachedBlockHeight)]
      ensures forall s :: s in mapStatement[tier] && s < nCachedBlockHeight ==>
                mapStatement[tier][s] == |L.AliveSet(mapInfinitynodes, tier, s)|
      ensures forall t :: t != tier ==> LastStatement(t) == old(LastStatement(t))
      ensures LastStatement(tier) ==
                Last(mapInfinitynodes, tier, params.nGenesisStatement, nCachedBlockHeight, old(LastStatement(tier)))
    {
      hide Size;
      var at := params.nGenesisStatement;
      var stm: map<int, nat> := map[];
      ghost var all := Statements(mapInfinitynodes, tier, at, nCachedBlockHeight);
      ghost var last := Last(mapInfinitynodes, tier, at, nCachedBlockHeight, LastStatement(tier));
      while at < nCachedBlockHeight
        invariant stm + Statements(mapInfinitynodes, tier, at, nCachedBlockHeight) == all
        invariant Last(mapInfinitynodes, tier, at, nCachedBlockHeight, LastStatement(tier)) == last
        invariant mapStatement == old(mapStatement) && laid == old(laid)
        invariant forall t :: t != tier ==> LastStatement(t) == old(LastStatement(t))
        decreases nCachedBlockHeight - at
      {
        var total := CountEligible(tier, at);
        LaidOut(mapInfinitynodes, tier, at, nCachedBlockHeight, stm);
        LastLaid(mapInfinitynodes, tier, at, nCachedBlockHeight, LastStatement(tier));
        if total == 0 { at := nCachedBlockHeight; }
        stm := stm[at := total];
        lastStatement := lastStatement[tier := (at, total)];
        at := at + total;
      }
      assert stm + map[] == stm;
      mapStatement := mapStatement[tier := stm];
      forall s | s in stm && s < nCachedBlockHeight ensures stm[s] == |L.AliveSet(mapInfinitynodes, tier, s)| {
        L.SizeIsAlive(mapInfinitynodes, tier, params.nGenesisStatement, nCachedBlockHeight, s);
      }
      laid := laid[tier := (scanned, nCachedBlockHeight)];
    }

    method CalculInfinityNodeRank(at: int, tier: nat) returns (r: seq<Node>)
      requires Keyed(mapInfinitynodes)
      ensures IsRanking(mapInfinitynodes, EligibleSet(mapInfinitynodes, tier, at), r)
      ensures L.RanksAlive(mapInfinitynodes, tier, at, r)
    {
      hide IsRanking, L.RanksAlive;
      r := [];
      var todo := mapInfinitynodes.Keys;
      ghost var all := EligibleSet(mapInfinitynodes, tier, at);
      assert all - todo == {};
      EmptyRanking(mapInfinitynodes);
      while todo != {}
        invariant todo <= mapInfinitynodes.Keys && IsRanking(mapInfinitynodes, all - todo, r)
        decreases |todo|
      {
        var o :| o in todo;
        if mapInfinitynodes[o].Eligible(tier, at) {
          assert all - (todo - {o}) == (all - todo) + {o};
          r := InsertRanked(mapInfinitynodes, all - todo, r, mapInfinitynodes[o]);
        } else {
          assert all - (todo - {o}) == all - todo;
        }
        todo := todo - {o};
      }
      assert all - todo == all;
      L.RankedAlive(mapInfinitynodes, tier, at, r);
    }

    /** The last statement before a height that covers it, by going through the statements in order; 0 when none
        does, or none less than 100000 blocks away. */
    method FindStatement(stm: map<int, nat>, h: int) returns (last: int)
      ensures (exists s :: Near(stm, s, h)) ==> Nearest(stm, last, h)
      ensures (forall s :: !Near(stm, s, h)) ==> last == 0
    {
      hide Order.Ascending;
      var keys := Order.InOrder(stm.Keys);
      AscendingKeys(stm.Keys, keys);
      var nDelta := FAR;
      last := 0;
      for i := 0 to |keys|
        invariant nDelta <= FAR && (nDelta < FAR ==> exists j :: 0 <= j < i && h - keys[j] == nDelta)
        invariant forall j :: 0 <= j < i && Near(stm, keys[j], h) ==> Near(stm, last, h) && keys[j] <= last
        invariant Near(stm, last, h) || last == 0
      {
        var s := keys[i];
        assert s in stm;
        if h > s && nDelta > h - s {
          nDelta := h - s;
          if nDelta <= stm[s] { last := s; }
        }
      }
      forall s | Near(stm, s, h) ensures Near(stm, last, h) && s <= last {
        var j :| 0 <= j < |keys| && keys[j] == s;
      }
    }

    /** The node to be paid at a height: the one whose rank at the covering statement is the height's place in it. For
        statements laid out from the list of this scan or an earlier one, it is the node they paid at that height when
        laid out. */
    method DeterministicRewardAtHeight(h: int, tier: nat, ghost chain: Nodes) returns (found: bool, node: Node)
      requires h >= params.nGenesisStatement && Keyed(mapInfinitynodes)
      ensures found <==> exists s :: s != 0 && Nearest(StatementMap(tier), s, h)
      ensures found ==> exists s, r :: RankedAt(mapInfinitynodes, StatementMap(tier), tier, s, r, h, node)
      ensures Reached(chain) && Laid(chain, tier) ==>
                && (found <==> exists s :: Covers(mapStatement[tier], s, h) && h - s < FAR)
                && (found ==> exists s, r :: Pays(MaturedIn(chain, params.nBeginHeight, laid[tier].0),
                                                  mapStatement[tier], tier, s, r, h, node))
    {
      hide Statements, IsRanking, Size, MaturedIn, Near, Covers;
      node := NOBODY;
      found := false;
      var stm := StatementMap(tier);
      var last := FindStatement(stm, h);
      NearestIs(stm, last, h);
      if Reached(chain) && Laid(chain, tier) {
        CoverIsNearest(MaturedIn(chain, params.nBeginHeight, laid[tier].0), tier, params.nGenesisStatement,
                       laid[tier].1, h);
      }
      if last == 0 {
        assert forall s :: s != 0 ==> !Nearest(StatementMap(tier), s, h);
        return;
      }
      var r := CalculInfinityNodeRank(last, tier);
      found := true;
      if h - last <= |r| { node := r[h - last - 1]; }
      assert RankedAt(mapInfinitynodes, stm, tier, last, r, h, node);
      if Reached(chain) && Laid(chain, tier) {
        PaidAsLaid(chain, tier, params.nBeginHeight, params.nGenesisStatement, laid[tier].0, laid[tier].1, scanned,
                   last, h, r, node);
      }
      assert last != 0 && Nearest(StatementMap(tier), last, h);
    }

    function StatementMap(tier: nat): map<int, nat>
      reads this`mapStatement
    {
      if tier in mapStatement then mapStatement[tier] else map[]
    }

    /** The list is that of a full scan at the highest tip scanned, and the next scan leaves no gap. */
    ghost predicate Reached(chain: Nodes)
      reads this
    {
      && Keyed(chain) && params.nBeginHeight >= 1 && params.nGenesisStatement > 0
      && mapInfinitynodes == MaturedIn(chain, params.nBeginHeight, scanned)
      && if nLastScanHeight == 0 then scanned == params.nBeginHeight
         else params.nBeginHeight < nLastScanHeight <= scanned - INF_MATURED_LIMIT
    }

    /** The statements of the tier were laid out from the list of this scan or an earlier one. */
    ghost predicate Laid(chain: Nodes, tier: nat)
      reads this
    {
      && tier in mapStatement && tier in laid && laid[tier].0 <= scanned
      && mapStatement[tier] ==
           Statements(MaturedIn(chain, params.nBeginHeight, laid[tier].0), tier, params.nGenesisStatement, laid[tier].1)
    }

    /** What every sequence of calls keeps: the list is right, and so are the statements of every tier that has some. */
    ghost predicate Held(chain: Nodes)
      reads this
    {
      Reached(chain) && forall t :: t in TIERS && t in mapStatement ==> Laid(chain, t)
    }

    method Clear()
      modifies this`mapInfinitynodes, this`nLastScanHeight
      ensures mapInfinitynodes == map[] && nLastScanHeight == 0
    {
      mapInfinitynodes := map[];
      nLastScanHeight := 0;
    }

    /** Matured burns of a block are added unless already known. */
    method AddMatured(burns: Nodes)
      modifies this`mapInfinitynodes
      ensures mapInfinitynodes == burns + old(mapInfinitynodes)
    {
      hide Added;
      var todo := burns.Keys;
      ghost var m := mapInfinitynodes;
      AddedEnds(burns, m);
      while todo != {}
        invariant todo <= burns.Keys && mapInfinitynodes == Added(burns, todo, m)
        decreases |todo|
      {
        var o :| o in todo;
        OneMoreAdded(burns, todo, o, m);
        if o !in mapInfinitynodes { mapInfinitynodes := mapInfinitynodes[o := burns[o]]; }
        todo := todo - {o};
      }
    }

    /** The burns of the latest blocks are kept apart. */
    method KeepFresh(burns: Nodes)
      modifies this`mapInfinitynodesNonMatured
      ensures mapInfinitynodesNonMatured == old(mapInfinitynodesNonMatured) + burns
    {
      hide Kept;
      var todo := burns.Keys;
      ghost var n := mapInfinitynodesNonMatured;
      KeptEnds(burns, n);
      while todo != {}
        invariant todo <= burns.Keys && mapInfinitynodesNonMatured == Kept(burns, todo, n)
        decreases |todo|
      {
        var o :| o in todo;
        OneMoreKept(burns, todo, o, n);
        mapInfinitynodesNonMatured := mapInfinitynodesNonMatured[o := burns[o]];
        todo := todo - {o};
      }
    }

    /** Goes down from the tip to a height, filing the burns of every block; below the genesis block there is none to
        look at. */
    method ReadBlocks(chain: Nodes, nBlockHeight: nat, from: int) returns (defined: bool)
      modifies this`mapInfinitynodes, this`mapInfinitynodesNonMatured
      ensures defined <==> from >= 1
      ensures defined ==> mapInfinitynodesNonMatured == FreshIn(chain, from, nBlockHeight)
      ensures defined ==> mapInfinitynodes == MaturedIn(chain, from, nBlockHeight) + old(mapInfinitynodes)
    {
      hide MaturedIn, FreshIn, Between;
      mapInfinitynodesNonMatured := map[];
      ghost var known := mapInfinitynodes;
      var h: int := nBlockHeight;
      ReadNone(chain, nBlockHeight, known);
      while h >= from
        invariant 0 <= h <= nBlockHeight && (nBlockHeight >= from ==> h >= from - 1)
        invariant nBlockHeight < from ==> h == nBlockHeight
        invariant mapInfinitynodes == MaturedIn(chain, h + 1, nBlockHeight) + known
        invariant mapInfinitynodesNonMatured == FreshIn(chain, h + 1, nBlockHeight)
        decreases h
      {
        ReadOneMore(chain, h, nBlockHeight, known);
        if h < nBlockHeight - INF_MATURED_LIMIT {
          AddMatured(Between(chain, h, h + 1));
        } else {
          KeepFresh(Between(chain, h, h + 1));
        }
        if h == 0 { return false; }
        h := h - 1;
      }
      ReadAll(chain, from, h, nBlockHeight);
      return true;
    }

    /** Reads the blocks from the tip down to a low height and files the burns found. */
    method BuildInfinitynodeList(chain: Nodes, nBlockHeight: nat, low: int) returns (defined: bool)
      modifies this`mapInfinitynodes, this`mapInfinitynodesNonMatured, this`nLastScanHeight
      ensures nBlockHeight < params.nBeginHeight ==>
                && defined && mapInfinitynodes == map[] && nLastScanHeight == 0
                && mapInfinitynodesNonMatured == old(mapInfinitynodesNonMatured)
      ensures nBlockHeight >= params.nBeginHeight ==>
                var from := if low == params.nBeginHeight then low else old(nLastScanHeight);
                defined <==> from >= 1
      ensures nBlockHeight >= params.nBeginHeight && defined ==>
                && nLastScanHeight == nBlockHeight - INF_MATURED_LIMIT
                && var whole := low == params.nBeginHeight;
                   var from := if whole then low else old(nLastScanHeight);
                   && mapInfinitynodesNonMatured == FreshIn(chain, from, nBlockHeight)
                   && mapInfinitynodes ==
                        MaturedIn(chain, from, nBlockHeight) + if whole then map[] else old(mapInfinitynodes)
    {
      if nBlockHeight < params.nBeginHeight {
        Clear();
        return true;
      }
      var from := nLastScanHeight;
      if low == params.nBeginHeight {
        Clear();
        from := low;
      }
      defined := ReadBlocks(chain, nBlockHeight, from);
      if defined { nLastScanHeight := nBlockHeight - INF_MATURED_LIMIT; }
    }

    /** The lists are those of one scan of the whole chain up to the tip. */
    ghost predicate Scanned(chain: Nodes, tip: int)
      reads this
    {
      && nLastScanHeight == tip - INF_MATURED_LIMIT
      && mapInfinitynodes == MaturedIn(chain, params.nBeginHeight, tip)
      && mapInfinitynodesNonMatured == FreshIn(chain, params.nBeginHeight, tip)
    }

    /** A tip far enough past the begin height for the next scan not to start at or below it. */
    predicate Far(nHeight: int) { nHeight > params.nBeginHeight + INF_MATURED_LIMIT }

    /** Not within the first 55 blocks past the begin height. */
    predicate Apart(nHeight: int) { nHeight <= params.nBeginHeight || Far(nHeight) }

    /** The scan from where the last one stopped. */
    method ScanOn(chain: Nodes, nBlockHeight: nat) returns (defined: bool)
      requires params.nBeginHeight >= 1
      modifies this`mapInfinitynodes, this`mapInfinitynodesNonMatured, this`nLastScanHeight, this`scanned
      ensures defined <==> nBlockHeight < params.nBeginHeight || old(nLastScanHeight) >= 1
      ensures forall tip :: params.nBeginHeight + INF_MATURED_LIMIT <= tip <= nBlockHeight ==>
                old(Scanned(chain, tip)) ==> Scanned(chain, nBlockHeight)
      ensures scanned == Max(old(scanned), nBlockHeight)
      ensures old(Reached(chain)) && old(nLastScanHeight) != 0 && Far(nBlockHeight) ==> Reached(chain)
    {
      hide Between, MaturedIn;
      ghost var last := nLastScanHeight;
      defined := BuildInfinitynodeList(chain, nBlockHeight, nLastScanHeight);
      NothingKnown(chain, params.nBeginHeight, nBlockHeight);
      if params.nBeginHeight <= last <= nBlockHeight - INF_MATURED_LIMIT {
        ScanJoined(chain, params.nBeginHeight, last, nBlockHeight);
      }
      if params.nBeginHeight <= last <= scanned - INF_MATURED_LIMIT {
        ScanMerged(chain, params.nBeginHeight, last, scanned, nBlockHeight);
      }
      MaturedIs(chain, params.nBeginHeight, last + INF_MATURED_LIMIT);
      scanned := Max(scanned, nBlockHeight);
    }

    /** The first scan, of the whole chain. */
    method ScanWhole(chain: Nodes, nBlockHeight: nat)
      requires params.nBeginHeight >= 1
      modifies this`mapInfinitynodes, this`mapInfinitynodesNonMatured, this`nLastScanHeight, this`scanned
      ensures nBlockHeight >= params.nBeginHeight ==> Scanned(chain, nBlockHeight) && scanned == nBlockHeight
      ensures nBlockHeight < params.nBeginHeight ==>
                mapInfinitynodes == map[] && nLastScanHeight == 0 && scanned == params.nBeginHeight
      ensures old(Reached(chain)) && Far(nBlockHeight) ==> Reached(chain)
    {
      hide Between;
      var defined := BuildInfinitynodeList(chain, nBlockHeight, params.nBeginHeight);
      NothingKnown(chain, params.nBeginHeight, nBlockHeight);
      scanned := Max(params.nBeginHeight, nBlockHeight);
    }

    /** The scan at a new tip, whole the first time and from the last scan after that. */
    method UpdateInfinitynodeList(chain: Nodes, nBlockHeight: nat) returns (defined: bool, ok: bool)
      requires params.nBeginHeight >= 1
      modifies this`mapInfinitynodes, this`mapInfinitynodesNonMatured, this`nLastScanHeight, this`scanned
      ensures defined <==> old(nLastScanHeight) >= 0 || nBlockHeight < params.nBeginHeight
      ensures ok <==> old(nLastScanHeight) == 0 || nBlockHeight >= old(nLastScanHeight)
      ensures !ok ==>
                && mapInfinitynodes == old(mapInfinitynodes) && nLastScanHeight == old(nLastScanHeight)
                && mapInfinitynodesNonMatured == old(mapInfinitynodesNonMatured) && scanned == old(scanned)
      ensures old(nLastScanHeight) == 0 && nBlockHeight >= params.nBeginHeight ==> Scanned(chain, nBlockHeight)
      ensures forall tip :: params.nBeginHeight + INF_MATURED_LIMIT <= tip <= nBlockHeight ==>
                old(Scanned(chain, tip)) ==> Scanned(chain, nBlockHeight)
      ensures old(Held(chain)) && Far(nBlockHeight) ==> Held(chain)
    {
      hide MaturedIn, FreshIn, Statements;
      if nLastScanHeight == 0 {
        ScanWhole(chain, nBlockHeight);
        return true, true;
      }
      if nBlockHeight < nLastScanHeight { return true, false; }
      defined := ScanOn(chain, nBlockHeight);
      ok := true;
    }

    /** Any sequence of scans at tips that do not go back, the first at least 55 blocks past the begin height,
        ends with the lists of one full scan at the last tip. */
    method ScanAll(chain: Nodes, tips: seq<nat>)
      requires params.nBeginHeight >= 1 && nLastScanHeight == 0 && tips != []
      requires tips[0] >= params.nBeginHeight + INF_MATURED_LIMIT
      requires forall i, j :: 0 <= i < j < |tips| ==> tips[i] <= tips[j]
      modifies this`mapInfinitynodes, this`mapInfinitynodesNonMatured, this`nLastScanHeight, this`scanned
      ensures Scanned(chain, tips[|tips| - 1])
    {
      var _, _ := UpdateInfinitynodeList(chain, tips[0]);
      for i := 1 to |tips|
        invariant Scanned(chain, tips[i - 1])
      {
        var _, _ := UpdateInfinitynodeList(chain, tips[i]);
      }
    }

    // ---- laying out

    /** Fewer than 55 blocks are left of the last statement of a tier. */
    predicate Due(tier: nat)
      reads this`lastStatement, this`nCachedBlockHeight
    {
      LastStatement(tier).0 + LastStatement(tier).1 - nCachedBlockHeight < INF_MATURED_LIMIT
    }

    /** The statements of a tier laid out from the list at hand, at the present tip. */
    method Lay(tier: nat, ghost chain: Nodes)
      modifies this`mapStatement, this`lastStatement, this`laid
      ensures mapStatement == old(mapStatement)[tier :=
                Statements(mapInfinitynodes, tier, params.nGenesisStatement, nCachedBlockHeight)]
      ensures laid == old(laid)[tier := (scanned, nCachedBlockHeight)]
      ensures forall t :: t != tier ==> LastStatement(t) == old(LastStatement(t))
      ensures params.nGenesisStatement < nCachedBlockHeight ==>
                LastStatement(tier).0 + LastStatement(tier).1 >= nCachedBlockHeight
      ensures old(Held(chain)) ==> Held(chain)
    {
      hide Statements, MaturedIn, Keyed, Last;
      DeterministicRewardStatement(tier);
      if params.nGenesisStatement < nCachedBlockHeight {
        LastReaches(mapInfinitynodes, tier, params.nGenesisStatement, nCachedBlockHeight, old(LastStatement(tier)));
      }
      forall t | t in TIERS && t in mapStatement && old(Held(chain)) ensures Laid(chain, t) {
        assert t != tier ==> old(Laid(chain, t));
      }
    }

    /** All three tiers laid out, as on request and when the best header is first reached. */
    method BuildStatements(ghost chain: Nodes)
      modifies this`mapStatement, this`lastStatement, this`laid
      ensures old(Held(chain)) ==> Held(chain)
      ensures forall t :: t in TIERS ==> t in mapStatement && t in laid && laid[t] == (scanned, nCachedBlockHeight)
    {
      hide Held, Statements;
      Lay(10, chain);
      Lay(5, chain);
      Lay(1, chain);
    }

    method LayIfDue(tier: nat, ghost chain: Nodes)
      modifies this`mapStatement, this`lastStatement, this`laid
      ensures old(Held(chain)) ==> Held(chain)
      ensures laid == if old(Due(tier)) then old(laid)[tier := (scanned, nCachedBlockHeight)] else old(laid)
      ensures !old(Due(tier)) ==> mapStatement == old(mapStatement)
      ensures old(Due(tier)) ==> tier in mapStatement
      ensures forall t :: t in old(mapStatement) ==> t in mapStatement
      ensures forall t :: t != tier ==> LastStatement(t) == old(LastStatement(t))
    {
      if Due(tier) { Lay(tier, chain); }
    }

    /** The three tiers of the check. */
    method LayAllDue(ghost chain: Nodes)
      modifies this`mapStatement, this`lastStatement, this`laid
      ensures old(Held(chain)) ==> Held(chain)
      ensures forall t :: t in TIERS && old(Due(t)) ==>
                t in mapStatement && t in laid && laid[t] == (scanned, nCachedBlockHeight)
      ensures forall t :: t in old(laid) && !(t in TIERS && old(Due(t))) ==> t in laid && laid[t] == old(laid)[t]
    {
      hide Held;
      ghost var big, mid, lil := Due(10), Due(5), Due(1);
      LayIfDue(10, chain);
      assert Due(5) == mid && Due(1) == lil;
      LayIfDue(5, chain);
      assert Due(1) == lil;
      LayIfDue(1, chain);
    }

    predicate FirstCheck()
      reads this
    {
      nLastScanHeight == 0 && nCachedBlockHeight > params.nBeginHeight
    }

    method BringUpToTip(chain: Nodes)
      requires params.nBeginHeight >= 1 && nCachedBlockHeight >= 0
      modifies this`mapInfinitynodes, this`mapInfinitynodesNonMatured, this`nLastScanHeight, this`scanned
      ensures nCachedBlockHeight > old(nLastScanHeight) > 0 ==> scanned == Max(old(scanned), nCachedBlockHeight)
      ensures old(Held(chain)) && Apart(nCachedBlockHeight) ==> Held(chain)
    {
      hide Statements, MaturedIn;
      if nCachedBlockHeight > nLastScanHeight && nLastScanHeight > 0 {
        var _ := ScanOn(chain, nCachedBlockHeight);
      }
    }

    /** The check run every few minutes: the list is brought up to the tip, and the statements of a tier laid out
        again when fewer than 55 blocks of them are left. The first check only scans. */
    method CheckAndRemove(chain: Nodes)
      requires params.nBeginHeight >= 1 && nCachedBlockHeight >= 0
      modifies this`mapInfinitynodes, this`mapInfinitynodesNonMatured, this`nLastScanHeight, this`scanned
      modifies this`mapStatement, this`lastStatement, this`laid
      ensures old(FirstCheck()) ==>
                && Scanned(chain, nCachedBlockHeight)
                && mapStatement == old(mapStatement) && lastStatement == old(lastStatement) && laid == old(laid)
      ensures !old(FirstCheck()) ==>
                && (forall t :: t in TIERS && old(Due(t)) ==>
                      t in mapStatement && t in laid && laid[t] == (scanned, nCachedBlockHeight))
                && (forall t :: t in old(laid) && !(t in TIERS && old(Due(t))) ==> t in laid && laid[t] == old(laid)[t])
      ensures old(Held(chain)) && Apart(nCachedBlockHeight) ==> Held(chain)
    {
      if nLastScanHeight == 0 && nCachedBlockHeight > params.nBeginHeight {
        hide Statements, MaturedIn, FreshIn;
        ScanWhole(chain, nCachedBlockHeight);
        return;
      }
      hide Held;
      BringUpToTip(chain);
      LayAllDue(chain);
    }

    method UpdatedBlockTip(nHeight: int)
      modifies this`nCachedBlockHeight
      ensures nCachedBlockHeight == nHeight
    {
      nCachedBlockHeight := nHeight;
    }

    /** Scans happen at heights more than 55 blocks past the begin height, and checks there or before it. */
    predicate Legal(event: Event, tip: nat) {
      match event
      case Check => Apart(tip)
      case Update(h) => Far(h)
      case _ => true
    }

    method Happens(event: Event, chain: Nodes)
      requires Held(chain) && nCachedBlockHeight >= 0 && Legal(event, nCachedBlockHeight)
      modifies this
      ensures Held(chain) && nCachedBlockHeight == if event.NewTip? then event.h else old(nCachedBlockHeight)
    {
      hide Statements, MaturedIn, FreshIn;
      match event
      case NewTip(h) => UpdatedBlockTip(h);
      case Check => CheckAndRemove(chain);
      case Update(h) => var _, _ := UpdateInfinitynodeList(chain, h);
      case Build => BuildStatements(chain);
    }

    /** A node from its start: tips come and go, checks are run, the list is updated at any height, be it ahead of the
        tip or behind, and statements are laid out on request, in any order. Whenever a reward is looked up, the list is
        that of a full scan at the highest height scanned, and the statements are layouts of the chain's own burns. */
    method RunEvents(events: seq<Event>, chain: Nodes)
      requires params.nBeginHeight >= 1 && params.nGenesisStatement > 0 && Keyed(chain)
      requires mapInfinitynodes == map[] && nLastScanHeight == 0 && nCachedBlockHeight == 0 && mapStatement == map[]
      requires scanned == params.nBeginHeight
      requires forall i :: 0 <= i < |events| ==> Legal(events[i], TipAfter(events, i))
      modifies this
      ensures Held(chain) && nCachedBlockHeight == TipAfter(events, |events|)
    {
      NothingMatured(chain, params.nBeginHeight);
      for i := 0 to |events|
        invariant Held(chain) && nCachedBlockHeight == TipAfter(events, i)
      {
        Happens(events[i], chain);
      }
    }
  }

  /** The tip after the first i events. */
  function TipAfter(events: seq<Event>, i: nat): nat
    requires i <= |events|
  {
    if i == 0 then 0 else if events[i - 1].NewTip? then events[i - 1].h else TipAfter(events, i - 1)
  }

  lemma MaturedIs(chain: Nodes, begin: int, tip: int)
    ensures MaturedIn(chain, begin, tip) == Between(chain, begin, tip - INF_MATURED_LIMIT)
  {}

  /** What happens to the manager. */
  datatype Event = NewTip(h: nat) | Check | Update(h: nat) | Build
}
