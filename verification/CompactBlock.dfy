/** Compact blocks: a block rebuilt from short ids, prefilled transactions, a pool and what is still missing. */
module CompactBlock {

  type Tx = nat
  type ShortId = nat

  const MAX_INDEX: int := 65535
  const MAX_COUNT: int := 64000000 / 40

  datatype Slot = Empty | Full(tx: Tx)

  /** A transaction sent along, with its distance from the one before. */
  datatype Prefilled = Prefilled(index: nat, tx: Slot)

  datatype Message = Message(nullHeader: bool, shortids: seq<ShortId>, prefilled: seq<Prefilled>) {
    function Count(): nat { |shortids| + |prefilled| }
  }

  datatype Status = Ok | Invalid | Failed | CheckFailed

  // ---- the empty slots of a list

  /** The positions of the empty slots, in order. */
  ghost function Empties(a: seq<Slot>): seq<nat> {
    if a == [] then []
    else
      var n := |a| - 1;
      Empties(a[..n]) + if a[n].Empty? then [n] else []
  }

  lemma {:induction false} EmptiesAre(a: seq<Slot>)
    ensures forall k :: 0 <= k < |Empties(a)| ==> Empties(a)[k] < |a| && a[Empties(a)[k]].Empty?
    ensures forall j, k :: 0 <= j < k < |Empties(a)| ==> Empties(a)[j] < Empties(a)[k]
  {
    if a != [] { EmptiesAre(a[..|a| - 1]); }
  }

  lemma EmptiesAt(a: seq<Slot>, k: nat)
    requires k < |Empties(a)|
    ensures Empties(a)[k] < |a| && a[Empties(a)[k]].Empty? && (k > 0 ==> Empties(a)[k - 1] < Empties(a)[k])
  {
    EmptiesAre(a);
  }

  lemma {:induction false} EmptiesAll(a: seq<Slot>, p: nat)
    requires p < |a| && a[p].Empty?
    ensures p in Empties(a)
  {
    var n := |a| - 1;
    if p < n { EmptiesAll(a[..n], p); }
  }

  lemma {:induction false} EmptiesFilled(a: seq<Slot>, p: nat, t: Tx)
    requires p < |a| && a[p].Empty?
    ensures |Empties(a[p := Full(t)])| == |Empties(a)| - 1
  {
    var n := |a| - 1;
    if p == n {
      assert a[p := Full(t)][..n] == a[..n];
    } else {
      assert a[p := Full(t)][..n] == a[..n][p := Full(t)];
      EmptiesFilled(a[..n], p, t);
    }
  }

  lemma {:induction false} EmptiesEmptied(a: seq<Slot>, p: nat)
    requires p < |a| && a[p].Full?
    ensures |Empties(a[p := Empty])| == |Empties(a)| + 1
  {
    EmptiesFilled(a[p := Empty], p, a[p].tx);
    assert a[p := Empty][p := Full(a[p].tx)] == a;
  }

  lemma {:induction false} AllEmpty(a: seq<Slot>)
    requires forall p :: 0 <= p < |a| ==> a[p].Empty?
    ensures |Empties(a)| == |a|
  {
    if a != [] { AllEmpty(a[..|a| - 1]); }
  }

  /** Between two neighbours among the empty slots there is no other. */
  lemma NextEmpty(a: seq<Slot>, k: nat, p: nat)
    requires k < |Empties(a)| && p < |a| && a[p].Empty? && p <= Empties(a)[k]
    requires k > 0 ==> Empties(a)[k - 1] < p
    ensures p == Empties(a)[k]
  {
    hide Empties;
    EmptiesAre(a);
    EmptiesAll(a, p);
    var j :| 0 <= j < |Empties(a)| && Empties(a)[j] == p;
  }

  // ---- prefilled transactions

  /** The position of the i-th prefilled transaction. */
  function Pos(pre: seq<Prefilled>, i: int): (p: int)
    requires i < |pre|
    ensures p >= -1 && (i >= 0 ==> p >= 0)
    decreases i
  {
    if i < 0 then -1 else Pos(pre, i - 1) + pre[i].index + 1
  }

  predicate Fits(m: Message, i: nat)
    requires i < |m.prefilled|
  {
    m.prefilled[i].tx.Full? && Pos(m.prefilled, i) <= MAX_INDEX && Pos(m.prefilled, i) <= |m.shortids| + i
  }

  ghost predicate AllFit(m: Message) { forall i :: 0 <= i < |m.prefilled| ==> Fits(m, i) }

  /** The list after the first n prefilled transactions are in their places. */
  ghost function Laid(m: Message, n: nat): (a: seq<Slot>)
    requires n <= |m.prefilled| && forall i :: 0 <= i < n ==> Fits(m, i)
    ensures |a| == m.Count()
  {
    if n == 0 then seq(m.Count(), _ => Empty)
    else
      assert Fits(m, n - 1);
      Laid(m, n - 1)[Pos(m.prefilled, n - 1) := m.prefilled[n - 1].tx]
  }

  lemma {:induction false} LaidIs(m: Message, n: nat)
    requires n <= |m.prefilled| && forall i :: 0 <= i < n ==> Fits(m, i)
    ensures forall p :: 0 <= p < m.Count() && p > Pos(m.prefilled, n - 1) ==> Laid(m, n)[p].Empty?
    ensures |Empties(Laid(m, n))| == m.Count() - n
  {
    hide Empties;
    if n == 0 {
      AllEmpty(Laid(m, 0));
    } else {
      LaidIs(m, n - 1);
      assert Fits(m, n - 1);
      var p := Pos(m.prefilled, n - 1);
      EmptiesFilled(Laid(m, n - 1), p, m.prefilled[n - 1].tx.tx);
    }
  }

  // ---- a pool of transactions matched by short id

  /** The hash functions as the message's keys fix them. */
  datatype Ids = Ids(shortId: Tx -> ShortId, witnessHash: Tx -> nat)

  ghost predicate Distinct(ids: seq<ShortId>) {
    forall i, j :: 0 <= i < j < |ids| ==> ids[i] != ids[j]
  }

  /** The k-th short id stands for the k-th slot that is not prefilled. */
  ghost predicate Maps(slots: map<ShortId, nat>, ids: seq<ShortId>, laid: seq<Slot>) {
    && |slots| == |ids| == |Empties(laid)|
    && (forall k :: 0 <= k < |ids| ==> ids[k] in slots && slots[ids[k]] == Empties(laid)[k])
    && (forall s :: s in slots ==> s in ids)
  }

  /** Prefilled slots stay, other slots hold nothing or a transaction of their short id, and the count is exact. */
  ghost predicate Matched(u: Ids, laid: seq<Slot>, slots: map<ShortId, nat>, a: seq<Slot>, have: seq<bool>,
                          count: nat) {
    && |a| == |laid| == |have|
    && (forall p :: 0 <= p < |a| && laid[p].Full? ==> a[p] == laid[p])
    && (forall p :: 0 <= p < |a| && laid[p].Empty? && a[p].Full? ==>
          have[p] && u.shortId(a[p].tx) in slots && slots[u.shortId(a[p].tx)] == p)
    && count == |Empties(laid)| - |Empties(a)|
  }

  lemma SlotIsFree(slots: map<ShortId, nat>, ids: seq<ShortId>, laid: seq<Slot>, s: ShortId)
    requires Maps(slots, ids, laid) && s in slots
    ensures slots[s] < |laid| && laid[slots[s]].Empty?
  {
    hide Empties;
    EmptiesAre(laid);
    var k :| 0 <= k < |ids| && ids[k] == s;
  }

  lemma TakeFromPool(u: Ids, laid: seq<Slot>, slots: map<ShortId, nat>, a: seq<Slot>, have: seq<bool>, count: nat,
                     t: Tx, p: nat)
    requires Matched(u, laid, slots, a, have, count) && u.shortId(t) in slots && p == slots[u.shortId(t)]
    requires p < |laid| && laid[p].Empty? && !have[p]
    ensures Matched(u, laid, slots, a[p := Full(t)], have[p := true], count + 1)
  {
    hide Empties;
    EmptiesFilled(a, p, t);
  }

  lemma TakeBack(u: Ids, laid: seq<Slot>, slots: map<ShortId, nat>, a: seq<Slot>, have: seq<bool>, count: nat, p: nat)
    requires Matched(u, laid, slots, a, have, count) && p < |laid| && laid[p].Empty? && a[p].Full?
    ensures count > 0 && Matched(u, laid, slots, a[p := Empty], have, count - 1)
  {
    hide Empties;
    EmptiesEmptied(a, p);
    MoreEmpty(laid, a[p := Empty]);
  }

  /** Slots only ever filled leave no more empty ones than there were. */
  lemma {:induction false} MoreEmpty(laid: seq<Slot>, a: seq<Slot>)
    requires |laid| == |a| && forall p :: 0 <= p < |a| && laid[p].Full? ==> a[p].Full?
    ensures |Empties(a)| <= |Empties(laid)|
  {
    if a != [] { MoreEmpty(laid[..|a| - 1], a[..|a| - 1]); }
  }

  // ---- what a scan of a pool leaves in a slot

  /** A slot and whether a transaction has been met for it. */
  datatype Place = Place(slot: Slot, met: bool)

  /** What one transaction of its short id does to a slot: the first is taken, a second one empties the slot for good;
      in the second pool only if its witness hash is a different one. */
  function Meet(u: Ids, second: bool, x: Place, t: Tx): Place {
    if !x.met then Place(Full(t), true)
    else if x.slot.Full? && (!second || u.witnessHash(x.slot.tx) != u.witnessHash(t)) then Place(Empty, true)
    else x
  }

  /** What the slot of a short id holds after a scan of these transactions. */
  ghost function Settled(u: Ids, second: bool, pool: seq<Tx>, s: ShortId, x: Place): Place {
    if pool == [] then x
    else
      var n := |pool| - 1;
      var y := Settled(u, second, pool[..n], s, x);
      if u.shortId(pool[n]) == s then Meet(u, second, y, pool[n]) else y
  }

  ghost function Hits(u: Ids, pool: seq<Tx>, s: ShortId): seq<Tx> {
    if pool == [] then []
    else
      var n := |pool| - 1;
      Hits(u, pool[..n], s) + if u.shortId(pool[n]) == s then [pool[n]] else []
  }

  /** After the first pool a slot is full if and only if exactly one transaction of its short id was scanned. */
  lemma {:induction false} TakenFromFirstPool(u: Ids, pool: seq<Tx>, s: ShortId)
    ensures var hits := Hits(u, pool, s);
            Settled(u, false, pool, s, Place(Empty, false)) ==
              Place(if |hits| == 1 then Full(hits[0]) else Empty, hits != [])
  {
    if pool != [] { TakenFromFirstPool(u, pool[..|pool| - 1], s); }
  }

  ghost predicate SameWitness(u: Ids, hits: seq<Tx>, t: Tx) {
    forall i :: 0 <= i < |hits| ==> u.witnessHash(hits[i]) == u.witnessHash(t)
  }

  /** The second pool fills a slot no transaction was met for, and empties one when any transaction of its short id has
      another witness hash than the one it holds. */
  lemma {:induction false} TakenFromSecondPool(u: Ids, pool: seq<Tx>, s: ShortId, x: Place)
    ensures var hits := Hits(u, pool, s);
            Settled(u, true, pool, s, x) ==
              if hits == [] then x
              else if !x.met then Place(if SameWitness(u, hits, hits[0]) then Full(hits[0]) else Empty, true)
              else if x.slot.Full? && !SameWitness(u, hits, x.slot.tx) then Place(Empty, true)
              else x
  {
    if pool != [] {
      var n := |pool| - 1;
      TakenFromSecondPool(u, pool[..n], s, x);
      var was, now := Hits(u, pool[..n], s), Hits(u, pool, s);
      if now != was {
        assert now == was + [pool[n]];
        assert forall i :: 0 <= i < |was| ==> now[i] == was[i];
        assert now[|was|] == pool[n];
      }
    }
  }

  type Places = map<ShortId, Place>

  ghost function PlacesOf(slots: map<ShortId, nat>, a: seq<Slot>, have: seq<bool>): Places
    requires |a| == |have| && forall s :: s in slots ==> slots[s] < |a|
  {
    map s | s in slots :: Place(a[slots[s]], have[slots[s]])
  }

  /** Before any scan no slot has met a transaction. */
  ghost function Untouched(ids: seq<ShortId>): Places {
    map s | s in ids :: Place(Empty, false)
  }

  /** What a scan of these transactions leaves in the slots. */
  ghost function Scanned(u: Ids, second: bool, pool: seq<Tx>, start: Places): Places {
    map s | s in start :: Settled(u, second, pool, s, start[s])
  }

  ghost predicate Complete(places: Places) {
    forall s :: s in places ==> places[s].slot.Full?
  }

  /** A scan ends with the transaction that leaves no slot empty, or with the pool. */
  ghost predicate Ends(u: Ids, second: bool, pool: seq<Tx>, start: Places, n: nat) {
    && n <= |pool| && (n < |pool| ==> n > 0 && Complete(Scanned(u, second, pool[..n], start)))
    && forall k :: 0 < k < n ==> !Complete(Scanned(u, second, pool[..k], start))
  }

  lemma NothingScanned(u: Ids, second: bool, pool: seq<Tx>, start: Places)
    ensures Scanned(u, second, pool[..0], start) == start
  {}

  lemma SlotsApart(slots: map<ShortId, nat>, ids: seq<ShortId>, laid: seq<Slot>, s: ShortId, r: ShortId)
    requires Maps(slots, ids, laid) && s in slots && r in slots && s != r
    ensures slots[s] != slots[r]
  {
    hide Empties;
    EmptiesAre(laid);
    var j :| 0 <= j < |ids| && ids[j] == s;
    var k :| 0 <= k < |ids| && ids[k] == r;
    if j < k { assert Empties(laid)[j] < Empties(laid)[k]; } else { assert Empties(laid)[k] < Empties(laid)[j]; }
  }

  lemma SettledNext(u: Ids, second: bool, pool: seq<Tx>, i: nat, s: ShortId, x: Place)
    requires i < |pool|
    ensures var y := Settled(u, second, pool[..i], s, x);
            Settled(u, second, pool[..i + 1], s, x) ==
              if u.shortId(pool[i]) == s then Meet(u, second, y, pool[i]) else y
  {
    assert pool[..i + 1][..i] == pool[..i];
  }

  /** A transaction changes the slot of its short id, if there is one, and no other. */
  lemma ScannedNext(u: Ids, second: bool, pool: seq<Tx>, i: nat, start: Places)
    requires i < |pool|
    ensures var was, r := Scanned(u, second, pool[..i], start), u.shortId(pool[i]);
            Scanned(u, second, pool[..i + 1], start) ==
              if r in was then was[r := Meet(u, second, was[r], pool[i])] else was
  {
    hide Settled, Meet;
    forall s | s in start { SettledNext(u, second, pool, i, s, start[s]); }
  }

  lemma PlacesChanged(slots: map<ShortId, nat>, ids: seq<ShortId>, laid: seq<Slot>, a: seq<Slot>, have: seq<bool>,
                      r: ShortId, y: Place)
    requires |a| == |have| && (forall s :: s in slots ==> slots[s] < |a|) && Maps(slots, ids, laid) && r in slots
    ensures PlacesOf(slots, a[slots[r] := y.slot], have[slots[r] := y.met]) == PlacesOf(slots, a, have)[r := y]
  {
    hide Maps;
    forall s | s in slots && s != r ensures slots[s] != slots[r] { SlotsApart(slots, ids, laid, s, r); }
  }

  /** Counting to the number of short ids is finding no slot empty. */
  lemma CountedIsComplete(u: Ids, slots: map<ShortId, nat>, ids: seq<ShortId>, laid: seq<Slot>,
                          a: seq<Slot>, have: seq<bool>, count: nat)
    requires |a| == |have| && forall s :: s in slots ==> slots[s] < |a|
    requires Maps(slots, ids, laid) && Matched(u, laid, slots, a, have, count)
    ensures count == |slots| <==> Complete(PlacesOf(slots, a, have))
  {
    hide Empties;
    if count == |slots| {
      forall s | s in slots ensures a[slots[s]].Full? {
        if a[slots[s]].Empty? { EmptiesAll(a, slots[s]); }
      }
    } else {
      assert Empties(a) != [];
      EmptiesAt(a, 0);
      var p := Empties(a)[0];
      assert laid[p].Empty?;
      EmptiesAll(laid, p);
      var j :| 0 <= j < |ids| && Empties(laid)[j] == p;
      assert PlacesOf(slots, a, have)[ids[j]].slot.Empty?;
    }
  }

  lemma SlotsAreFree(slots: map<ShortId, nat>, ids: seq<ShortId>, laid: seq<Slot>)
    requires Maps(slots, ids, laid)
    ensures forall s :: s in slots ==> slots[s] < |laid| && laid[slots[s]].Empty?
  {
    hide Maps;
    forall s | s in slots ensures slots[s] < |laid| && laid[slots[s]].Empty? { SlotIsFree(slots, ids, laid, s); }
  }

  // ---- filling the block

  /** The block from the slots and the missing transactions in order. */
  ghost function Filled(a: seq<Slot>, missing: seq<Tx>): seq<Tx>
    requires |missing| == |Empties(a)|
  {
    if a == [] then []
    else
      var n := |a| - 1;
      if a[n].Full? then Filled(a[..n], missing) + [a[n].tx]
      else Filled(a[..n], missing[..|missing| - 1]) + [missing[|missing| - 1]]
  }

  /** What the block has at the empty slots. */
  ghost function Missing(a: seq<Slot>, block: seq<Tx>): (r: seq<Tx>)
    requires |a| == |block|
    ensures |r| == |Empties(a)|
  {
    if a == [] then []
    else
      var n := |a| - 1;
      Missing(a[..n], block[..n]) + if a[n].Empty? then [block[n]] else []
  }

  ghost predicate Right(a: seq<Slot>, block: seq<Tx>) {
    |a| == |block| && forall p :: 0 <= p < |a| && a[p].Full? ==> a[p].tx == block[p]
  }

  lemma MissingLast(a: seq<Slot>, block: seq<Tx>)
    requires |a| == |block| > 0
    ensures var n := |a| - 1;
            Missing(a, block) == Missing(a[..n], block[..n]) + if a[n].Empty? then [block[n]] else []
  {}

  lemma FilledLast(a: seq<Slot>, missing: seq<Tx>, last: seq<Tx>)
    requires a != [] && |missing| == |Empties(a[..|a| - 1])| && |last| == if a[|a| - 1].Empty? then 1 else 0
    ensures |missing + last| == |Empties(a)|
    ensures Filled(a, missing + last) ==
              Filled(a[..|a| - 1], missing) + [if a[|a| - 1].Empty? then last[0] else a[|a| - 1].tx]
  {
    if a[|a| - 1].Empty? { assert (missing + last)[..|missing|] == missing; } else { assert missing + last == missing; }
  }

  /** With the right transactions in the slots and the missing ones in order, the block comes out exactly. */
  lemma {:induction false} FilledIsBlock(a: seq<Slot>, block: seq<Tx>)
    requires Right(a, block)
    ensures Filled(a, Missing(a, block)) == block
  {
    if a != [] {
      var n := |a| - 1;
      FilledIsBlock(a[..n], block[..n]);
      hide Filled, Missing, Empties;
      MissingLast(a, block);
      FilledLast(a, Missing(a[..n], block[..n]), if a[n].Empty? then [block[n]] else []);
      assert block == block[..n] + [block[n]];
    }
  }

  /** The message really describes the block. */
  ghost predicate Describes(u: Ids, m: Message, block: seq<Tx>) {
    && m.Count() == |block| && AllFit(m) && Right(Laid(m, |m.prefilled|), block)
    && var e := Empties(Laid(m, |m.prefilled|));
       |e| == |m.shortids| && forall k :: 0 <= k < |e| ==>
           0 <= e[k] < |block| && m.shortids[k] == u.shortId(block[e[k]])
  }

  /** The transaction shares its short id with no other one of the block. */
  ghost predicate Unmistakable(u: Ids, block: seq<Tx>, t: Tx) {
    forall q :: 0 <= q < |block| && u.shortId(t) == u.shortId(block[q]) ==> t == block[q]
  }

  /** When no transaction at hand shares a short id with a different one of the block, every slot the pools
      filled holds the right transaction. */
  lemma MatchedIsRight(u: Ids, m: Message, block: seq<Tx>, slots: map<ShortId, nat>, a: seq<Slot>, have: seq<bool>,
                       count: nat)
    requires Describes(u, m, block)
    requires Maps(slots, m.shortids, Laid(m, |m.prefilled|)) &&
              Matched(u, Laid(m, |m.prefilled|), slots, a, have, count)
    requires forall p :: 0 <= p < |a| && Laid(m, |m.prefilled|)[p].Empty? && a[p].Full? ==>
              Unmistakable(u, block, a[p].tx)
    ensures Right(a, block)
  {
    hide Empties, Laid;
    var laid := Laid(m, |m.prefilled|);
    forall p | 0 <= p < |a| && a[p].Full? ensures a[p].tx == block[p] {
      if laid[p].Empty? {
        EmptiesAll(laid, p);
        var k :| 0 <= k < |Empties(laid)| && Empties(laid)[k] == p;
        var s := u.shortId(a[p].tx);
        var j :| 0 <= j < |m.shortids| && m.shortids[j] == s;
        EmptiesAre(laid);
        assert slots[m.shortids[j]] == Empties(laid)[j];
      }
    }
  }

  // ---- the object

  class PartiallyDownloadedBlock {
    var txn_available: seq<Slot>
    var nullHeader: bool
    var prefilled_count: nat
    var mempool_count: nat

    constructor ()
      ensures txn_available == [] && nullHeader && mempool_count == 0
    {
      txn_available, nullHeader, prefilled_count, mempool_count := [], true, 0, 0;
    }

    /** Puts the prefilled transactions in their places; no index ever leaves the list. */
    method LayPrefilled(m: Message) returns (ok: bool)
      requires txn_available == seq(m.Count(), _ => Empty)
      modifies this`txn_available
      ensures ok <==> AllFit(m)
      ensures ok ==> txn_available == Laid(m, |m.prefilled|)
    {
      var last := -1;
      for i := 0 to |m.prefilled|
        invariant last == Pos(m.prefilled, i - 1)
        invariant forall j :: 0 <= j < i ==> Fits(m, j)
        invariant txn_available == Laid(m, i)
      {
        var pre := m.prefilled[i];
        if pre.tx.Empty? { assert !Fits(m, i); return false; }
        last := last + pre.index + 1;
        if last > MAX_INDEX { assert !Fits(m, i); return false; }
        if last > |m.shortids| + i { assert !Fits(m, i); return false; }
        assert Fits(m, i);
        txn_available := txn_available[last := pre.tx];
      }
      return true;
    }

    /** The next slot that is not prefilled. */
    method NextFree(i: nat, from: nat) returns (p: nat)
      requires i < |Empties(txn_available)| && from <= Empties(txn_available)[i]
      requires i > 0 ==> Empties(txn_available)[i - 1] < from
      ensures p == Empties(txn_available)[i] && p >= from
    {
      hide Empties;
      ghost var a := txn_available;
      EmptiesAt(a, i);
      p := from;
      while txn_available[p].Full?
        invariant from <= p <= Empties(a)[i]
        decreases Empties(a)[i] - p
      {
        p := p + 1;
      }
      NextEmpty(a, i, p);
    }

    /** Gives every short id its slot. A bucket of the hash table may turn out too full at any of the ids. */
    method MapShortIds(ids: seq<ShortId>, crowded: set<nat>) returns (status: Status, slots: map<ShortId, nat>)
      requires |Empties(txn_available)| == |ids|
      ensures status == Ok || status == Failed
      ensures status == Ok ==> Distinct(ids) && Maps(slots, ids, txn_available)
      ensures Distinct(ids) && crowded == {} ==> status == Ok
    {
      hide Empties, Numbered, Distinct, Maps;
      ghost var a := txn_available;
      slots := map[];
      NumberedNone(ids, Empties(a));
      var index_offset := 0;
      for i := 0 to |ids|
        invariant index_offset >= 0 && (i > 0 ==> Empties(a)[i - 1] + 1 == i + index_offset)
        invariant i == 0 ==> index_offset == 0
        invariant Numbered(slots, ids[..i], Empties(a))
      {
        EmptiesAt(a, i);
        var p := NextFree(i, i + index_offset);
        index_offset := p - i;
        NumberedNext(slots, ids, i, Empties(a));
        slots := slots[ids[i] := i + index_offset];
        if i in crowded { return Failed, slots; }
      }
      assert ids[..|ids|] == ids;
      NumberedAll(slots, ids, a);
      status := if |slots| != |ids| then Failed else Ok;
    }

    /** Takes matching transactions of a pool into their slots, up to the one that leaves no slot empty. */
    method ScanPool(u: Ids, pool: seq<Tx>, second: bool, slots: map<ShortId, nat>, have0: seq<bool>,
                    ghost ids: seq<ShortId>, ghost laid: seq<Slot>) returns (have: seq<bool>, ghost n: nat)
      requires Maps(slots, ids, laid) && Matched(u, laid, slots, txn_available, have0, mempool_count)
      requires |txn_available| == |have0| && forall s :: s in slots ==> slots[s] < |txn_available|
      modifies this`txn_available, this`mempool_count
      ensures Matched(u, laid, slots, txn_available, have, mempool_count)
      ensures |old(txn_available)| == |txn_available| == |have|
      ensures Ends(u, second, pool, PlacesOf(slots, old(txn_available), have0), n)
      ensures PlacesOf(slots, txn_available, have) ==
                Scanned(u, second, pool[..n], PlacesOf(slots, old(txn_available), have0))
    {
      hide Matched, Maps, Complete, Scanned, PlacesOf;
      have, n := have0, 0;
      ghost var start := PlacesOf(slots, txn_available, have0);
      NothingScanned(u, second, pool, start);
      for i := 0 to |pool|
        invariant Matched(u, laid, slots, txn_available, have, mempool_count) && n == i
        invariant |txn_available| == |have| == |have0|
        invariant PlacesOf(slots, txn_available, have) == Scanned(u, second, pool[..i], start)
        invariant forall k :: 0 < k <= i ==> !Complete(Scanned(u, second, pool[..k], start))
      {
        have := MeetOne(u, pool[i], second, slots, have, ids, laid);
        n := i + 1;
        ScannedNext(u, second, pool, i, start);
        CountedIsComplete(u, slots, ids, laid, txn_available, have, mempool_count);
        if mempool_count == |slots| { return; }
      }
    }

    /** One transaction of a pool. */
    method MeetOne(u: Ids, t: Tx, second: bool, slots: map<ShortId, nat>, had: seq<bool>,
                   ghost ids: seq<ShortId>, ghost laid: seq<Slot>) returns (have: seq<bool>)
      requires Maps(slots, ids, laid) && Matched(u, laid, slots, txn_available, had, mempool_count)
      requires |txn_available| == |had| && forall s :: s in slots ==> slots[s] < |txn_available|
      modifies this`txn_available, this`mempool_count
      ensures |txn_available| == |have| == |had|
      ensures Matched(u, laid, slots, txn_available, have, mempool_count)
      ensures var was, r := old(PlacesOf(slots, txn_available, had)), u.shortId(t);
              PlacesOf(slots, txn_available, have) == if r in was then was[r := Meet(u, second, was[r], t)] else was
    {
      hide Matched, Maps, PlacesOf;
      have := had;
      PlacesAre(slots, txn_available, have);
      if u.shortId(t) !in slots { return; }
      var p := slots[u.shortId(t)];
      SlotIsFree(slots, ids, laid, u.shortId(t));
      SameShape(u, laid, slots, txn_available, have, mempool_count);
      PlacesChanged(slots, ids, laid, txn_available, have, u.shortId(t),
                    Meet(u, second, Place(txn_available[p], have[p]), t));
      if !have[p] {
        TakeFromPool(u, laid, slots, txn_available, have, mempool_count, t, p);
        txn_available := txn_available[p := Full(t)];
        have := have[p := true];
        mempool_count := mempool_count + 1;
      } else if txn_available[p].Full? && (!second || u.witnessHash(txn_available[p].tx) != u.witnessHash(t)) {
        TakeBack(u, laid, slots, txn_available, have, mempool_count, p);
        txn_available := txn_available[p := Empty];
        mempool_count := mempool_count - 1;
        assert have[p := true] == have;
      } else {
        assert have[p := true] == have && txn_available[p := txn_available[p]] == txn_available;
      }
    }

    /** Reads a message and takes what the pools have. When it succeeds, the prefilled transactions stand where the
        message put them, every other slot holds what a scan of the first pool and then of the second leaves in it, and
        the count of those that are full is exact. */
    method InitData(m: Message, u: Ids, pool: seq<Tx>, extra: seq<Tx>, crowded: set<nat>)
      returns (status: Status, ghost slots: map<ShortId, nat>, ghost have: seq<bool>, ghost n: nat, ghost k: nat)
      requires nullHeader && txn_available == [] && mempool_count == 0 && m.Count() <= MAX_INDEX
      modifies this
      ensures status == Invalid <==> m.nullHeader || m.Count() == 0 || !AllFit(m)
      ensures Distinct(m.shortids) && crowded == {} ==> status != Failed
      ensures status == Ok || status == Invalid || status == Failed
      ensures status == Ok ==> Distinct(m.shortids) && Maps(slots, m.shortids, Laid(m, |m.prefilled|)) && !nullHeader
      ensures status == Ok ==> Matched(u, Laid(m, |m.prefilled|), slots, txn_available, have, mempool_count)
      ensures status == Ok ==> |txn_available| == |have| && forall s :: s in slots ==> slots[s] < |have|
      ensures status == Ok ==> PoolsScanned(u, m.shortids, pool, extra, n, k, PlacesOf(slots, txn_available, have))
    {
      slots, have, n, k := map[], [], 0, 0;
      if m.nullHeader || (m.shortids == [] && m.prefilled == []) { return Invalid, slots, have, n, k; }
      if m.Count() > MAX_COUNT { return Invalid, slots, have, n, k; }
      nullHeader := m.nullHeader;
      txn_available := seq(m.Count(), _ => Empty);
      var ok := LayPrefilled(m);
      if !ok { return Invalid, slots, have, n, k; }
      prefilled_count := |m.prefilled|;
      LaidIs(m, |m.prefilled|);
      status, slots, have, n, k := TakeFromPools(m.shortids, u, pool, extra, crowded);
    }

    /** The second half of the start: short ids to slots, then the two pools. */
    method TakeFromPools(ids: seq<ShortId>, u: Ids, pool: seq<Tx>, extra: seq<Tx>, crowded: set<nat>)
      returns (status: Status, ghost slots: map<ShortId, nat>, ghost have: seq<bool>, ghost n: nat, ghost k: nat)
      requires mempool_count == 0 && |Empties(txn_available)| == |ids|
      modifies this`txn_available, this`mempool_count
      ensures status == Ok || status == Failed
      ensures Distinct(ids) && crowded == {} ==> status == Ok
      ensures status == Ok ==> Distinct(ids) && Maps(slots, ids, old(txn_available))
      ensures status == Ok ==> Matched(u, old(txn_available), slots, txn_available, have, mempool_count)
      ensures status == Ok ==> |txn_available| == |have| && forall s :: s in slots ==> slots[s] < |have|
      ensures status == Ok ==> PoolsScanned(u, ids, pool, extra, n, k, PlacesOf(slots, txn_available, have))
    {
      hide Matched, Maps, Empties, Distinct, PlacesOf, Scanned, Ends, Complete;
      slots, have, n, k := map[], [], 0, 0;
      ghost var laid := txn_available;
      var s;
      status, s := MapShortIds(ids, crowded);
      slots := s;
      if status == Failed { return; }
      var h := seq(|txn_available|, _ => false);
      NothingTaken(u, laid, s, h);
      SlotsAreFree(s, ids, laid);
      NothingMet(s, ids, laid, h);
      var h1, h2;
      h1, n := ScanPool(u, pool, false, s, h, ids, laid);
      h2, k := ScanPool(u, extra, true, s, h1, ids, laid);
      have := h2;
    }

    method IsTxAvailable(index: nat) returns (yes: bool)
      requires !nullHeader && index < |txn_available|
      ensures yes <==> txn_available[index].Full?
    {
      yes := txn_available[index].Full?;
    }

    /** Builds the block and gives up the slots. A wrong number of missing transactions is an error; the
        verdict of the block checks is passed on otherwise. */
    method FillBlock(missing: seq<Tx>, checked: bool, corruptionPossible: bool) returns (status: Status, vtx: seq<Tx>)
      requires !nullHeader
      modifies this
      ensures |missing| != |old(Empties(txn_available))| ==> status == Invalid
      ensures |missing| == |old(Empties(txn_available))| ==>
                && vtx == old(Filled(txn_available, missing)) && nullHeader && txn_available == []
                && status == if checked then Ok else if corruptionPossible then Failed else CheckFailed
    {
      hide Filled, Empties;
      ghost var a := txn_available;
      var offset := 0;
      vtx := [];
      FillStart(a, missing);
      for i := 0 to |txn_available|
        invariant |txn_available| == |a| && forall j :: i <= j < |a| ==> txn_available[j] == a[j]
        invariant 0 <= offset <= |missing| && offset == |Empties(a[..i])| && vtx == Filled(a[..i], missing[..offset])
      {
        FillNext(a, i, missing, offset);
        if txn_available[i].Empty? {
          if |missing| <= offset {
            EmptiesPrefix(a, i + 1);
            return Invalid, vtx;
          }
          vtx := vtx + [missing[offset]];
          offset := offset + 1;
        } else {
          vtx := vtx + [txn_available[i].tx];
          txn_available := txn_available[i := Empty];   // moved from
        }
      }
      assert a[..|a|] == a;
      nullHeader := true;
      txn_available := [];
      if |missing| != offset { return Invalid, vtx; }
      assert missing[..offset] == missing;
      status := if checked then Ok else if corruptionPossible then Failed else CheckFailed;
    }
  }

  // ---- a block sent and rebuilt

  /** The message for a block: its first transaction sent along, short ids for the others. */
  function CompactOf(u: Ids, block: seq<Tx>): Message
    requires block != []
  {
    Message(false, seq<ShortId>(|block| - 1, i requires 0 <= i < |block| - 1 => u.shortId(block[i + 1])),
            [Prefilled(0, Full(block[0]))])
  }

  lemma {:induction false} EmptyTail(a: seq<Slot>)
    requires a != [] && a[0].Full? && forall p :: 1 <= p < |a| ==> a[p].Empty?
    ensures |Empties(a)| == |a| - 1 && forall k :: 0 <= k < |a| - 1 ==> Empties(a)[k] == k + 1
  {
    var n := |a| - 1;
    if n > 0 {
      EmptyTail(a[..n]);
    } else {
      assert a[..0] == [];
    }
  }

  lemma CompactDescribes(u: Ids, block: seq<Tx>)
    requires block != []
    ensures Describes(u, CompactOf(u, block), block)
  {
    hide Empties;
    var m := CompactOf(u, block);
    assert Pos(m.prefilled, 0) == 0;
    assert Fits(m, 0);
    var laid := Laid(m, 1);
    assert laid == Laid(m, 0)[0 := Full(block[0])];
    EmptyTail(laid);
  }

  /** No transaction at hand has the short id of a different one in the block. */
  ghost predicate NoCollision(u: Ids, block: seq<Tx>, pool: seq<Tx>) {
    forall t :: t in pool ==> Unmistakable(u, block, t)
  }

  lemma {:induction false} SettledFrom(u: Ids, second: bool, pool: seq<Tx>, s: ShortId, x: Place)
    ensures var y := Settled(u, second, pool, s, x).slot; y.Full? ==> y == x.slot || y.tx in pool
  {
    if pool != [] { SettledFrom(u, second, pool[..|pool| - 1], s, x); }
  }

  /** What is in a slot after both scans comes from one of the pools. */
  lemma ScannedFrom(u: Ids, ids: seq<ShortId>, pool: seq<Tx>, extra: seq<Tx>, n: nat, k: nat, places: Places,
                    s: ShortId)
    requires PoolsScanned(u, ids, pool, extra, n, k, places) && s in places && places[s].slot.Full?
    ensures places[s].slot.tx in pool || places[s].slot.tx in extra
  {
    hide Settled;
    var mid := Scanned(u, false, pool[..n], Untouched(ids));
    SettledFrom(u, false, pool[..n], s, Place(Empty, false));
    SettledFrom(u, true, extra[..k], s, mid[s]);
  }

  /** The slot of a short id that is not prefilled. */
  lemma SlotOf(slots: map<ShortId, nat>, ids: seq<ShortId>, laid: seq<Slot>, p: nat) returns (s: ShortId)
    requires Maps(slots, ids, laid) && p < |laid| && laid[p].Empty?
    ensures s in slots && slots[s] == p
  {
    hide Empties;
    EmptiesAll(laid, p);
    var k :| 0 <= k < |ids| && Empties(laid)[k] == p;
    s := ids[k];
  }

  /** The receiver's list after a successful start is right, whatever its pools hold. */
  lemma StartIsRight(u: Ids, block: seq<Tx>, pool: seq<Tx>, extra: seq<Tx>, slots: map<ShortId, nat>,
                     a: seq<Slot>, have: seq<bool>, count: nat, n: nat, k: nat)
    requires block != [] && NoCollision(u, block, pool) && NoCollision(u, block, extra)
    requires AllFit(CompactOf(u, block)) && |a| == |have| && forall s :: s in slots ==> slots[s] < |a|
    requires var m := CompactOf(u, block);
             && Maps(slots, m.shortids, Laid(m, 1)) && Matched(u, Laid(m, 1), slots, a, have, count)
             && PoolsScanned(u, m.shortids, pool, extra, n, k, PlacesOf(slots, a, have))
    ensures Right(a, block)
  {
    hide Laid, Empties, Matched, Maps, PoolsScanned;
    var m := CompactOf(u, block);
    var laid := Laid(m, 1);
    CompactDescribes(u, block);
    SameShape(u, laid, slots, a, have, count);
    forall p | 0 <= p < |a| && laid[p].Empty? && a[p].Full? ensures Unmistakable(u, block, a[p].tx) {
      var s := SlotOf(slots, m.shortids, laid, p);
      ScannedFrom(u, m.shortids, pool, extra, n, k, PlacesOf(slots, a, have), s);
    }
    MatchedIsRight(u, m, block, slots, a, have, count);
  }

  /** Every short id of the message is that of exactly one transaction of the pool. */
  ghost predicate HasAll(u: Ids, ids: seq<ShortId>, pool: seq<Tx>) {
    forall s :: s in ids ==> |Hits(u, pool, s)| == 1
  }

  lemma FirstScanCompletes(u: Ids, ids: seq<ShortId>, pool: seq<Tx>, n: nat)
    requires HasAll(u, ids, pool) && Ends(u, false, pool, Untouched(ids), n)
    ensures Complete(Scanned(u, false, pool[..n], Untouched(ids)))
  {
    hide Settled, Hits;
    if n == |pool| {
      assert pool[..n] == pool;
      forall s | s in ids { TakenFromFirstPool(u, pool, s); }
    }
  }

  lemma {:induction false} HitsAre(u: Ids, pool: seq<Tx>, s: ShortId, i: nat)
    requires i < |Hits(u, pool, s)|
    ensures Hits(u, pool, s)[i] in pool && u.shortId(Hits(u, pool, s)[i]) == s
  {
    var n := |pool| - 1;
    if i < |Hits(u, pool[..n], s)| { HitsAre(u, pool[..n], s, i); }
  }

  lemma {:induction false} SettledId(u: Ids, second: bool, pool: seq<Tx>, s: ShortId, x: Place)
    requires x.slot.Full? ==> u.shortId(x.slot.tx) == s
    ensures var y := Settled(u, second, pool, s, x).slot; y.Full? ==> u.shortId(y.tx) == s
  {
    if pool != [] { SettledId(u, second, pool[..|pool| - 1], s, x); }
  }

  /** The second scan empties no slot that holds the transaction of the block. */
  lemma SecondScanKeeps(u: Ids, block: seq<Tx>, extra: seq<Tx>, s: ShortId, x: Place, q: nat)
    requires NoCollision(u, block, extra) && q < |block| && u.shortId(block[q]) == s
    requires x.met && x.slot == Full(block[q])
    ensures Settled(u, true, extra, s, x) == x
  {
    hide Settled, Hits;
    TakenFromSecondPool(u, extra, s, x);
    var hits := Hits(u, extra, s);
    forall i | 0 <= i < |hits| ensures hits[i] == block[q] {
      HitsAre(u, extra, s, i);
      assert Unmistakable(u, block, hits[i]);
    }
  }

  /** When the pool has every transaction of the block, and none of its short ids twice, both scans leave no slot
      empty. */
  lemma BothScansComplete(u: Ids, block: seq<Tx>, ids: seq<ShortId>, pool: seq<Tx>, extra: seq<Tx>,
                          n: nat, k: nat, places: Places)
    requires PoolsScanned(u, ids, pool, extra, n, k, places) && HasAll(u, ids, pool)
    requires NoCollision(u, block, pool) && NoCollision(u, block, extra)
    requires forall s :: s in ids ==> exists q :: 0 <= q < |block| && u.shortId(block[q]) == s
    ensures Complete(places)
  {
    hide Settled, Hits, Meet;
    var mid := Scanned(u, false, pool[..n], Untouched(ids));
    FirstScanCompletes(u, ids, pool, n);
    forall s | s in places ensures places[s].slot.Full? {
      var q :| 0 <= q < |block| && u.shortId(block[q]) == s;
      SettledFrom(u, false, pool[..n], s, Place(Empty, false));
      SettledId(u, false, pool[..n], s, Place(Empty, false));
      TakenFromFirstPool(u, pool[..n], s);
      assert Unmistakable(u, block, mid[s].slot.tx);
      NoCollisionBelow(u, block, extra, k);
      SecondScanKeeps(u, block, extra[..k], s, mid[s], q);
    }
  }

  lemma NoCollisionBelow(u: Ids, block: seq<Tx>, pool: seq<Tx>, k: nat)
    requires k <= |pool| && NoCollision(u, block, pool)
    ensures NoCollision(u, block, pool[..k])
  {}

  /** A list whose slots are all full misses nothing. */
  lemma NothingMissing(u: Ids, slots: map<ShortId, nat>, ids: seq<ShortId>, laid: seq<Slot>,
                       a: seq<Slot>, have: seq<bool>, count: nat)
    requires |a| == |have| && (forall s :: s in slots ==> slots[s] < |a|) && Complete(PlacesOf(slots, a, have))
    requires Maps(slots, ids, laid) && Matched(u, laid, slots, a, have, count)
    ensures |Empties(a)| == 0
  {
    hide Empties;
    CountedIsComplete(u, slots, ids, laid, a, have, count);
  }

  lemma StartIsWhole(u: Ids, block: seq<Tx>, pool: seq<Tx>, extra: seq<Tx>, slots: map<ShortId, nat>,
                     a: seq<Slot>, have: seq<bool>, count: nat, n: nat, k: nat)
    requires block != [] && NoCollision(u, block, pool) && NoCollision(u, block, extra)
    requires AllFit(CompactOf(u, block)) && |a| == |have| && forall s :: s in slots ==> slots[s] < |a|
    requires var m := CompactOf(u, block);
             && Maps(slots, m.shortids, Laid(m, 1)) && Matched(u, Laid(m, 1), slots, a, have, count)
             && PoolsScanned(u, m.shortids, pool, extra, n, k, PlacesOf(slots, a, have))
             && HasAll(u, m.shortids, pool)
    ensures |Empties(a)| == 0
  {
    hide Laid, Empties, Matched, Maps, PoolsScanned, HasAll, NoCollision, PlacesOf, Complete;
    var m := CompactOf(u, block);
    forall s | s in m.shortids ensures exists q :: 0 <= q < |block| && u.shortId(block[q]) == s {
      var i :| 0 <= i < |m.shortids| && m.shortids[i] == s;
      assert u.shortId(block[i + 1]) == s;
    }
    BothScansComplete(u, block, m.shortids, pool, extra, n, k, PlacesOf(slots, a, have));
    NothingMissing(u, slots, m.shortids, Laid(m, 1), a, have, count);
  }

  /** One block sent, started, its missing transactions asked for and filled in: when both steps succeed the
      receiver has the sender's block, and nothing is asked for when its pool has every transaction just once. */
  method Relay(block: seq<Tx>, u: Ids, pool: seq<Tx>, extra: seq<Tx>, crowded: set<nat>, corruptionPossible: bool)
    returns (status: Status, vtx: seq<Tx>, asked: nat)
    requires block != [] && |block| <= MAX_INDEX && NoCollision(u, block, pool) && NoCollision(u, block, extra)
    ensures status == Ok ==> vtx == block
    ensures Distinct(CompactOf(u, block).shortids) && crowded == {} ==> status == Ok
    ensures HasAll(u, CompactOf(u, block).shortids, pool) ==> asked == 0
  {
    hide Empties, Laid, Matched, Maps, Filled, Missing, NoCollision, PoolsScanned, PlacesOf, HasAll, Distinct;
    var m := CompactOf(u, block);
    CompactDescribes(u, block);
    var pdb := new PartiallyDownloadedBlock();
    ghost var slots, have, n, k;
    status, slots, have, n, k := pdb.InitData(m, u, pool, extra, crowded);
    vtx, asked := [], 0;
    if status != Ok { return; }
    StartIsRight(u, block, pool, extra, slots, pdb.txn_available, have, pdb.mempool_count, n, k);
    if HasAll(u, m.shortids, pool) {
      StartIsWhole(u, block, pool, extra, slots, pdb.txn_available, have, pdb.mempool_count, n, k);
    }
    var missing := AskMissing(pdb, block);
    asked := |missing|;
    FilledIsBlock(pdb.txn_available, block);
    status, vtx := pdb.FillBlock(missing, true, corruptionPossible);
  }

  /** The transactions of the block that are not available, in order. */
  method AskMissing(pdb: PartiallyDownloadedBlock, block: seq<Tx>) returns (missing: seq<Tx>)
    requires !pdb.nullHeader && |pdb.txn_available| == |block|
    ensures missing == Missing(pdb.txn_available, block)
  {
    missing := [];
    ghost var a := pdb.txn_available;
    assert a[..0] == [];
    for i := 0 to |block|
      invariant missing == Missing(a[..i], block[..i])
    {
      var yes := pdb.IsTxAvailable(i);
      assert a[..i + 1][..i] == a[..i] && block[..i + 1][..i] == block[..i];
      if !yes { missing := missing + [block[i]]; }
    }
    assert a[..|a|] == a && block[..|block|] == block;
  }

  // ---- numbering

  ghost predicate HasKeys(slots: map<ShortId, nat>, ids: seq<ShortId>) {
    forall s :: s in slots <==> s in ids
  }

  ghost predicate HasValues(slots: map<ShortId, nat>, ids: seq<ShortId>, e: seq<nat>) {
    |ids| <= |e| && forall k :: 0 <= k < |ids| ==> ids[k] in slots && slots[ids[k]] == e[k]
  }

  /** Each of the ids so far stands for the slot of its last occurrence. */
  ghost predicate Numbered(slots: map<ShortId, nat>, ids: seq<ShortId>, e: seq<nat>) {
    && |ids| <= |e| && |slots| <= |ids| && (|slots| == |ids| <==> Distinct(ids))
    && HasKeys(slots, ids) && (Distinct(ids) ==> HasValues(slots, ids, e))
  }

  lemma DistinctNext(ids: seq<ShortId>, i: nat)
    requires i < |ids|
    ensures Distinct(ids[..i + 1]) <==> Distinct(ids[..i]) && ids[i] !in ids[..i]
  {
    var was, now := ids[..i], ids[..i + 1];
    if Distinct(now) {
      forall k | 0 <= k < i ensures was[k] != ids[i] { assert now[k] != now[i]; }
      forall p, q | 0 <= p < q < i ensures was[p] != was[q] { assert now[p] != now[q]; }
    }
    if Distinct(was) && ids[i] !in was {
      forall p, q | 0 <= p < q < i + 1 ensures now[p] != now[q] {
        if q == i { assert was[p] in was; } else { assert was[p] != was[q]; }
      }
    }
  }

  lemma KeysNext(slots: map<ShortId, nat>, ids: seq<ShortId>, i: nat, p: nat)
    requires i < |ids| && HasKeys(slots, ids[..i])
    ensures HasKeys(slots[ids[i] := p], ids[..i + 1]) && (ids[i] in slots <==> ids[i] in ids[..i])
  {
    assert ids[..i + 1] == ids[..i] + [ids[i]];
  }

  lemma ValuesNext(slots: map<ShortId, nat>, ids: seq<ShortId>, i: nat, e: seq<nat>)
    requires i < |ids| <= |e| && HasValues(slots, ids[..i], e) && ids[i] !in ids[..i]
    ensures HasValues(slots[ids[i] := e[i]], ids[..i + 1], e)
  {
    var was, now := ids[..i], ids[..i + 1];
    forall k | 0 <= k < |now| ensures now[k] in slots[ids[i] := e[i]] && slots[ids[i] := e[i]][now[k]] == e[k] {
      if k < i { assert was[k] in was && now[k] == was[k]; }
    }
  }

  lemma NumberedNext(slots: map<ShortId, nat>, ids: seq<ShortId>, i: nat, e: seq<nat>)
    requires i < |ids| <= |e| && Numbered(slots, ids[..i], e)
    ensures Numbered(slots[ids[i] := e[i]], ids[..i + 1], e)
  {
    hide Distinct, HasKeys, HasValues;
    DistinctNext(ids, i);
    KeysNext(slots, ids, i, e[i]);
    assert |slots[ids[i] := e[i]]| == |slots| + if ids[i] in slots then 0 else 1;
    if Distinct(ids[..i + 1]) { ValuesNext(slots, ids, i, e); }
  }

  lemma NumberedNone(ids: seq<ShortId>, e: seq<nat>)
    ensures Numbered(map[], ids[..0], e)
  {}

  lemma NumberedAll(slots: map<ShortId, nat>, ids: seq<ShortId>, laid: seq<Slot>)
    requires Numbered(slots, ids, Empties(laid)) && |ids| == |Empties(laid)|
    ensures |slots| == |ids| <==> Distinct(ids)
    ensures Distinct(ids) ==> Maps(slots, ids, laid)
  {
    hide Empties;
  }

  // ---- pools

  /** The slots hold what n transactions of the first pool and k of the second leave in them. */
  ghost predicate PoolsScanned(u: Ids, ids: seq<ShortId>, pool: seq<Tx>, extra: seq<Tx>, n: nat, k: nat,
                               places: Places) {
    && Ends(u, false, pool, Untouched(ids), n)
    && var mid := Scanned(u, false, pool[..n], Untouched(ids));
       Ends(u, true, extra, mid, k) && places == Scanned(u, true, extra[..k], mid)
  }

  lemma PlacesAre(slots: map<ShortId, nat>, a: seq<Slot>, have: seq<bool>)
    requires |a| == |have| && forall s :: s in slots ==> slots[s] < |a|
    ensures PlacesOf(slots, a, have).Keys == slots.Keys
    ensures forall s :: s in slots ==> PlacesOf(slots, a, have)[s] == Place(a[slots[s]], have[slots[s]])
  {}

  lemma NothingMet(slots: map<ShortId, nat>, ids: seq<ShortId>, laid: seq<Slot>, have: seq<bool>)
    requires Maps(slots, ids, laid) && |have| == |laid| && forall p :: 0 <= p < |have| ==> !have[p]
    requires forall s :: s in slots ==> slots[s] < |laid| && laid[slots[s]].Empty?
    ensures PlacesOf(slots, laid, have) == Untouched(ids)
  {
    hide Empties;
    forall s ensures s in slots <==> s in ids {
      if s in ids { var k :| 0 <= k < |ids| && ids[k] == s; }
    }
  }

  lemma SameShape(u: Ids, laid: seq<Slot>, slots: map<ShortId, nat>, a: seq<Slot>, have: seq<bool>, count: nat)
    requires Matched(u, laid, slots, a, have, count)
    ensures |a| == |laid| == |have| && count == |Empties(laid)| - |Empties(a)|
  {}

  lemma NothingTaken(u: Ids, laid: seq<Slot>, slots: map<ShortId, nat>, have: seq<bool>)
    requires |have| == |laid|
    ensures Matched(u, laid, slots, laid, have, 0)
  {}

  // ---- filling step by step

  lemma FillStart(a: seq<Slot>, missing: seq<Tx>)
    ensures |Empties(a[..0])| == 0 && Filled(a[..0], missing[..0]) == []
  {
    assert a[..0] == [];
  }

  lemma FillNext(a: seq<Slot>, i: nat, missing: seq<Tx>, offset: nat)
    requires i < |a| && offset <= |missing| && offset == |Empties(a[..i])|
    ensures |Empties(a[..i + 1])| == offset + if a[i].Empty? then 1 else 0
    ensures a[i].Full? ==> Filled(a[..i + 1], missing[..offset]) == Filled(a[..i], missing[..offset]) + [a[i].tx]
    ensures a[i].Empty? && offset < |missing| ==>
              Filled(a[..i + 1], missing[..offset + 1]) == Filled(a[..i], missing[..offset]) + [missing[offset]]
  {
    assert a[..i + 1][..i] == a[..i];
    if a[i].Empty? && offset < |missing| { assert missing[..offset + 1][..offset] == missing[..offset]; }
  }

  lemma {:induction false} EmptiesPrefix(a: seq<Slot>, i: nat)
    requires i <= |a|
    ensures |Empties(a[..i])| <= |Empties(a)|
  {
    if i == |a| {
      assert a[..i] == a;
    } else {
      EmptiesPrefix(a[..|a| - 1], i);
      assert a[..|a| - 1][..i] == a[..i];
    }
  }

  // ---- differential indexes

  const WRAP: int := 0x1_0000_0000_0000_0000

  ghost predicate Increasing(xs: seq<nat>) {
    forall i, j :: 0 <= i < j < |xs| ==> xs[i] < xs[j]
  }

  ghost predicate Indexes(xs: seq<nat>) {
    forall i :: 0 <= i < |xs| ==> xs[i] <= MAX_INDEX
  }

  /** The least index that can follow the ones before the i-th. */
  function After(xs: seq<nat>, i: nat): nat
    requires i <= |xs|
  {
    if i == 0 then 0 else xs[i - 1] + 1
  }

  /** Each index as its distance from the one before, as a 64-bit word. */
  method WriteIndexes(xs: seq<nat>) returns (ds: seq<nat>)
    requires Indexes(xs)
    ensures Writes(xs, ds)
  {
    ds := [];
    for i := 0 to |xs|
      invariant |ds| == i && forall j :: 0 <= j < i ==> ds[j] == (xs[j] - After(xs, j)) % WRAP
    {
      ds := ds + [(xs[i] - After(xs, i)) % WRAP];
    }
  }

  datatype ReadResult = Overflow | Read(indexes: seq<nat>)

  ghost predicate SumAt(ds: seq<nat>, xs: seq<nat>, i: nat)
    requires i < |xs| && i < |ds|
  {
    xs[i] == ds[i] + After(xs, i)
  }

  /** The index list that a list of distances stands for, as far as it goes. */
  ghost predicate Sums(ds: seq<nat>, xs: seq<nat>) {
    |xs| <= |ds| && forall i :: 0 <= i < |xs| ==> SumAt(ds, xs, i)
  }

  lemma {:induction false} SumsAgree(ds: seq<nat>, xs: seq<nat>, ys: seq<nat>, i: nat)
    requires Sums(ds, xs) && Sums(ds, ys) && i < |xs| && i < |ys|
    ensures xs[i] == ys[i]
  {
    assert SumAt(ds, xs, i) && SumAt(ds, ys, i);
    if i > 0 { SumsAgree(ds, xs, ys, i - 1); }
  }

  lemma {:induction false} SumsLess(ds: seq<nat>, xs: seq<nat>, i: nat, j: nat)
    requires Sums(ds, xs) && i < j < |xs|
    ensures xs[i] < xs[j]
  {
    assert SumAt(ds, xs, j);
    if i < j - 1 { SumsLess(ds, xs, i, j - 1); }
  }

  lemma SumsIncrease(ds: seq<nat>, xs: seq<nat>)
    requires Sums(ds, xs)
    ensures Increasing(xs)
  {
    forall i, j | 0 <= i < j < |xs| ensures xs[i] < xs[j] { SumsLess(ds, xs, i, j); }
  }

  /** The distances are too large: no 16-bit list has them. */
  lemma TooLarge(ds: seq<nat>, was: seq<nat>, j: nat)
    requires j < |ds| && |was| == j && Sums(ds, was) && ds[j] + After(was, j) > MAX_INDEX
    ensures forall xs :: |xs| == |ds| && Sums(ds, xs) ==> !Indexes(xs)
  {
    forall xs: seq<nat> | |xs| == |ds| && Sums(ds, xs) ensures !Indexes(xs) {
      assert SumAt(ds, xs, j);
      if j > 0 { SumsAgree(ds, was, xs, j - 1); }
    }
  }

  lemma TooLargeAlone(ds: seq<nat>, i: nat)
    requires i < |ds| && ds[i] > MAX_INDEX
    ensures forall xs :: |xs| == |ds| && Sums(ds, xs) ==> !Indexes(xs)
  {
    forall xs: seq<nat> | |xs| == |ds| && Sums(ds, xs) ensures !Indexes(xs) { assert SumAt(ds, xs, i); }
  }

  lemma SumsNext(ds: seq<nat>, was: seq<nat>, x: nat)
    requires |was| < |ds| && Sums(ds, was) && Indexes(was) && x == ds[|was|] + After(was, |was|) <= MAX_INDEX
    ensures Sums(ds, was + [x]) && Indexes(was + [x])
  {
    forall i | 0 <= i < |was| + 1 ensures SumAt(ds, was + [x], i) {
      if i < |was| { assert SumAt(ds, was, i); }
    }
  }

  /** Reads the distances back; anything that leaves 16 bits is refused. */
  method ReadIndexes(ds: seq<nat>) returns (r: ReadResult)
    ensures r.Read? ==> |r.indexes| == |ds| && Sums(ds, r.indexes) && Indexes(r.indexes) && Increasing(r.indexes)
    ensures r.Overflow? ==> forall xs :: |xs| == |ds| && Sums(ds, xs) ==> !Indexes(xs)
  {
    hide Sums, Indexes, Increasing;
    var indexes: seq<nat> := [];
    for i := 0 to |ds|
      invariant |indexes| == i && forall j :: 0 <= j < i ==> indexes[j] == ds[j]
    {
      if ds[i] > MAX_INDEX {
        TooLargeAlone(ds, i);
        return Overflow;
      }
      indexes := indexes + [ds[i]];
    }
    var offset: nat := 0;
    assert Sums(ds, indexes[..0]) && Indexes(indexes[..0]) by { NoSums(ds, indexes[..0]); }
    for j := 0 to |ds|
      invariant |indexes| == |ds| && (forall k :: j <= k < |ds| ==> indexes[k] == ds[k])
      invariant offset == After(indexes[..j], j) && Sums(ds, indexes[..j]) && Indexes(indexes[..j])
    {
      ghost var was := indexes[..j];
      if indexes[j] + offset > MAX_INDEX {
        TooLarge(ds, was, j);
        return Overflow;
      }
      SumsNext(ds, was, indexes[j] + offset);
      indexes := indexes[j := indexes[j] + offset];
      offset := indexes[j] + 1;
      assert indexes[..j + 1] == was + [indexes[j]];
    }
    assert indexes[..|ds|] == indexes;
    SumsIncrease(ds, indexes);
    r := Read(indexes);
  }

  lemma NoSums(ds: seq<nat>, xs: seq<nat>)
    requires xs == []
    ensures Sums(ds, xs) && Indexes(xs)
  {}

  ghost predicate Writes(xs: seq<nat>, ds: seq<nat>) {
    |ds| == |xs| && forall i :: 0 <= i < |ds| ==> ds[i] == (xs[i] - After(xs, i)) % WRAP
  }

  /** A 16-bit list is read back from its distances if and only if it is strictly increasing. */
  lemma IndexRoundTrip(xs: seq<nat>, ds: seq<nat>)
    requires Indexes(xs) && Writes(xs, ds)
    ensures Sums(ds, xs) <==> Increasing(xs)
  {
    if Increasing(xs) {
      forall i | 0 <= i < |xs| ensures SumAt(ds, xs, i) {
        assert i > 0 ==> xs[i - 1] < xs[i];
        assert ds[i] == (xs[i] - After(xs, i)) % WRAP;
      }
    }
    if Sums(ds, xs) { SumsIncrease(ds, xs); }
  }

  /** And any list of distances that is accepted is written again from what was read. */
  lemma DistanceRoundTrip(ds: seq<nat>, xs: seq<nat>)
    requires |xs| == |ds| && Sums(ds, xs) && Indexes(xs)
    ensures Writes(xs, ds)
  {
    forall i | 0 <= i < |ds| ensures ds[i] == (xs[i] - After(xs, i)) % WRAP {
      assert SumAt(ds, xs, i);
      assert xs[i] <= MAX_INDEX;
    }
  }

  lemma Distance(x: nat, prev: nat)
    requires x <= MAX_INDEX && prev <= MAX_INDEX + 1
    ensures (x - prev) % WRAP == if x >= prev then x - prev else WRAP + x - prev
  {}

  lemma WrittenSums(xs: seq<nat>, ds: seq<nat>, i: nat)
    requires Indexes(xs) && Writes(xs, ds) && i < |xs|
    ensures xs[i] >= After(xs, i) ==> SumAt(ds, xs, i)
    ensures xs[i] < After(xs, i) ==> ds[i] > MAX_INDEX
  {
    assert i > 0 ==> xs[i - 1] <= MAX_INDEX;
    Distance(xs[i], After(xs, i));
    assert ds[i] == (xs[i] - After(xs, i)) % WRAP;
  }

  /** A distance below zero leaves 16 bits. */
  lemma NotIncreasing(xs: seq<nat>, ds: seq<nat>, ys: seq<nat>)
    requires Indexes(xs) && Writes(xs, ds) && !Increasing(xs) && |ys| == |ds| && Sums(ds, ys)
    ensures !Indexes(ys)
  {
    hide Increasing, Writes, After;
    assert |xs| == |ds| by { SameLength(xs, ds); }
    if i :| 0 <= i < |xs| && xs[i] < After(xs, i) {
      WrittenSums(xs, ds, i);
      TooLargeAlone(ds, i);
    } else {
      forall i | 0 <= i < |xs| ensures SumAt(ds, xs, i) { WrittenSums(xs, ds, i); }
      SumsIncrease(ds, xs);
    }
  }

  lemma SameLength(xs: seq<nat>, ds: seq<nat>)
    requires Writes(xs, ds)
    ensures |xs| == |ds|
  {}

  /** Writing a 16-bit list and reading it again gives it back when it is strictly increasing and is refused when
      not. */
  method IndexesThereAndBack(xs: seq<nat>) returns (r: ReadResult)
    requires Indexes(xs)
    ensures r == if Increasing(xs) then Read(xs) else Overflow
  {
    var ds := WriteIndexes(xs);
    r := ReadIndexes(ds);
    IndexRoundTrip(xs, ds);
    hide Sums, Indexes, Increasing, Writes;
    if r.Read? {
      if Increasing(xs) {
        forall i | 0 <= i < |xs| ensures r.indexes[i] == xs[i] { SumsAgree(ds, r.indexes, xs, i); }
      } else {
        NotIncreasing(xs, ds, r.indexes);
      }
    }
  }
}
