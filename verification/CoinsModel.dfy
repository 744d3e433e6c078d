/** Coin caches stacked on a database: what each layer shows, and what its flags promise. */
module CoinsModel {

  datatype OutPoint = OutPoint(hash: seq<bv8>, n: nat)

  /** A coin whose output is null is spent; clearing one leaves exactly this value. */
  datatype Coin = Spent | Unspent(nValue: int, scriptPubKey: seq<bv8>, fCoinBase: bool, nHeight: nat)

  datatype Entry = Entry(coin: Coin, isDirty: bool, isFresh: bool)

  type CoinsMap = map<OutPoint, Entry>

  /** The unspent coins a view shows. */
  type View = map<OutPoint, Coin>

  datatype Cache = Cache(coins: CoinsMap, usage: int)

  const EmptyCache := Cache(map[], 0)

  ghost function Lookup(v: View, o: OutPoint): Coin {
    if o in v then v[o] else Spent
  }

  /** What coins show on top of base: their own entries first, and no spent coin. */
  ghost function Overlay(base: View, coins: CoinsMap): View {
    map o | o in base.Keys + coins.Keys && (o in coins ==> coins[o].coin.Unspent?) ::
      if o in coins then coins[o].coin else base[o]
  }

  lemma OverlayAt(base: View, coins: CoinsMap, o: OutPoint)
    requires Proper(base)
    ensures Lookup(Overlay(base, coins), o) == if o in coins then coins[o].coin else Lookup(base, o)
  {}

  ghost predicate Proper(v: View) {
    forall o :: o in v ==> v[o].Unspent?
  }

  /** The view through all of cs, the last being the top. */
  ghost function Show(db: View, cs: seq<Cache>): View {
    if cs == [] then db else Overlay(Show(db, cs[..|cs| - 1]), cs[|cs| - 1].coins)
  }

  /** What each layer shows, the database first. */
  ghost function ShowAll(db: View, cs: seq<Cache>): (vs: seq<View>)
    ensures |vs| == |cs| + 1
    ensures forall k :: 0 <= k <= |cs| ==> vs[k] == Show(db, cs[..k])
  {
    seq(|cs| + 1, k requires 0 <= k <= |cs| => Show(db, cs[..k]))
  }

  /** FRESH says the parent shows no such coin; an entry that is not DIRTY agrees with the parent. */
  ghost predicate Honest(e: Entry, base: View, o: OutPoint) {
    && (e.isFresh ==> o !in base)
    && (!e.isDirty ==> e.coin == Lookup(base, o))
  }

  ghost predicate HonestAll(coins: CoinsMap, base: View) {
    forall o :: o in coins ==> Honest(coins[o], base, o)
  }

  /** Two views agree when they show the same coin everywhere. */
  lemma SameView(v: View, w: View)
    requires Proper(v) && Proper(w) && forall o :: Lookup(v, o) == Lookup(w, o)
    ensures v == w
  {
    forall o ensures o in v <==> o in w {
      assert Lookup(v, o) == Lookup(w, o);
    }
    forall o | o in v ensures v[o] == w[o] {
      assert Lookup(v, o) == Lookup(w, o);
    }
  }

  lemma {:induction false} ShowIsProper(db: View, cs: seq<Cache>)
    requires Proper(db)
    ensures Proper(Show(db, cs))
  {
    if cs != [] {
      ShowIsProper(db, cs[..|cs| - 1]);
    }
  }

  /** Replacing one entry changes the view at that outpoint only. */
  lemma EntrySet(base: View, coins: CoinsMap, o: OutPoint, e: Entry)
    requires Proper(base)
    ensures Overlay(base, coins[o := e]) ==
              if e.coin.Spent? then Overlay(base, coins) - {o} else Overlay(base, coins)[o := e.coin]
  {}

  /** Dropping an entry uncovers the parent's coin. */
  lemma EntryDropped(base: View, coins: CoinsMap, o: OutPoint)
    requires Proper(base)
    ensures Overlay(base, coins - {o}) ==
              if o in base then Overlay(base, coins)[o := base[o]] else Overlay(base, coins) - {o}
  {}

  lemma NothingOverlaid(base: View)
    requires Proper(base)
    ensures Overlay(base, map[]) == base
  {}

  // ---- memory usage

  ghost function Total(usageOf: Coin -> nat, coins: CoinsMap): nat
    decreases |coins|
  {
    if coins == map[] then 0
    else
      var o :| o in coins;
      usageOf(coins[o].coin) + Total(usageOf, coins - {o})
  }

  lemma {:induction false} TotalWithout(usageOf: Coin -> nat, coins: CoinsMap, o: OutPoint)
    requires o in coins
    ensures Total(usageOf, coins) == usageOf(coins[o].coin) + Total(usageOf, coins - {o})
    decreases |coins|
  {
    var p :| p in coins && Total(usageOf, coins) == usageOf(coins[p].coin) + Total(usageOf, coins - {p});
    if p != o {
      TotalWithout(usageOf, coins - {p}, o);
      TotalWithout(usageOf, coins - {o}, p);
      assert coins - {p} - {o} == coins - {o} - {p};
    }
  }

  lemma TotalWith(usageOf: Coin -> nat, coins: CoinsMap, o: OutPoint, e: Entry)
    ensures Total(usageOf, coins[o := e]) ==
              usageOf(e.coin) + Total(usageOf, coins) - if o in coins then usageOf(coins[o].coin) else 0
  {
    TotalWithout(usageOf, coins[o := e], o);
    assert coins[o := e] - {o} == coins - {o};
    if o in coins {
      TotalWithout(usageOf, coins, o);
    } else {
      assert coins - {o} == coins;
    }
  }

  // ---- a stack of caches

  ghost predicate Sound(usageOf: Coin -> nat, c: Cache, base: View) {
    HonestAll(c.coins, base) && c.usage == Total(usageOf, c.coins)
  }

  ghost predicate SoundStack(usageOf: Coin -> nat, db: View, cs: seq<Cache>) {
    Proper(db) && forall k :: 0 <= k < |cs| ==> Sound(usageOf, cs[k], Show(db, cs[..k]))
  }

  lemma ShowNext(db: View, cs: seq<Cache>, k: nat)
    requires k < |cs|
    ensures Show(db, cs[..k + 1]) == Overlay(Show(db, cs[..k]), cs[k].coins)
  {
    assert cs[..k + 1][..k] == cs[..k];
  }

  /** A layer exchanged for one that shows the same leaves every view as it was. */
  lemma {:induction false} LayerExchanged(db: View, cs: seq<Cache>, i: nat, c: Cache, k: nat)
    requires i < |cs| && k <= |cs|
    requires Overlay(Show(db, cs[..i]), c.coins) == Overlay(Show(db, cs[..i]), cs[i].coins)
    ensures Show(db, cs[i := c][..k]) == Show(db, cs[..k])
  {
    hide Overlay, Show;
    if k <= i {
      assert cs[i := c][..k] == cs[..k];
    } else {
      LayerExchanged(db, cs, i, c, k - 1);
      ShowNext(db, cs, k - 1);
      ShowNext(db, cs[i := c], k - 1);
    }
  }

  lemma StackExchanged(usageOf: Coin -> nat, db: View, cs: seq<Cache>, i: nat, c: Cache)
    requires SoundStack(usageOf, db, cs) && i < |cs| && Sound(usageOf, c, Show(db, cs[..i]))
    requires Overlay(Show(db, cs[..i]), c.coins) == Overlay(Show(db, cs[..i]), cs[i].coins)
    ensures SoundStack(usageOf, db, cs[i := c])
    ensures forall k :: 0 <= k <= |cs| ==> Show(db, cs[i := c][..k]) == Show(db, cs[..k])
  {
    hide Sound;
    forall k | 0 <= k <= |cs| ensures Show(db, cs[i := c][..k]) == Show(db, cs[..k]) {
      LayerExchanged(db, cs, i, c, k);
    }
  }

  /** A new top layer shown to sit soundly on the layers below. */
  lemma TopExchanged(usageOf: Coin -> nat, db: View, cs: seq<Cache>, c: Cache)
    requires SoundStack(usageOf, db, cs) && cs != [] && Sound(usageOf, c, Show(db, cs[..|cs| - 1]))
    ensures var ds := cs[|cs| - 1 := c];
            && SoundStack(usageOf, db, ds)
            && (forall k :: 0 <= k < |cs| ==> ds[..k] == cs[..k])
            && Show(db, ds) == Overlay(Show(db, cs[..|cs| - 1]), c.coins)
  {
    hide Sound, Show, Overlay;
    var ds := cs[|cs| - 1 := c];
    forall k | 0 <= k < |cs| ensures ds[..k] == cs[..k] {}
    ShowNext(db, ds, |cs| - 1);
    assert ds[..|cs|] == ds;
  }

  // ---- one entry written back

  /** The parent's map after the child's dirty entry e for o. */
  function Merged(parent: CoinsMap, o: OutPoint, e: Entry): CoinsMap {
    if o !in parent then
      if e.isFresh && e.coin.Spent? then parent else parent[o := Entry(e.coin, true, e.isFresh)]
    else if parent[o].isFresh && e.coin.Spent? then parent - {o}
    else parent[o := Entry(e.coin, true, parent[o].isFresh)]
  }

  ghost function Write(v: View, o: OutPoint, c: Coin): View {
    if c.Spent? then v - {o} else v[o := c]
  }

  /** Honest flags make the write-back exact, keep the parent's flags honest, and rule out the exception. */
  lemma MergeIsExact(base: View, parent: CoinsMap, o: OutPoint, e: Entry)
    requires Proper(base) && HonestAll(parent, base) && e.isDirty && Honest(e, Overlay(base, parent), o)
    ensures !(o in parent && e.isFresh && parent[o].coin.Unspent?)
    ensures HonestAll(Merged(parent, o, e), base)
    ensures Overlay(base, Merged(parent, o, e)) == Write(Overlay(base, parent), o, e.coin)
  {
    hide Overlay;
    var v := Overlay(base, parent);
    OverlayAt(base, parent, o);
    if o !in parent && e.isFresh && e.coin.Spent? {
      assert v - {o} == v;
    } else if o in parent && parent[o].isFresh && e.coin.Spent? {
      EntryDropped(base, parent, o);
    } else {
      EntrySet(base, parent, o, Entry(e.coin, true, if o in parent then parent[o].isFresh else e.isFresh));
    }
  }

  /** Writing one entry back and forgetting it leaves the child's view as it was. */
  lemma WrittenBack(v: View, coins: CoinsMap, o: OutPoint)
    requires Proper(v) && HonestAll(coins, v) && o in coins
    ensures var w := if coins[o].isDirty then Write(v, o, coins[o].coin) else v;
            && Proper(w) && HonestAll(coins - {o}, w) && Overlay(w, coins - {o}) == Overlay(v, coins)
  {
    var w := if coins[o].isDirty then Write(v, o, coins[o].coin) else v;
    assert Proper(w);
    forall p ensures Lookup(Overlay(w, coins - {o}), p) == Lookup(Overlay(v, coins), p) {
      OverlayAt(w, coins - {o}, p);
      OverlayAt(v, coins, p);
    }
    SameView(Overlay(w, coins - {o}), Overlay(v, coins));
  }

  // ---- AddCoin and SpendCoin on the top cache

  ghost function Had(c: Cache, o: OutPoint): Entry {
    if o in c.coins then c.coins[o] else Entry(Spent, false, false)
  }

  /** The entry AddCoin leaves for o. */
  ghost function AddedEntry(c: Cache, o: OutPoint, coin: Coin, overwrite: bool): Entry {
    Entry(coin, true, Had(c, o).isFresh || (!overwrite && !Had(c, o).isDirty))
  }

  ghost function Added(usageOf: Coin -> nat, c: Cache, o: OutPoint, coin: Coin, overwrite: bool): Cache {
    Cache(c.coins[o := AddedEntry(c, o, coin, overwrite)],
          c.usage - (if o in c.coins then usageOf(c.coins[o].coin) else 0) + usageOf(coin))
  }

  /** Without its exception AddCoin adds the coin to the view; the flags stay honest exactly when the
      caller allows an overwrite or the view shows no such coin. */
  lemma AddIsExact(usageOf: Coin -> nat, base: View, c: Cache, o: OutPoint, coin: Coin, overwrite: bool)
    requires Proper(base) && Sound(usageOf, c, base) && coin.Unspent?
    requires overwrite || Had(c, o).coin.Spent?
    ensures Overlay(base, Added(usageOf, c, o, coin, overwrite).coins) == Overlay(base, c.coins)[o := coin]
    ensures Sound(usageOf, Added(usageOf, c, o, coin, overwrite), base) <==> overwrite || o !in Overlay(base, c.coins)
  {
    var d := Added(usageOf, c, o, coin, overwrite);
    var e := AddedEntry(c, o, coin, overwrite);
    assert Proper(Overlay(base, c.coins));
    hide Overlay, Total;
    EntrySet(base, c.coins, o, e);
    TotalWith(usageOf, c.coins, o, e);
    OverlayAt(base, c.coins, o);
    assert HonestAll(d.coins, base) <==> Honest(e, base, o) by {
      assert d.coins[o] == e;
      forall p | p in d.coins && p != o ensures Honest(d.coins[p], base, p) {}
    }
  }

  /** What SpendCoin makes of a cache that holds an entry for o. */
  ghost function SpentCache(usageOf: Coin -> nat, c: Cache, o: OutPoint): Cache
    requires o in c.coins
  {
    Cache(if c.coins[o].isFresh then c.coins - {o} else c.coins[o := c.coins[o].(coin := Spent, isDirty := true)],
          c.usage - usageOf(c.coins[o].coin))
  }

  lemma SpendIsExact(usageOf: Coin -> nat, base: View, c: Cache, o: OutPoint)
    requires Proper(base) && Sound(usageOf, c, base) && o in c.coins && usageOf(Spent) == 0
    ensures Sound(usageOf, SpentCache(usageOf, c, o), base)
    ensures Overlay(base, SpentCache(usageOf, c, o).coins) == Overlay(base, c.coins) - {o}
  {
    hide Overlay, Total;
    if c.coins[o].isFresh {
      EntryDropped(base, c.coins, o);
      TotalWithout(usageOf, c.coins, o);
    } else {
      EntrySet(base, c.coins, o, c.coins[o].(coin := Spent, isDirty := true));
      TotalWith(usageOf, c.coins, o, c.coins[o].(coin := Spent, isDirty := true));
    }
  }

  /** An entry without flags can be dropped unseen. */
  lemma UncacheIsUnseen(usageOf: Coin -> nat, base: View, c: Cache, o: OutPoint)
    requires Proper(base) && Sound(usageOf, c, base) && o in c.coins && !c.coins[o].isDirty && !c.coins[o].isFresh
    ensures var d := Cache(c.coins - {o}, c.usage - usageOf(c.coins[o].coin));
            Sound(usageOf, d, base) && Overlay(base, d.coins) == Overlay(base, c.coins)
  {
    TotalWithout(usageOf, c.coins, o);
    EntryDropped(base, c.coins, o);
    hide Total;
    assert Overlay(base, c.coins - {o}) == Overlay(base, c.coins);
  }

  // ---- the plain machine a stack of caches stands for: one map of unspent coins per layer

  datatype Op =
    | OpPush
    | OpPop
    | OpAdd(o: OutPoint, coin: Coin, overwrite: bool)
    | OpSpend(o: OutPoint)
    | OpGet(o: OutPoint)
    | OpUncache(o: OutPoint)
    | OpFlush

  ghost function Top(vs: seq<View>): View
    requires vs != []
  {
    vs[|vs| - 1]
  }

  /** What callers owe: a cache to work on, an unspent coin to add, and no silent overwrite. */
  ghost predicate Legal(vs: seq<View>, op: Op) {
    vs != [] &&
    match op
    case OpPush => true
    case OpAdd(o, coin, overwrite) => |vs| > 1 && coin.Unspent? && (overwrite || o !in Top(vs))
    case _ => |vs| > 1
  }

  ghost function PlainStep(unspendable: Coin -> bool, vs: seq<View>, op: Op): (ws: seq<View>)
    requires Legal(vs, op)
    ensures ws != []
  {
    match op
    case OpPush => vs + [Top(vs)]
    case OpPop => vs[..|vs| - 1]
    case OpAdd(o, coin, _) => if unspendable(coin) then vs else vs[|vs| - 1 := Top(vs)[o := coin]]
    case OpSpend(o) => vs[|vs| - 1 := Top(vs) - {o}]
    case OpGet(_) => vs
    case OpUncache(_) => vs
    case OpFlush => vs[|vs| - 2 := Top(vs)]
  }

  /** The coin a caller is handed. */
  ghost function PlainAnswer(vs: seq<View>, op: Op): Coin
    requires Legal(vs, op)
  {
    match op
    case OpGet(o) => Lookup(Top(vs), o)
    case OpSpend(o) => Lookup(Top(vs), o)
    case _ => Spent
  }

  ghost predicate LegalRun(unspendable: Coin -> bool, vs: seq<View>, ops: seq<Op>)
    decreases |ops|
  {
    ops == [] || (Legal(vs, ops[0]) && LegalRun(unspendable, PlainStep(unspendable, vs, ops[0]), ops[1..]))
  }

  ghost function PlainRun(unspendable: Coin -> bool, vs: seq<View>, ops: seq<Op>): seq<View>
    requires LegalRun(unspendable, vs, ops)
    decreases |ops|
  {
    if ops == [] then vs else PlainRun(unspendable, PlainStep(unspendable, vs, ops[0]), ops[1..])
  }

  ghost function PlainAnswers(unspendable: Coin -> bool, vs: seq<View>, ops: seq<Op>): seq<Coin>
    requires LegalRun(unspendable, vs, ops)
    decreases |ops|
  {
    if ops == [] then []
    else [PlainAnswer(vs, ops[0])] + PlainAnswers(unspendable, PlainStep(unspendable, vs, ops[0]), ops[1..])
  }
}
