/** A stack of coin caches over a database, updated in place.
    Seen from outside it is a stack of plain maps from outpoint to unspent coin. */
module Coins {
  import opened CoinsModel

  class CoinsViews {
    const usageOf: Coin -> nat
    const unspendable: Coin -> bool
    /** The database at the bottom. */
    var db: View
    /** caches[0] reads the database, each other cache the one before it. */
    var caches: seq<Cache>

    ghost predicate Valid()
      reads this
    {
      usageOf(Spent) == 0 && SoundStack(usageOf, db, caches)
    }

    /** What each layer shows, the database first. */
    ghost function Views(): (vs: seq<View>)
      reads this
      ensures |vs| == |caches| + 1
    {
      ShowAll(db, caches)
    }

    constructor (coins: View, usage: Coin -> nat, isUnspendable: Coin -> bool)
      requires Proper(coins) && usage(Spent) == 0
      ensures Valid() && db == coins && caches == []
    {
      usageOf, unspendable := usage, isUnspendable;
      db, caches := coins, [];
    }

    /** A new cache on top. */
    method Push()
      requires Valid()
      modifies this`caches
      ensures Valid() && Views() == old(Views()) + [old(Views())[|old(caches)|]]
    {
      hide Overlay, Show, Sound;
      ghost var before, cs := Views(), caches;
      caches := caches + [EmptyCache];
      Pushed(usageOf, db, cs);
      assert caches[..|cs| + 1] == caches && cs[..|cs|] == cs;
      forall k | 0 <= k <= |cs| ensures Views()[k] == before[k] {}
    }

    /** The top cache destroyed, whatever it held. */
    method Pop()
      requires Valid() && caches != []
      modifies this`caches
      ensures Valid() && Views() == old(Views())[..|old(caches)|]
    {
      hide Show, Sound;
      ghost var before, cs := Views(), caches;
      caches := caches[..|caches| - 1];
      forall k | 0 <= k <= |caches| ensures caches[..k] == cs[..k] {}
    }

    /** FetchCoin of cache i: the entry for o is there afterwards if the view shows one or the cache had one. */
    method FetchCoin(i: nat, o: OutPoint) returns (found: bool)
      requires Valid() && i < |caches|
      modifies this`caches
      ensures Valid() && Views() == old(Views()) && |caches| == |old(caches)|
      ensures forall k :: i < k < |caches| ==> caches[k] == old(caches[k])
      ensures found <==> o in caches[i].coins
      ensures found ==> caches[i].coins[o].coin == Lookup(Views()[i + 1], o)
      ensures !found ==> o !in Views()[i + 1]
      ensures caches[i].coins - {o} == old(caches[i]).coins - {o}
      ensures o in old(caches[i]).coins ==> caches[i] == old(caches[i])
      decreases i, 0
    {
      hide Overlay, Show;
      ShowAt(db, caches, i, o);
      if o in caches[i].coins {
        return true;
      }
      var have, tmp;
      if i == 0 {
        have, tmp := o in db, if o in db then db[o] else Spent;
        assert caches[..0] == [];
        ShowNone(db);
      } else {
        have, tmp := GetCoin(i - 1, o);
      }
      if !have {
        ShowAt(db, caches, i, o);
        return false;
      }
      var c := caches[i];
      Filled(usageOf, db, caches, i, o, tmp);
      // The parent reports unspent coins only, so the entry is never born FRESH.
      var entry := Entry(tmp, false, tmp.Spent?);
      caches := caches[i := Cache(c.coins[o := entry], c.usage + usageOf(tmp))];
      found := true;
    }

    method GetCoin(i: nat, o: OutPoint) returns (ok: bool, coin: Coin)
      requires Valid() && i < |caches|
      modifies this`caches
      ensures Valid() && Views() == old(Views()) && |caches| == |old(caches)|
      ensures forall k :: i < k < |caches| ==> caches[k] == old(caches[k])
      ensures ok <==> o in Views()[i + 1]
      ensures ok ==> coin == Views()[i + 1][o]
      decreases i, 1
    {
      hide Overlay, Show;
      ghost var v := Views()[i + 1];
      ShowIsProper(db, caches[..i + 1]);
      var found := FetchCoin(i, o);
      if found {
        coin := caches[i].coins[o].coin;
        return coin.Unspent?, coin;
      }
      return false, Spent;
    }
  
    ghost function Base(): View
      requires caches != []
      reads this
    {
      Show(db, caches[..|caches| - 1])
    }

    ghost function TopView(): View
      reads this
    {
      Show(db, caches)
    }

    /** threw stands for the logic_error. */
    method AddCoin(o: OutPoint, coin: Coin, possible_overwrite: bool) returns (threw: bool)
      requires Valid() && caches != [] && coin.Unspent?
      modifies this`caches
      ensures unspendable(coin) ==> !threw && caches == old(caches)
      ensures threw <==>
                !unspendable(coin) && !possible_overwrite && Had(old(caches)[|old(caches)| - 1], o).coin.Unspent?
      ensures !unspendable(coin) && !threw ==>
                && |caches| == |old(caches)| && Views() == old(Views())[|caches| := old(TopView())[o := coin]]
                && (Valid() <==> possible_overwrite || o !in old(TopView()))
      ensures possible_overwrite || o !in old(TopView()) ==> !threw
      ensures threw ==>
                var top := |old(caches)| - 1;
                var c := old(caches)[top];
                && o in c.coins && caches == old(caches)[top := Cache(c.coins, c.usage - usageOf(c.coins[o].coin))]
                && Views() == old(Views()) && (Valid() <==> usageOf(c.coins[o].coin) == 0)
    {
      hide Overlay, Show, Total, SoundStack, ShowAll;
      if unspendable(coin) {
        return false;
      }
      var top := |caches| - 1;
      var c := caches[top];
      TopIsSound(usageOf, db, caches);
      ShowAt(db, caches, top, o);
      assert caches[..|caches|] == caches;
      var inserted := o !in c.coins;
      var entry := if inserted then Entry(Spent, false, false) else c.coins[o];
      var isFresh := false;
      var usage := c.usage;
      if !inserted {
        usage := usage - usageOf(entry.coin);
      }
      if !possible_overwrite {
        if entry.coin.Unspent? {
          UsageOff(usageOf, db, caches, usage);
          caches := caches[top := Cache(c.coins, usage)];
          return true;
        }
        isFresh := !entry.isDirty;
      }
      var added := Cache(c.coins[o := Entry(coin, true, entry.isFresh || isFresh)], usage + usageOf(coin));
      assert added == Added(usageOf, c, o, coin, possible_overwrite);
      AddIsExact(usageOf, Base(), c, o, coin, possible_overwrite);
      TopReplaced(usageOf, db, caches, added);
      caches := caches[top := added];
      return false;
    }

    method SpendCoin(o: OutPoint) returns (ok: bool, moveout: Coin)
      requires Valid() && caches != []
      modifies this`caches
      ensures Valid() && |caches| == |old(caches)|
      ensures Views() == old(Views())[|caches| := old(TopView()) - {o}]
      ensures o in old(TopView()) ==> ok && moveout == old(TopView())[o]
      ensures ok && o !in old(TopView()) ==> moveout == Spent
    {
      hide Overlay, Show, Total, SoundStack;
      ghost var view, before := TopView(), Views();
      var top := |caches| - 1;
      assert caches[..|caches|] == caches;
      moveout := Spent;
      ok := FetchCoin(top, o);
      assert caches[..|caches|] == caches;
      ghost var v2 := Views();
      TopIsSound(usageOf, db, caches);
      ShowIsProper(db, caches);
      if !ok {
        assert view - {o} == view;
        assert Views() == before[|caches| := view];
        return;
      }
      var c := caches[top];
      moveout := c.coins[o].coin;
      var entry := c.coins[o].(coin := Spent, isDirty := true);
      var spent := if c.coins[o].isFresh then c.coins - {o} else c.coins[o := entry];
      ShowIsProper(db, caches[..top]);
      SpendIsExact(usageOf, Base(), c, o);
      TopReplaced(usageOf, db, caches, SpentCache(usageOf, c, o));
      caches := caches[top := Cache(spent, c.usage - usageOf(c.coins[o].coin))];
    }

    method Uncache(o: OutPoint)
      requires Valid() && caches != []
      modifies this`caches
      ensures Valid() && Views() == old(Views()) && |caches| == |old(caches)|
      ensures var c := old(caches)[|old(caches)| - 1].coins;
              caches[|caches| - 1].coins == if o in c && !c[o].isDirty && !c[o].isFresh then c - {o} else c
    {
      hide Overlay, Show, Total;
      var top := |caches| - 1;
      var c := caches[top];
      if o in c.coins && !c.coins[o].isDirty && !c.coins[o].isFresh {
        ghost var cs := caches;
        ShowIsProper(db, caches[..top]);
        UncacheIsUnseen(usageOf, Base(), c, o);
        StackExchanged(usageOf, db, caches, top, Cache(c.coins - {o}, c.usage - usageOf(c.coins[o].coin)));
        caches := caches[top := Cache(c.coins - {o}, c.usage - usageOf(c.coins[o].coin))];
        assert Views() == ShowAll(db, cs);
      }
    }
  
    /** BatchWrite of cache i, handed the entries of the cache above; threw stands for the logic_error. */
    method BatchWrite(i: nat, mapCoins: CoinsMap) returns (threw: bool)
      requires i < |caches| && usageOf(Spent) == 0 && SoundStack(usageOf, db, caches[..i + 1])
      requires HonestAll(mapCoins, Show(db, caches[..i + 1]))
      modifies this`caches
      ensures !threw && |caches| == |old(caches)| &&
                (forall k :: 0 <= k < |caches| && k != i ==> caches[k] == old(caches[k]))
      ensures SoundStack(usageOf, db, caches[..i + 1])
      ensures Show(db, caches[..i + 1]) == Overlay(old(Show(db, caches[..i + 1])), mapCoins)
    {
      hide Overlay, Show, Total;
      ghost var cs := caches;
      ghost var base := Show(db, caches[..i]);
      WriteBackBegins(usageOf, db, caches, i);
      ghost var goal := Overlay(Overlay(base, caches[i].coins), mapCoins);
      var todo := mapCoins;
      var c := caches[i];
      while todo != map[]
        invariant caches == cs && WritingBack(usageOf, base, c, todo, goal)
        decreases |todo|
      {
        var o :| o in todo;
        var e := todo[o];
        WriteBackNext(usageOf, base, c, todo, goal, o);
        todo := todo - {o};
        if e.isDirty {
          if o !in c.coins {
            if !(e.isFresh && e.coin.Spent?) {
              c := Cache(c.coins[o := Entry(e.coin, true, e.isFresh)], c.usage + usageOf(e.coin));
            }
          } else {
            var us := c.coins[o];
            if e.isFresh && us.coin.Unspent? {
              return true;
            }
            if us.isFresh && e.coin.Spent? {
              c := Cache(c.coins - {o}, c.usage - usageOf(us.coin));
            } else {
              c := Cache(c.coins[o := us.(coin := e.coin, isDirty := true)],
                         c.usage - usageOf(us.coin) + usageOf(e.coin));
            }
          }
        }
      }
      caches := caches[i := c];
      WriteBackEnds(usageOf, db, cs, i, c, mapCoins);
      return false;
    }
  
    /** BatchWrite of the database. */
    method BatchWriteDb(mapCoins: CoinsMap)
      requires Proper(db) && HonestAll(mapCoins, db)
      modifies this`db
      ensures Proper(db) && db == Overlay(old(db), mapCoins)
    {
      hide Overlay;
      var todo := mapCoins;
      while todo != map[]
        invariant Proper(db) && HonestAll(todo, db) && Overlay(db, todo) == Overlay(old(db), mapCoins)
        decreases |todo|
      {
        var o :| o in todo;
        WrittenBack(db, todo, o);
        if todo[o].isDirty {
          db := if todo[o].coin.Spent? then db - {o} else db[o := todo[o].coin];
        }
        todo := todo - {o};
      }
      NothingOverlaid(db);
    }

    /** The entries of the top cache go to its parent, which then shows what the top showed. */
    method WriteTop() returns (threw: bool)
      requires Valid() && caches != []
      modifies this
      ensures !threw && |caches| == |old(caches)| && (|caches| > 1 ==> db == old(db))
      ensures forall k :: 0 <= k < |caches| - 2 ==> caches[k] == old(caches)[k]
      ensures SoundStack(usageOf, db, caches[..|caches| - 1])
      ensures Show(db, caches[..|caches| - 1]) == old(TopView())
    {
      hide Overlay, Show, Total;
      var top := |caches| - 1;
      assert caches[..|caches|] == caches;
      Layered(usageOf, db, caches, top);
      threw := false;
      if top == 0 {
        assert caches[..0] == [];
        ShowNone(db);
        BatchWriteDb(caches[top].coins);
        ShowNone(db);
      } else {
        Layered(usageOf, db, caches, top - 1);
        threw := BatchWrite(top - 1, caches[top].coins);
      }
    }

    /** The parent takes over the top view, and the top cache is empty. */
    method Flush() returns (threw: bool)
      requires Valid() && caches != []
      modifies this
      ensures !threw && Valid() && |caches| == |old(caches)|
      ensures caches[|caches| - 1] == EmptyCache
      ensures Views() == old(Views())[|caches| - 1 := old(TopView())]
    {
      hide SoundStack, Show;
      ghost var cs, before, view := caches, Views(), TopView();
      threw := WriteTop();
      if threw { return; }
      var top := |caches| - 1;
      ghost var ds := caches;
      caches := caches[top := EmptyCache];
      assert caches[..top] == ds[..top];
      Emptied(usageOf, db, caches);
      forall k | 0 <= k < top ensures Views()[k] == before[k] {
        assert caches[..k] == cs[..k];
      }
      assert cs[..|cs|] == cs && caches[..|caches|] == caches;
      assert Views()[top] == view;
    }

    /** One operation on the top cache: it does to the views what the plain machine does to its maps,
        hands out the same coin, and throws nothing. */
    method Perform(op: Op) returns (answer: Coin, threw: bool)
      requires Valid() && Legal(Views(), op)
      modifies this
      ensures Valid() && !threw
      ensures Views() == PlainStep(unspendable, old(Views()), op) && answer == PlainAnswer(old(Views()), op)
    {
      hide Overlay, Show, SoundStack;
      answer, threw := Spent, false;
      assert caches[..|caches|] == caches;
      assert Top(Views()) == TopView();
      match op
      case OpPush => Push();
      case OpPop => Pop();
      case OpAdd(o, coin, overwrite) => threw := AddCoin(o, coin, overwrite);
      case OpSpend(o) =>
        var ok, moveout := SpendCoin(o);
        answer := if ok then moveout else Spent;
      case OpGet(o) =>
        ghost var before := Views();
        var ok, coin := GetCoin(|caches| - 1, o);
        answer := if ok then coin else Spent;
      case OpUncache(o) => Uncache(o);
      case OpFlush => threw := Flush();
    }

    /** Every legal run of operations is indistinguishable from the same run on plain maps. */
    method Run(ops: seq<Op>) returns (answers: seq<Coin>, threw: bool)
      requires Valid() && LegalRun(unspendable, Views(), ops)
      modifies this
      ensures Valid() && !threw
      ensures Views() == PlainRun(unspendable, old(Views()), ops)
      ensures answers == PlainAnswers(unspendable, old(Views()), ops)
    {
      answers, threw := [], false;
      ghost var vs := Views();
      for i := 0 to |ops|
        invariant Valid() && !threw && LegalRun(unspendable, Views(), ops[i..])
        invariant PlainRun(unspendable, Views(), ops[i..]) == PlainRun(unspendable, vs, ops)
        invariant answers + PlainAnswers(unspendable, Views(), ops[i..]) == PlainAnswers(unspendable, vs, ops)
      {
        hide Overlay, Show, SoundStack, PlainStep, PlainAnswer, Legal, LegalRun, PlainRun, PlainAnswers;
        PlainNext(unspendable, Views(), ops, i);
        var answer;
        answer, threw := Perform(ops[i]);
        answers := answers + [answer];
      }
    }
  }

  lemma PlainNext(unspendable: Coin -> bool, vs: seq<View>, ops: seq<Op>, i: nat)
    requires i < |ops| && vs != [] && LegalRun(unspendable, vs, ops[i..])
    ensures Legal(vs, ops[i])
    ensures var us := PlainStep(unspendable, vs, ops[i]);
            && us != [] && LegalRun(unspendable, us, ops[i + 1..])
            && PlainRun(unspendable, vs, ops[i..]) == PlainRun(unspendable, us, ops[i + 1..])
            && PlainAnswers(unspendable, vs, ops[i..]) ==
                 [PlainAnswer(vs, ops[i])] + PlainAnswers(unspendable, us, ops[i + 1..])
  {
    assert ops[i..][0] == ops[i] && ops[i..][1..] == ops[i + 1..];
    hide PlainStep, Legal, PlainAnswer;
  }

  lemma Pushed(usageOf: Coin -> nat, db: View, cs: seq<Cache>)
    requires SoundStack(usageOf, db, cs)
    ensures SoundStack(usageOf, db, cs + [EmptyCache])
    ensures forall k :: 0 <= k <= |cs| ==> Show(db, (cs + [EmptyCache])[..k]) == Show(db, cs[..k])
    ensures Show(db, cs + [EmptyCache]) == Show(db, cs)
  {
    var ds := cs + [EmptyCache];
    forall k | 0 <= k <= |cs| ensures ds[..k] == cs[..k] {}
    assert cs[..|cs|] == cs;
    ShowIsProper(db, cs);
    NothingOverlaid(Show(db, cs));
    ShowNext(db, ds, |cs|);
    assert ds[..|cs| + 1] == ds;
  }

  lemma ShowAt(db: View, cs: seq<Cache>, i: nat, o: OutPoint)
    requires Proper(db) && i < |cs|
    ensures Proper(Show(db, cs[..i])) && Proper(Show(db, cs[..i + 1]))
    ensures Lookup(Show(db, cs[..i + 1]), o) ==
              if o in cs[i].coins then cs[i].coins[o].coin else Lookup(Show(db, cs[..i]), o)
  {
    ShowIsProper(db, cs[..i]);
    ShowIsProper(db, cs[..i + 1]);
    ShowNext(db, cs, i);
    OverlayAt(Show(db, cs[..i]), cs[i].coins, o);
  }

  lemma ShowNone(db: View)
    ensures Show(db, []) == db
  {}

  /** Copying a coin from the parent into a cache is invisible. */
  lemma Filled(usageOf: Coin -> nat, db: View, cs: seq<Cache>, i: nat, o: OutPoint, coin: Coin)
    requires SoundStack(usageOf, db, cs) && i < |cs| && o !in cs[i].coins
    requires o in Show(db, cs[..i]) && Show(db, cs[..i])[o] == coin
    ensures coin.Unspent?
    ensures var ds := cs[i := Cache(cs[i].coins[o := Entry(coin, false, false)], cs[i].usage + usageOf(coin))];
            && SoundStack(usageOf, db, ds)
            && (forall k :: 0 <= k <= |cs| ==> Show(db, ds[..k]) == Show(db, cs[..k]))
            && Lookup(Show(db, ds[..i + 1]), o) == coin
  {
    var base := Show(db, cs[..i]);
    hide Show, Total;
    ShowIsProper(db, cs[..i]);
    var e := Entry(coin, false, false);
    var c := Cache(cs[i].coins[o := e], cs[i].usage + usageOf(coin));
    TotalWith(usageOf, cs[i].coins, o, e);
    EntrySet(base, cs[i].coins, o, e);
    assert Overlay(base, c.coins) == Overlay(base, cs[i].coins);
    hide Overlay;
    StackExchanged(usageOf, db, cs, i, c);
    ShowAt(db, cs[i := c], i, o);
  }

  lemma TopIsSound(usageOf: Coin -> nat, db: View, cs: seq<Cache>)
    requires SoundStack(usageOf, db, cs) && cs != []
    ensures Proper(db) && Sound(usageOf, cs[|cs| - 1], Show(db, cs[..|cs| - 1]))
  {}

  lemma TopReplacedViews(db: View, cs: seq<Cache>, c: Cache)
    requires cs != []
    ensures var top, ds := |cs| - 1, cs[|cs| - 1 := c];
            && Show(db, cs) == Overlay(Show(db, cs[..top]), cs[top].coins)
            && ShowAll(db, ds) == ShowAll(db, cs)[|cs| := Overlay(Show(db, cs[..top]), c.coins)]
  {
    var top, ds := |cs| - 1, cs[|cs| - 1 := c];
    assert ds[..|cs|] == ds && cs[..|cs|] == cs;
    ShowNext(db, cs, top);
    ShowNext(db, ds, top);
    hide Overlay, Show;
    forall k | 0 <= k < |cs| ensures ds[..k] == cs[..k] {}
  }

  lemma TopReplacedSound(usageOf: Coin -> nat, db: View, cs: seq<Cache>, c: Cache)
    requires SoundStack(usageOf, db, cs) && cs != []
    ensures SoundStack(usageOf, db, cs[|cs| - 1 := c]) <==> Sound(usageOf, c, Show(db, cs[..|cs| - 1]))
  {
    hide Show, Sound;
    var top, ds := |cs| - 1, cs[|cs| - 1 := c];
    forall k | 0 <= k < |cs| ensures ds[..k] == cs[..k] {}
    if SoundStack(usageOf, db, ds) { assert Sound(usageOf, ds[top], Show(db, ds[..top])); }
  }

  /** TopExchanged in terms of all views. */
  lemma TopReplaced(usageOf: Coin -> nat, db: View, cs: seq<Cache>, c: Cache)
    requires SoundStack(usageOf, db, cs) && cs != []
    ensures var top, ds := |cs| - 1, cs[|cs| - 1 := c];
            && Proper(Show(db, cs[..top])) && Proper(Show(db, cs))
            && Show(db, cs) == Overlay(Show(db, cs[..top]), cs[top].coins)
            && ShowAll(db, ds) == ShowAll(db, cs)[|cs| := Overlay(Show(db, cs[..top]), c.coins)]
            && (SoundStack(usageOf, db, ds) <==> Sound(usageOf, c, Show(db, cs[..top])))
  {
    TopReplacedViews(db, cs, c);
    TopReplacedSound(usageOf, db, cs, c);
    hide Overlay, Sound, Show, ShowAll;
    ShowIsProper(db, cs[..|cs| - 1]);
    ShowIsProper(db, cs);
  }

  /** A change of the top cache's count of memory alone is invisible, and unsound. */
  lemma UsageOff(usageOf: Coin -> nat, db: View, cs: seq<Cache>, usage: int)
    requires SoundStack(usageOf, db, cs) && cs != []
    ensures var ds := cs[|cs| - 1 := Cache(cs[|cs| - 1].coins, usage)];
            && ShowAll(db, ds) == ShowAll(db, cs)
            && (SoundStack(usageOf, db, ds) <==> usage == cs[|cs| - 1].usage)
  {
    hide Overlay, Total, HonestAll, Show;
    var top := |cs| - 1;
    TopReplaced(usageOf, db, cs, Cache(cs[top].coins, usage));
    assert cs[..|cs|] == cs;
    assert Sound(usageOf, cs[top], Show(db, cs[..top]));
    assert ShowAll(db, cs)[|cs|] == Show(db, cs);
  }

  /** c is a sound parent, and with todo still on top it shows goal. */
  ghost predicate WritingBack(usageOf: Coin -> nat, base: View, c: Cache, todo: CoinsMap, goal: View) {
    && Proper(base) && Sound(usageOf, c, base) && Proper(Overlay(base, c.coins))
    && HonestAll(todo, Overlay(base, c.coins)) && Overlay(Overlay(base, c.coins), todo) == goal
  }

  lemma WriteBackBegins(usageOf: Coin -> nat, db: View, cs: seq<Cache>, i: nat)
    requires i < |cs| && SoundStack(usageOf, db, cs[..i + 1])
    ensures Proper(Show(db, cs[..i])) && Proper(Overlay(Show(db, cs[..i]), cs[i].coins))
    ensures Sound(usageOf, cs[i], Show(db, cs[..i]))
    ensures Show(db, cs[..i + 1]) == Overlay(Show(db, cs[..i]), cs[i].coins)
  {
    hide Overlay, Sound;
    ShowIsProper(db, cs[..i]);
    ShowIsProper(db, cs[..i + 1]);
    ShowNext(db, cs, i);
    assert cs[..i + 1][..i] == cs[..i];
    assert Sound(usageOf, cs[..i + 1][i], Show(db, cs[..i + 1][..i]));
  }

  /** The parent after one entry of the child, as the loop updates it. */
  ghost function Absorbed(usageOf: Coin -> nat, c: Cache, o: OutPoint, e: Entry): Cache {
    if !e.isDirty then c
    else Cache(Merged(c.coins, o, e),
               if o !in c.coins then if e.isFresh && e.coin.Spent? then c.usage else c.usage + usageOf(e.coin)
               else if c.coins[o].isFresh && e.coin.Spent? then c.usage - usageOf(c.coins[o].coin)
               else c.usage - usageOf(c.coins[o].coin) + usageOf(e.coin))
  }

  lemma AbsorbedTotal(usageOf: Coin -> nat, c: Cache, o: OutPoint, e: Entry)
    requires c.usage == Total(usageOf, c.coins) && e.isDirty
    ensures Absorbed(usageOf, c, o, e).usage == Total(usageOf, Absorbed(usageOf, c, o, e).coins)
  {
    hide Total;
    if o in c.coins && c.coins[o].isFresh && e.coin.Spent? {
      TotalWithout(usageOf, c.coins, o);
    } else {
      TotalWith(usageOf, c.coins, o, Entry(e.coin, true, if o in c.coins then c.coins[o].isFresh else e.isFresh));
    }
  }

  lemma WriteBackNext(usageOf: Coin -> nat, base: View, c: Cache, todo: CoinsMap, goal: View, o: OutPoint)
    requires WritingBack(usageOf, base, c, todo, goal) && o in todo
    ensures WritingBack(usageOf, base, Absorbed(usageOf, c, o, todo[o]), todo - {o}, goal)
    ensures todo[o].isDirty && o in c.coins && todo[o].isFresh ==> c.coins[o].coin.Spent?
  {
    hide Overlay, Total;
    var e := todo[o];
    WrittenBack(Overlay(base, c.coins), todo, o);
    if e.isDirty {
      MergeIsExact(base, c.coins, o, e);
      AbsorbedTotal(usageOf, c, o, e);
    }
  }

  lemma WriteBackEnds(usageOf: Coin -> nat, db: View, cs: seq<Cache>, i: nat, c: Cache, coins: CoinsMap)
    requires i < |cs| && SoundStack(usageOf, db, cs[..i + 1])
    requires WritingBack(usageOf, Show(db, cs[..i]), c, map[], Overlay(Show(db, cs[..i + 1]), coins))
    ensures var ds := cs[i := c];
            && SoundStack(usageOf, db, ds[..i + 1])
            && Show(db, ds[..i + 1]) == Overlay(Show(db, cs[..i + 1]), coins)
  {
    hide Overlay, Sound, Total;
    NothingOverlaid(Overlay(Show(db, cs[..i]), c.coins));
    assert cs[..i + 1][..i] == cs[..i];
    TopExchanged(usageOf, db, cs[..i + 1], c);
    assert cs[i := c][..i + 1] == cs[..i + 1][i := c];
  }

  lemma Layered(usageOf: Coin -> nat, db: View, cs: seq<Cache>, i: nat)
    requires i < |cs| && SoundStack(usageOf, db, cs)
    ensures SoundStack(usageOf, db, cs[..i + 1]) && Proper(Show(db, cs[..i]))
    ensures HonestAll(cs[i].coins, Show(db, cs[..i]))
    ensures Show(db, cs[..i + 1]) == Overlay(Show(db, cs[..i]), cs[i].coins)
  {
    hide Overlay, HonestAll, Total;
    ShowIsProper(db, cs[..i]);
    ShowNext(db, cs, i);
    forall k | 0 <= k <= i ensures cs[..i + 1][..k] == cs[..k] {}
  }

  lemma Emptied(usageOf: Coin -> nat, db: View, cs: seq<Cache>)
    requires cs != [] && SoundStack(usageOf, db, cs[..|cs| - 1]) && cs[|cs| - 1] == EmptyCache
    ensures SoundStack(usageOf, db, cs) && Show(db, cs) == Show(db, cs[..|cs| - 1])
  {
    var ds := cs[..|cs| - 1];
    Pushed(usageOf, db, ds);
    assert cs == ds + [EmptyCache];
  }
}
