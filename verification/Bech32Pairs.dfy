/** Any two substitutions at most 88 symbols apart change the Bech32 remainder. The word is seen as six symbols of the
    field with 32 elements: shifting commutes with multiplying by a symbol, so following the powers of x is enough. */
module Bech32Pairs {
  import opened Bech32Checksum

  /** A symbol as an element of the field, numbered by its bits. */
  type Sym = bv5

  /** Six symbols, the lowest first. */
  datatype Six5 = Six5(a0: Sym, a1: Sym, a2: Sym, a3: Sym, a4: Sym, a5: Sym)

  function If(on: bool, g: Sym): Sym { if on then g else 0 }

  function Twice(s: Sym): Sym { (s << 1) ^ If(s & 16 != 0, 9) }

  function Plus(s: Sym, t: Sym): Sym { s ^ t }

  function Times(t: Sym, g: Sym): Sym {
    Pick(t, g, Twice(g), Twice(Twice(g)), Twice(Twice(Twice(g))), Twice(Twice(Twice(Twice(g)))))
  }

  /** The sum of those of the five whose bit of t is set. */
  function Pick(t: Sym, g0: Sym, g1: Sym, g2: Sym, g3: Sym, g4: Sym): Sym {
    SumIf(t & 1 != 0, t & 2 != 0, t & 4 != 0, t & 8 != 0, t & 16 != 0, g0, g1, g2, g3, g4)
  }

  function SumIf(b0: bool, b1: bool, b2: bool, b3: bool, b4: bool, g0: Sym, g1: Sym, g2: Sym, g3: Sym, g4: Sym): Sym {
    Plus(Plus(Plus(Plus(If(b0, g0), If(b1, g1)), If(b2, g2)), If(b3, g3)), If(b4, g4))
  }

  /** One turn without a symbol fed: times x, less the generator times what is shifted out. */
  function Shift(w: Six5): Six5 {
    var t := w.a5;
    Six5(Times(t, 18), Plus(w.a0, Times(t, 29)), Plus(w.a1, Times(t, 21)), Plus(w.a2, Times(t, 20)),
         Plus(w.a3, Times(t, 22)), Plus(w.a4, Times(t, 29)))
  }

  function Shifted(w: Six5, k: nat): Six5
    decreases k
  {
    if k == 0 then w else Shifted(Shift(w), k - 1)
  }

  function Constant(s: Sym): Six5 { Six5(s, 0, 0, 0, 0, 0) }

  predicate IsConstant(w: Six5) { w.a1 == 0 && w.a2 == 0 && w.a3 == 0 && w.a4 == 0 && w.a5 == 0 }

  // ---- shifting commutes with multiplying by a symbol

  function TwiceAll(w: Six5): Six5 {
    Six5(Twice(w.a0), Twice(w.a1), Twice(w.a2), Twice(w.a3), Twice(w.a4), Twice(w.a5))
  }

  lemma TimesTwice(t: Sym, g: Sym)
    ensures Times(Twice(t), g) == Twice(Times(t, g))
  {}

  lemma TwiceSum(s: Sym, t: Sym)
    ensures Twice(Plus(s, t)) == Plus(Twice(s), Twice(t))
  {}

  lemma FedTwice(s: Sym, t: Sym, g: Sym)
    ensures Plus(Twice(s), Times(Twice(t), g)) == Twice(Plus(s, Times(t, g)))
  {
    hide Twice, Times, Plus;
    TimesTwice(t, g);
    TwiceSum(s, Times(t, g));
  }

  lemma ShiftTwice(w: Six5)
    ensures Shift(TwiceAll(w)) == TwiceAll(Shift(w))
  {
    hide Twice, Times, Plus;
    TimesTwice(w.a5, 18);
    FedTwice(w.a0, w.a5, 29);
    FedTwice(w.a1, w.a5, 21);
    FedTwice(w.a2, w.a5, 20);
    FedTwice(w.a3, w.a5, 22);
    FedTwice(w.a4, w.a5, 29);
  }

  lemma {:induction false} ShiftedTwice(w: Six5, k: nat)
    ensures Shifted(TwiceAll(w), k) == TwiceAll(Shifted(w, k))
    decreases k
  {
    hide Shift, TwiceAll;
    if k > 0 {
      ShiftTwice(w);
      ShiftedTwice(Shift(w), k - 1);
    }
  }

  /** How often a symbol has to be doubled to give one: doubling goes through all symbols but zero. */
  function Doublings(s: Sym): nat {
    if s == 1 then 0 else if s == 2 then 30 else if s == 3 then 17 else if s == 4 then 29 else
    if s == 5 then 3 else if s == 6 then 16 else if s == 7 then 9 else if s == 8 then 28 else
    if s == 9 then 26 else if s == 10 then 2 else if s == 11 then 5 else if s == 12 then 15 else
    if s == 13 then 24 else if s == 14 then 8 else if s == 15 then 20 else if s == 16 then 27 else
    if s == 17 then 6 else if s == 18 then 25 else if s == 19 then 21 else if s == 20 then 1 else
    if s == 21 then 18 else if s == 22 then 4 else if s == 23 then 10 else if s == 24 then 14 else
    if s == 25 then 13 else if s == 26 then 23 else if s == 27 then 12 else if s == 28 then 7 else
    if s == 29 then 22 else if s == 30 then 19 else if s == 31 then 11 else 0
  }

  lemma OneDoublingLess(s: Sym)
    requires s != 0 && s != 1
    ensures Twice(s) != 0 && Doublings(Twice(s)) == Doublings(s) - 1
  {}

  /** If some symbol times x to the k is a symbol, then x to the k is one. */
  lemma {:induction false} DownToOne(s: Sym, k: nat)
    requires s != 0 && IsConstant(Shifted(Constant(s), k))
    ensures IsConstant(Shifted(Constant(1), k))
    decreases Doublings(s)
  {
    if s != 1 {
      hide Shifted;
      assert TwiceAll(Constant(s)) == Constant(Twice(s));
      ShiftedTwice(Constant(s), k);
      assert IsConstant(TwiceAll(Shifted(Constant(s), k)));
      OneDoublingLess(s);
      DownToOne(Twice(s), k);
    }
  }

  // ---- the powers of x

  /** None of n words, each the shift of the one before and w the first, is a symbol; z follows the last. */
  predicate NoneConstant(w: Six5, n: nat, z: Six5)
    decreases n
  {
    if n == 0 then w == z else !IsConstant(w) && NoneConstant(Shift(w), n - 1, z)
  }

  lemma NoneLeft(z: Six5)
    ensures NoneConstant(z, 0, z)
  {}

  lemma Link(a: Six5, b: Six5, n: nat, z: Six5)
    requires Shift(a) == b && !IsConstant(a) && NoneConstant(b, n, z)
    ensures NoneConstant(a, n + 1, z)
  {
    hide Shift, IsConstant;
  }

  lemma PowersFrom1()
    ensures NoneConstant(Six5(0, 1, 0, 0, 0, 0), 11, Six5(10, 24, 7, 4, 31, 14))
  {
    hide NoneConstant;
    var z := Six5(10, 24, 7, 4, 31, 14);
    NoneLeft(z);
    Link(Six5(26, 14, 3, 4, 12, 14), z, 0, z);
    Link(Six5(1, 5, 6, 6, 1, 4), Six5(26, 14, 3, 4, 12, 14), 1, z);
    Link(Six5(13, 11, 26, 22, 12, 17), Six5(1, 5, 6, 6, 1, 4), 2, z);
    Link(Six5(24, 25, 23, 9, 2, 2), Six5(13, 11, 26, 22, 12, 17), 3, z);
    Link(Six5(6, 11, 26, 15, 29, 15), Six5(24, 25, 23, 9, 2, 2), 4, z);
    Link(Six5(18, 29, 21, 20, 22, 29), Six5(6, 11, 26, 15, 29, 15), 5, z);
    Link(Six5(0, 0, 0, 0, 0, 1), Six5(18, 29, 21, 20, 22, 29), 6, z);
    Link(Six5(0, 0, 0, 0, 1, 0), Six5(0, 0, 0, 0, 0, 1), 7, z);
    Link(Six5(0, 0, 0, 1, 0, 0), Six5(0, 0, 0, 0, 1, 0), 8, z);
    Link(Six5(0, 0, 1, 0, 0, 0), Six5(0, 0, 0, 1, 0, 0), 9, z);
    Link(Six5(0, 1, 0, 0, 0, 0), Six5(0, 0, 1, 0, 0, 0), 10, z);
  }

  lemma PowersFrom12()
    ensures NoneConstant(Six5(10, 24, 7, 4, 31, 14), 11, Six5(15, 3, 9, 29, 12, 5))
  {
    hide NoneConstant;
    var z := Six5(15, 3, 9, 29, 12, 5);
    NoneLeft(z);
    Link(Six5(0, 16, 13, 14, 6, 9), z, 0, z);
    Link(Six5(16, 13, 14, 6, 9, 0), Six5(0, 16, 13, 14, 6, 9), 1, z);
    Link(Six5(0, 1, 3, 24, 13, 10), Six5(16, 13, 14, 6, 9, 0), 2, z);
    Link(Six5(1, 3, 24, 13, 10, 0), Six5(0, 1, 3, 24, 13, 10), 3, z);
    Link(Six5(11, 21, 17, 29, 8, 17), Six5(1, 3, 24, 13, 10, 0), 4, z);
    Link(Six5(31, 21, 6, 4, 27, 31), Six5(11, 21, 17, 29, 8, 17), 5, z);
    Link(Six5(27, 16, 17, 8, 17, 3), Six5(31, 21, 6, 4, 27, 31), 6, z);
    Link(Six5(23, 26, 22, 12, 4, 21), Six5(27, 16, 17, 8, 17, 3), 7, z);
    Link(Six5(6, 19, 15, 11, 9, 6), Six5(23, 26, 22, 12, 4, 21), 8, z);
    Link(Six5(10, 8, 17, 0, 31, 29), Six5(6, 19, 15, 11, 9, 6), 9, z);
    Link(Six5(10, 24, 7, 4, 31, 14), Six5(10, 8, 17, 0, 31, 29), 10, z);
  }

  lemma PowersFrom23()
    ensures NoneConstant(Six5(15, 3, 9, 29, 12, 5), 11, Six5(15, 22, 10, 10, 18, 0))
  {
    hide NoneConstant;
    var z := Six5(15, 22, 10, 10, 18, 0);
    NoneLeft(z);
    Link(Six5(21, 19, 26, 16, 3, 9), z, 0, z);
    Link(Six5(31, 5, 2, 11, 5, 13), Six5(21, 19, 26, 16, 3, 9), 1, z);
    Link(Six5(11, 20, 30, 22, 3, 3), Six5(31, 5, 2, 11, 5, 13), 2, z);
    Link(Six5(30, 26, 13, 15, 9, 31), Six5(11, 20, 30, 22, 3, 3), 3, z);
    Link(Six5(28, 22, 6, 13, 25, 18), Six5(30, 26, 13, 15, 9, 31), 4, z);
    Link(Six5(0, 7, 21, 26, 4, 25), Six5(28, 22, 6, 13, 25, 18), 5, z);
    Link(Six5(7, 21, 26, 4, 25, 0), Six5(0, 7, 21, 26, 4, 25), 6, z);
    Link(Six5(4, 16, 2, 7, 17, 12), Six5(7, 21, 26, 4, 25, 0), 7, z);
    Link(Six5(25, 31, 12, 31, 5, 22), Six5(4, 16, 2, 7, 17, 12), 8, z);
    Link(Six5(8, 29, 16, 31, 1, 30), Six5(25, 31, 12, 31, 5, 22), 9, z);
    Link(Six5(15, 3, 9, 29, 12, 5), Six5(8, 29, 16, 31, 1, 30), 10, z);
  }

  lemma PowersFrom34()
    ensures NoneConstant(Six5(15, 22, 10, 10, 18, 0), 11, Six5(31, 6, 31, 4, 17, 16))
  {
    hide NoneConstant;
    var z := Six5(31, 6, 31, 4, 17, 16);
    NoneLeft(z);
    Link(Six5(8, 9, 17, 2, 30, 3), z, 0, z);
    Link(Six5(27, 2, 20, 2, 17, 5), Six5(8, 9, 17, 2, 30, 3), 1, z);
    Link(Six5(5, 31, 28, 12, 2, 21), Six5(27, 2, 20, 2, 17, 5), 2, z);
    Link(Six5(30, 12, 27, 27, 20, 7), Six5(5, 31, 28, 12, 2, 21), 3, z);
    Link(Six5(10, 0, 18, 16, 1, 18), Six5(30, 12, 27, 27, 20, 7), 4, z);
    Link(Six5(2, 27, 23, 26, 16, 14), Six5(10, 0, 18, 16, 1, 18), 5, z);
    Link(Six5(11, 13, 11, 23, 30, 11), Six5(2, 27, 23, 26, 16, 14), 6, z);
    Link(Six5(7, 15, 12, 18, 1, 31), Six5(11, 13, 11, 23, 30, 11), 7, z);
    Link(Six5(30, 6, 20, 31, 14, 12), Six5(7, 15, 12, 18, 1, 31), 8, z);
    Link(Six5(0, 15, 22, 10, 10, 18), Six5(30, 6, 20, 31, 14, 12), 9, z);
    Link(Six5(15, 22, 10, 10, 18, 0), Six5(0, 15, 22, 10, 10, 18), 10, z);
  }

  lemma PowersFrom45()
    ensures NoneConstant(Six5(31, 6, 31, 4, 17, 16), 11, Six5(25, 18, 17, 4, 21, 21))
  {
    hide NoneConstant;
    var z := Six5(25, 18, 17, 4, 21, 21);
    NoneLeft(z);
    Link(Six5(5, 0, 11, 15, 2, 30), z, 0, z);
    Link(Six5(1, 27, 24, 27, 31, 7), Six5(5, 0, 11, 15, 2, 30), 1, z);
    Link(Six5(19, 21, 7, 8, 15, 17), Six5(1, 27, 24, 27, 31, 7), 2, z);
    Link(Six5(0, 31, 0, 14, 4, 16), Six5(19, 21, 7, 8, 15, 17), 3, z);
    Link(Six5(31, 0, 14, 4, 16, 0), Six5(0, 31, 0, 14, 4, 16), 4, z);
    Link(Six5(14, 24, 17, 3, 14, 3), Six5(31, 0, 14, 4, 16, 0), 5, z);
    Link(Six5(19, 5, 15, 27, 8, 24), Six5(14, 24, 17, 3, 14, 3), 6, z);
    Link(Six5(16, 23, 19, 9, 13, 16), Six5(19, 5, 15, 27, 8, 24), 7, z);
    Link(Six5(26, 28, 12, 28, 29, 10), Six5(16, 23, 19, 9, 13, 16), 8, z);
    Link(Six5(19, 10, 30, 23, 5, 4), Six5(26, 28, 12, 28, 29, 10), 9, z);
    Link(Six5(31, 6, 31, 4, 17, 16), Six5(19, 10, 30, 23, 5, 4), 10, z);
  }

  lemma PowersFrom56()
    ensures NoneConstant(Six5(25, 18, 17, 4, 21, 21), 11, Six5(7, 9, 25, 6, 6, 20))
  {
    hide NoneConstant;
    var z := Six5(7, 9, 25, 6, 6, 20);
    NoneLeft(z);
    Link(Six5(24, 19, 0, 24, 5, 12), z, 0, z);
    Link(Six5(12, 28, 11, 8, 19, 15), Six5(24, 19, 0, 24, 5, 12), 1, z);
    Link(Six5(7, 5, 21, 1, 20, 19), Six5(12, 28, 11, 8, 19, 15), 2, z);
    Link(Six5(20, 31, 7, 10, 2, 12), Six5(7, 5, 21, 1, 20, 19), 3, z);
    Link(Six5(27, 21, 4, 29, 8, 28), Six5(20, 31, 7, 10, 2, 12), 4, z);
    Link(Six5(18, 15, 3, 21, 27, 21), Six5(27, 21, 4, 29, 8, 28), 5, z);
    Link(Six5(18, 22, 1, 13, 8, 1), Six5(18, 15, 3, 21, 27, 21), 6, z);
    Link(Six5(11, 20, 25, 30, 28, 1), Six5(18, 22, 1, 13, 8, 1), 7, z);
    Link(Six5(30, 29, 5, 16, 11, 31), Six5(11, 20, 25, 30, 28, 1), 8, z);
    Link(Six5(27, 30, 25, 15, 25, 18), Six5(30, 29, 5, 16, 11, 31), 9, z);
    Link(Six5(25, 18, 17, 4, 21, 21), Six5(27, 30, 25, 15, 25, 18), 10, z);
  }

  lemma PowersFrom67()
    ensures NoneConstant(Six5(7, 9, 25, 6, 6, 20), 11, Six5(20, 4, 25, 7, 10, 20))
  {
    hide NoneConstant;
    var z := Six5(20, 4, 25, 7, 10, 20);
    NoneLeft(z);
    Link(Six5(0, 11, 9, 21, 16, 28), z, 0, z);
    Link(Six5(11, 9, 21, 16, 28, 0), Six5(0, 11, 9, 21, 16, 28), 1, z);
    Link(Six5(3, 17, 11, 16, 10, 31), Six5(11, 9, 21, 16, 28, 0), 2, z);
    Link(Six5(9, 28, 29, 26, 7, 26), Six5(3, 17, 11, 16, 10, 31), 3, z);
    Link(Six5(6, 3, 16, 12, 0, 20), Six5(9, 28, 29, 26, 7, 26), 4, z);
    Link(Six5(26, 23, 22, 9, 13, 29), Six5(6, 3, 16, 12, 0, 20), 5, z);
    Link(Six5(24, 16, 11, 7, 18, 4), Six5(26, 23, 22, 9, 13, 29), 6, z);
    Link(Six5(15, 23, 20, 31, 27, 15), Six5(24, 16, 11, 7, 18, 4), 7, z);
    Link(Six5(20, 13, 15, 25, 12, 9), Six5(15, 23, 20, 31, 27, 15), 8, z);
    Link(Six5(9, 29, 23, 19, 13, 28), Six5(20, 13, 15, 25, 12, 9), 9, z);
    Link(Six5(7, 9, 25, 6, 6, 20), Six5(9, 29, 23, 19, 13, 28), 10, z);
  }

  lemma PowersFrom78()
    ensures NoneConstant(Six5(20, 4, 25, 7, 10, 20), 11, Six5(16, 19, 30, 13, 7, 8))
  {
    hide NoneConstant;
    var z := Six5(16, 19, 30, 13, 7, 8);
    NoneLeft(z);
    Link(Six5(30, 17, 8, 22, 5, 10), z, 0, z);
    Link(Six5(23, 19, 31, 1, 12, 18), Six5(30, 17, 8, 22, 5, 10), 1, z);
    Link(Six5(15, 26, 2, 3, 14, 6), Six5(23, 19, 31, 1, 12, 18), 2, z);
    Link(Six5(25, 27, 19, 12, 5, 9), Six5(15, 26, 2, 3, 14, 6), 3, z);
    Link(Six5(12, 2, 3, 31, 30, 30), Six5(25, 27, 19, 12, 5, 9), 4, z);
    Link(Six5(25, 13, 2, 12, 5, 19), Six5(12, 2, 3, 31, 30, 30), 5, z);
    Link(Six5(26, 19, 3, 31, 4, 30), Six5(25, 13, 2, 12, 5, 19), 6, z);
    Link(Six5(28, 5, 29, 14, 17, 4), Six5(26, 19, 3, 31, 4, 30), 7, z);
    Link(Six5(19, 28, 22, 18, 18, 25), Six5(28, 5, 29, 14, 17, 4), 8, z);
    Link(Six5(9, 14, 26, 19, 12, 16), Six5(19, 28, 22, 18, 18, 25), 9, z);
    Link(Six5(20, 4, 25, 7, 10, 20), Six5(9, 14, 26, 19, 12, 16), 10, z);
  }

  lemma {:induction false} NoneConstantAt(w: Six5, n: nat, z: Six5, k: nat)
    requires NoneConstant(w, n, z)
    ensures k < n ==> !IsConstant(Shifted(w, k))
    ensures Shifted(w, n) == z
    decreases n
  {
    hide Shift, IsConstant;
    if n > 0 { NoneConstantAt(Shift(w), n - 1, z, if k > 0 then k - 1 else 0); }
  }

  lemma {:induction false} ShiftedMore(w: Six5, j: nat, k: nat)
    ensures Shifted(Shifted(w, j), k) == Shifted(w, j + k)
    decreases j
  {
    hide Shift;
    if j > 0 { ShiftedMore(Shift(w), j - 1, k); }
  }

  /** One stretch of the powers of x after another. */
  lemma Stretch(from: nat, w: Six5, z: Six5, k: nat)
    requires Shifted(Constant(1), from) == w && NoneConstant(w, 11, z)
    ensures Shifted(Constant(1), from + 11) == z
    ensures from <= k < from + 11 ==> !IsConstant(Shifted(Constant(1), k))
  {
    hide Shift, IsConstant, Shifted, NoneConstant;
    NoneConstantAt(w, 11, z, if from <= k < from + 11 then k - from else 0);
    ShiftedMore(Constant(1), from, 11);
    if from <= k < from + 11 { ShiftedMore(Constant(1), from, k - from); }
  }

  lemma TimesZero(g: Sym, s: Sym)
    ensures Times(0, g) == 0 && Plus(s, 0) == s
  {}

  lemma FirstPower()
    ensures Shifted(Constant(1), 1) == Six5(0, 1, 0, 0, 0, 0)
  {
    TimesZero(18, 0);
    TimesZero(29, 1);
    TimesZero(21, 0);
    TimesZero(20, 0);
    TimesZero(22, 0);
    TimesZero(29, 0);
    hide Times, Plus;
    var w := Shift(Constant(1));
    assert w == Six5(0, 1, 0, 0, 0, 0);
    hide Shift;
    assert Shifted(w, 0) == w;
  }

  /** No power of x from the first to the eighty-eighth is a symbol. */
  lemma PowersOfX(k: nat)
    requires 1 <= k <= 88
    ensures !IsConstant(Shifted(Constant(1), k))
  {
    hide Shift, IsConstant, Shifted, NoneConstant, Constant;
    FirstPower();
    PowersFrom1();
    PowersFrom12();
    PowersFrom23();
    PowersFrom34();
    PowersFrom45();
    PowersFrom56();
    PowersFrom67();
    PowersFrom78();
    Stretch(1, Six5(0, 1, 0, 0, 0, 0), Six5(10, 24, 7, 4, 31, 14), k);
    Stretch(12, Six5(10, 24, 7, 4, 31, 14), Six5(15, 3, 9, 29, 12, 5), k);
    Stretch(23, Six5(15, 3, 9, 29, 12, 5), Six5(15, 22, 10, 10, 18, 0), k);
    Stretch(34, Six5(15, 22, 10, 10, 18, 0), Six5(31, 6, 31, 4, 17, 16), k);
    Stretch(45, Six5(31, 6, 31, 4, 17, 16), Six5(25, 18, 17, 4, 21, 21), k);
    Stretch(56, Six5(25, 18, 17, 4, 21, 21), Six5(7, 9, 25, 6, 6, 20), k);
    Stretch(67, Six5(7, 9, 25, 6, 6, 20), Six5(20, 4, 25, 7, 10, 20), k);
    Stretch(78, Six5(20, 4, 25, 7, 10, 20), Six5(16, 19, 30, 13, 7, 8), k);
  }

  /** Nor is any symbol but zero times such a power. */
  lemma NeverConstant(s: Sym, k: nat)
    requires s != 0 && 1 <= k <= 88
    ensures !IsConstant(Shifted(Constant(s), k))
  {
    hide Shifted, IsConstant;
    PowersOfX(k);
    if IsConstant(Shifted(Constant(s), k)) { DownToOne(s, k); }
  }

  // ---- symbols and words as bits

  function Nth(s: Sym, r: nat): bool {
    if r == 0 then s & 1 != 0 else if r == 1 then s & 2 != 0 else if r == 2 then s & 4 != 0
    else if r == 3 then s & 8 != 0 else s & 16 != 0
  }

  function BitsOf(s: Sym): Symbol { seq(5, r requires 0 <= r < 5 => Nth(s, r)) }

  function FromBits(b: Symbol): Sym { If(b[0], 1) ^ If(b[1], 2) ^ If(b[2], 4) ^ If(b[3], 8) ^ If(b[4], 16) }

  lemma BitsOfFromBits(b: Symbol)
    ensures BitsOf(FromBits(b)) == b
  {
    var c := BitsOf(FromBits(b));
    assert c[0] == b[0] && c[1] == b[1] && c[2] == b[2] && c[3] == b[3] && c[4] == b[4];
  }

  function At(w: Six5, b: nat): Sym {
    match b case 0 => w.a0 case 1 => w.a1 case 2 => w.a2 case 3 => w.a3 case 4 => w.a4 case _ => w.a5
  }

  function WordOf(w: Six5): Word {
    seq(30, i requires 0 <= i < 30 => BitsOf(At(w, i / 5))[i % 5])
  }

  lemma FiveBitsOn(n: nat, i: nat)
    ensures Bit(n, i + 5) == Bit(n / 32, i)
  {
    assert Bit(n, i + 5) == Bit(n / 2, i + 4) == Bit(n / 2 / 2, i + 3);
    assert Bit(n / 2 / 2, i + 3) == Bit(n / 2 / 2 / 2, i + 2) == Bit(n / 2 / 2 / 2 / 2, i + 1);
    assert Bit(n / 2 / 2 / 2 / 2, i + 1) == Bit(n / 2 / 2 / 2 / 2 / 2, i);
  }

  /** The five bits of a number from a place on are those of a symbol. */
  ghost predicate Reads(n: nat, i: nat, s: Sym) {
    && Bit(n, i) == BitsOf(s)[0] && Bit(n, i + 1) == BitsOf(s)[1] && Bit(n, i + 2) == BitsOf(s)[2]
    && Bit(n, i + 3) == BitsOf(s)[3] && Bit(n, i + 4) == BitsOf(s)[4]
  }

  lemma ReadsOn(n: nat, i: nat, s: Sym)
    requires Reads(n / 32, i, s)
    ensures Reads(n, i + 5, s)
  {
    FiveBitsOn(n, i);
    FiveBitsOn(n, i + 1);
    FiveBitsOn(n, i + 2);
    FiveBitsOn(n, i + 3);
    FiveBitsOn(n, i + 4);
    hide Bit, BitsOf;
  }

  ghost predicate ReadsSix(n: nat, w: Six5) {
    && Reads(n, 0, w.a0) && Reads(n, 5, w.a1) && Reads(n, 10, w.a2)
    && Reads(n, 15, w.a3) && Reads(n, 20, w.a4) && Reads(n, 25, w.a5)
  }

  /** A number cut into symbols from the bottom. */
  lemma CutIsRead(n: nat, n1: nat, n2: nat, n3: nat, n4: nat, n5: nat, w: Six5)
    requires n1 == n / 32 && n2 == n1 / 32 && n3 == n2 / 32 && n4 == n3 / 32 && n5 == n4 / 32
    requires Reads(n, 0, w.a0) && Reads(n1, 0, w.a1) && Reads(n2, 0, w.a2)
    requires Reads(n3, 0, w.a3) && Reads(n4, 0, w.a4) && Reads(n5, 0, w.a5)
    ensures ReadsSix(n, w)
  {
    hide Reads;
    ReadsOn(n, 0, w.a1);
    ReadsOn(n1, 0, w.a2);
    ReadsOn(n, 5, w.a2);
    ReadsOn(n2, 0, w.a3);
    ReadsOn(n1, 5, w.a3);
    ReadsOn(n, 10, w.a3);
    ReadsOn(n3, 0, w.a4);
    ReadsOn(n2, 5, w.a4);
    ReadsOn(n1, 10, w.a4);
    ReadsOn(n, 15, w.a4);
    ReadsOn(n4, 0, w.a5);
    ReadsOn(n3, 5, w.a5);
    ReadsOn(n2, 10, w.a5);
    ReadsOn(n1, 15, w.a5);
    ReadsOn(n, 20, w.a5);
  }

  /** The source's five constants are the generator times the powers of two. */
  lemma Generator0()
    ensures ReadsSix(0x3b6a57b2, Six5(18, 29, 21, 20, 22, 29))
  {
    CutIsRead(0x3b6a57b2, 0x1db52bd, 0xeda95, 0x76d4, 0x3b6, 0x1d, Six5(18, 29, 21, 20, 22, 29));
  }

  lemma Generator1()
    ensures ReadsSix(0x26508e6d, Six5(13, 19, 3, 1, 5, 19))
  {
    CutIsRead(0x26508e6d, 0x1328473, 0x99423, 0x4ca1, 0x265, 0x13, Six5(13, 19, 3, 1, 5, 19));
  }

  lemma Generator2()
    ensures ReadsSix(0x1ea119fa, Six5(26, 15, 6, 2, 10, 15))
  {
    CutIsRead(0x1ea119fa, 0xf508cf, 0x7a846, 0x3d42, 0x1ea, 0xf, Six5(26, 15, 6, 2, 10, 15));
  }

  lemma Generator3()
    ensures ReadsSix(0x3d4233dd, Six5(29, 30, 12, 4, 20, 30))
  {
    CutIsRead(0x3d4233dd, 0x1ea119e, 0xf508c, 0x7a84, 0x3d4, 0x1e, Six5(29, 30, 12, 4, 20, 30));
  }

  lemma Generator4()
    ensures ReadsSix(0x2a1462b3, Six5(19, 21, 24, 8, 1, 21))
  {
    CutIsRead(0x2a1462b3, 0x150a315, 0xa8518, 0x5428, 0x2a1, 0x15, Six5(19, 21, 24, 8, 1, 21));
  }

  lemma NthOfPlus(s: Sym, t: Sym, r: nat)
    ensures Nth(Plus(s, t), r) == X(Nth(s, r), Nth(t, r))
  {}

  lemma BitOfPlus(s: Sym, t: Sym, r: nat)
    requires r < 5
    ensures BitsOf(Plus(s, t))[r] == X(BitsOf(s)[r], BitsOf(t)[r])
  {
    hide Nth, Plus;
    NthOfPlus(s, t, r);
  }

  lemma NthOfZero(r: nat)
    ensures !Nth(0, r)
  {}

  lemma BitOfIf(on: bool, g: Sym, r: nat)
    requires r < 5
    ensures BitsOf(If(on, g))[r] == (on && BitsOf(g)[r])
  {
    hide Nth;
    NthOfZero(r);
  }

  lemma BitOfSumIf(b0: bool, b1: bool, b2: bool, b3: bool, b4: bool,
                   g0: Sym, g1: Sym, g2: Sym, g3: Sym, g4: Sym, r: nat)
    requires r < 5
    ensures BitsOf(SumIf(b0, b1, b2, b3, b4, g0, g1, g2, g3, g4))[r] ==
              X(X(X(X(b0 && BitsOf(g0)[r], b1 && BitsOf(g1)[r]), b2 && BitsOf(g2)[r]), b3 && BitsOf(g3)[r]),
                b4 && BitsOf(g4)[r])
  {
    hide BitsOf, If, Plus;
    BitOfIf(b0, g0, r);
    BitOfIf(b1, g1, r);
    BitOfIf(b2, g2, r);
    BitOfIf(b3, g3, r);
    BitOfIf(b4, g4, r);
    var p1 := Plus(If(b0, g0), If(b1, g1));
    var p2 := Plus(p1, If(b2, g2));
    var p3 := Plus(p2, If(b3, g3));
    BitOfPlus(If(b0, g0), If(b1, g1), r);
    BitOfPlus(p1, If(b2, g2), r);
    BitOfPlus(p2, If(b3, g3), r);
    BitOfPlus(p3, If(b4, g4), r);
  }

  lemma BitsAre(t: Sym)
    ensures BitsOf(t)[0] == (t & 1 != 0) && BitsOf(t)[1] == (t & 2 != 0) && BitsOf(t)[2] == (t & 4 != 0)
    ensures BitsOf(t)[3] == (t & 8 != 0) && BitsOf(t)[4] == (t & 16 != 0)
  {}

  lemma BitOfPick(t: Sym, g0: Sym, g1: Sym, g2: Sym, g3: Sym, g4: Sym, r: nat)
    requires r < 5
    ensures BitsOf(Pick(t, g0, g1, g2, g3, g4))[r] ==
              X(X(X(X(BitsOf(t)[0] && BitsOf(g0)[r], BitsOf(t)[1] && BitsOf(g1)[r]), BitsOf(t)[2] && BitsOf(g2)[r]),
                  BitsOf(t)[3] && BitsOf(g3)[r]), BitsOf(t)[4] && BitsOf(g4)[r])
  {
    hide SumIf, BitsOf;
    BitOfSumIf(t & 1 != 0, t & 2 != 0, t & 4 != 0, t & 8 != 0, t & 16 != 0, g0, g1, g2, g3, g4, r);
    BitsAre(t);
  }

  lemma ReadsAt(n: nat, i: nat, s: Sym, r: nat)
    requires Reads(n, i, s) && r < 5
    ensures Bit(n, i + r) == BitsOf(s)[r]
  {
    hide Bit, BitsOf;
  }

  /** The feedback at the bits of a symbol is that symbol of the generator times the top one. */
  lemma Fed(c: Word, t: Sym, i: nat, g: Sym, s: Sym, r: nat)
    requires c[25] == BitsOf(t)[0] && c[26] == BitsOf(t)[1] && c[27] == BitsOf(t)[2] && c[28] == BitsOf(t)[3]
    requires c[29] == BitsOf(t)[4] && r < 5
    requires Reads(0x3b6a57b2, i, g) && Reads(0x26508e6d, i, Twice(g)) && Reads(0x1ea119fa, i, Twice(Twice(g)))
    requires Reads(0x3d4233dd, i, Twice(Twice(Twice(g)))) && Reads(0x2a1462b3, i, Twice(Twice(Twice(Twice(g)))))
    ensures X(BitsOf(s)[r], Feedback(c, i + r)) == BitsOf(Plus(s, Times(t, g)))[r]
  {
    hide Bit, Twice, Reads, BitsOf, Plus, Pick;
    var g1, g2, g3, g4 := Twice(g), Twice(Twice(g)), Twice(Twice(Twice(g))), Twice(Twice(Twice(Twice(g))));
    ReadsAt(0x3b6a57b2, i, g, r);
    ReadsAt(0x26508e6d, i, g1, r);
    ReadsAt(0x1ea119fa, i, g2, r);
    ReadsAt(0x3d4233dd, i, g3, r);
    ReadsAt(0x2a1462b3, i, g4, r);
    BitOfPick(t, g, g1, g2, g3, g4, r);
    BitOfPlus(s, Times(t, g), r);
  }

  lemma TopBits(w: Six5)
    ensures var c := WordOf(w);
            && c[25] == BitsOf(w.a5)[0] && c[26] == BitsOf(w.a5)[1] && c[27] == BitsOf(w.a5)[2]
            && c[28] == BitsOf(w.a5)[3] && c[29] == BitsOf(w.a5)[4]
  {
    hide BitsOf;
  }

  lemma NoneBelow(t: Sym, r: nat)
    requires r < 5
    ensures !BitsOf(0)[r] && Plus(0, t) == t
  {}

  /** Bit by bit, a turn of the remainder with the empty symbol is the shift of the six symbols. */
  lemma StepAt(w: Six5, b: nat, r: nat)
    requires b < 6 && r < 5
    ensures X(b > 0 && BitsOf(At(w, b - 1))[r], Feedback(WordOf(w), 5 * b + r)) ==
              BitsOf(At(Shift(w), b))[r]
  {
    Doubled();
    Generator0();
    Generator1();
    Generator2();
    Generator3();
    Generator4();
    TopBits(w);
    hide BitsOf, WordOf, Feedback, Times, Plus, Reads, Twice, X;
    var c, t := WordOf(w), w.a5;
    if b == 0 {
      Fed(c, t, 0, 18, 0, r);
      NoneBelow(Times(t, 18), r);
    } else if b == 1 {
      Fed(c, t, 5, 29, w.a0, r);
    } else if b == 2 {
      Fed(c, t, 10, 21, w.a1, r);
    } else if b == 3 {
      Fed(c, t, 15, 20, w.a2, r);
    } else if b == 4 {
      Fed(c, t, 20, 22, w.a3, r);
    } else {
      Fed(c, t, 25, 29, w.a4, r);
    }
  }

  /** The symbols of the generator, doubled up to four times. */
  lemma Doubled()
    ensures Twice(18) == 13 && Twice(13) == 26 && Twice(26) == 29 && Twice(29) == 19 && Twice(19) == 15
    ensures Twice(15) == 30 && Twice(30) == 21 && Twice(21) == 3 && Twice(3) == 6 && Twice(6) == 12 && Twice(12) == 24
    ensures Twice(20) == 1 && Twice(1) == 2 && Twice(2) == 4 && Twice(4) == 8
    ensures Twice(22) == 5 && Twice(5) == 10 && Twice(10) == 20
  {}

  lemma StepIsShift(w: Six5)
    ensures Step(WordOf(w), None()) == WordOf(Shift(w))
  {
    hide BitsOf, Feedback, Shift, At;
    var c := WordOf(w);
    forall i | 0 <= i < 30 ensures Step(c, None())[i] == WordOf(Shift(w))[i] {
      var b, r := i / 5, i % 5;
      StepAt(w, b, r);
      assert i == 5 * b + r;
      if i >= 5 { assert (i - 5) / 5 == b - 1 && (i - 5) % 5 == r; }
    }
  }

  lemma {:induction false} PolyIsShifted(w: Six5, k: nat)
    ensures Poly(WordOf(w), Nones(k)) == WordOf(Shifted(w, k))
  {
    hide Step, WordOf, Shift;
    if k > 0 {
      assert Nones(k)[..k - 1] == Nones(k - 1);
      PolyIsShifted(w, k - 1);
      ShiftedMore(w, k - 1, 1);
      var v := Shifted(w, k - 1);
      assert Shifted(v, 1) == Shifted(Shift(v), 0) == Shift(v);
      StepIsShift(v);
    }
  }

  // ---- two substitutions

  lemma OneSymbol(d: Symbol)
    ensures Poly(Zero(), [d]) == d + Falses(25) == WordOf(Constant(FromBits(d)))
  {
    PolyJoins([d]);
    assert [d][..0] == [];
    assert Join([d]) == d;
    BitsOfFromBits(d);
    hide Poly, BitsOf, FromBits;
    ZeroBits();
    var w := WordOf(Constant(FromBits(d)));
    forall i | 0 <= i < 30 ensures w[i] == (d + Falses(25))[i] {
      if i >= 5 { assert At(Constant(FromBits(d)), i / 5) == 0; }
    }
  }

  lemma ZeroBits()
    ensures forall r :: 0 <= r < 5 ==> !BitsOf(0)[r]
  {}

  lemma NoBits(s: Sym)
    requires forall r :: 0 <= r < 5 ==> !BitsOf(s)[r]
    ensures s == 0
  {
    assert !BitsOf(s)[0] && !BitsOf(s)[1] && !BitsOf(s)[2] && !BitsOf(s)[3] && !BitsOf(s)[4];
  }

  lemma HighSymbol(w: Six5, d: Symbol, b: nat)
    requires WordOf(w) == d + Falses(25) && 1 <= b < 6
    ensures At(w, b) == 0
  {
    hide BitsOf;
    forall r | 0 <= r < 5 ensures !BitsOf(At(w, b))[r] {
      assert WordOf(w)[5 * b + r] == BitsOf(At(w, b))[r];
    }
    NoBits(At(w, b));
  }

  lemma LowIsConstant(w: Six5, d: Symbol)
    requires WordOf(w) == d + Falses(25)
    ensures IsConstant(w)
  {
    hide WordOf;
    HighSymbol(w, d, 1);
    HighSymbol(w, d, 2);
    HighSymbol(w, d, 3);
    HighSymbol(w, d, 4);
    HighSymbol(w, d, 5);
  }

  lemma NotNone(d: Symbol)
    requires d != None()
    ensures FromBits(d) != 0
  {
    BitsOfFromBits(d);
    ZeroBits();
  }

  lemma FeedIsSum(c: Word, d: Symbol)
    ensures Step(c, d) == XorW(Step(c, None()), Poly(Zero(), [d]))
  {
    hide Step, XorW;
    XorZero(c);
    assert XorS(None(), d) == d;
    StepLinear(c, Zero(), None(), d);
    assert [d][..0] == [];
    assert Poly(Zero(), [d]) == Step(Zero(), d);
  }

  lemma XorIsZero(a: Word, b: Word)
    requires XorW(a, b) == Zero()
    ensures a == b
  {
    forall i | 0 <= i < 30 ensures a[i] == b[i] { assert XorW(a, b)[i] == Zero()[i]; }
  }

  lemma ShiftedOnce(w: Six5)
    ensures Shifted(w, 1) == Shift(w)
  {
    hide Shift;
    assert Shifted(Shift(w), 0) == Shift(w);
  }

  /** The remainder after a symbol and empty ones, one more turn included. */
  lemma AfterFirst(d: Symbol, m: nat, w: Six5)
    requires w == Shifted(Constant(FromBits(d)), m)
    ensures Poly(Zero(), [d] + Nones(m)) == WordOf(w) && Step(WordOf(w), None()) == WordOf(Shift(w))
    ensures Shift(w) == Shifted(Constant(FromBits(d)), m + 1)
  {
    hide Step, WordOf, Shift, Shifted, FromBits, Constant, Poly;
    OneSymbol(d);
    PolyConcat(Zero(), [d], Nones(m));
    PolyIsShifted(Constant(FromBits(d)), m);
    StepIsShift(w);
    ShiftedMore(Constant(FromBits(d)), m, 1);
    ShiftedOnce(w);
  }

  lemma PolyLast(c: Word, vs: seq<Symbol>, f: Symbol)
    ensures Poly(c, vs + [f]) == Step(Poly(c, vs), f)
  {
    hide Step;
    assert (vs + [f])[..|vs|] == vs;
  }

  /** Two symbols with at most 87 empty ones between them leave a remainder, unless the first is empty too. */
  lemma PairLeavesRemainder(d: Symbol, m: nat, f: Symbol)
    requires d != None() && m <= 87
    ensures Poly(Zero(), [d] + Nones(m) + [f]) != Zero()
  {
    hide Step, WordOf, Shift, Shifted, XorW, IsConstant, FromBits, Constant, Poly, None;
    var w := Shifted(Constant(FromBits(d)), m);
    NotNone(d);
    AfterFirst(d, m, w);
    NeverConstant(FromBits(d), m + 1);
    PolyLast(Zero(), [d] + Nones(m), f);
    FeedIsSum(WordOf(w), f);
    OneSymbol(f);
    if Poly(Zero(), [d] + Nones(m) + [f]) == Zero() {
      XorIsZero(WordOf(Shift(w)), Poly(Zero(), [f]));
      LowIsConstant(Shift(w), f);
    }
  }

  lemma XorPair(x: Symbol, y: Symbol, x': Symbol, y': Symbol, mid: seq<Symbol>)
    ensures XorAll([x] + mid + [y], [x'] + mid + [y']) == [XorS(x, x')] + Nones(|mid|) + [XorS(y, y')]
  {
    hide XorS;
    var p, q := [x] + mid + [y], [x'] + mid + [y'];
    forall i | 0 <= i < |p| ensures XorAll(p, q)[i] == ([XorS(x, x')] + Nones(|mid|) + [XorS(y, y')])[i] {
      if 0 < i <= |mid| { XorSame(mid[i - 1]); }
    }
  }

  lemma XorSame(s: Symbol)
    ensures XorS(s, s) == None()
  {}

  lemma Differ(x: Symbol, y: Symbol)
    requires x != y
    ensures XorS(x, y) != None()
  {
    if XorS(x, y) == None() {
      forall j | 0 <= j < 5 ensures x[j] == y[j] { assert XorS(x, y)[j] == None()[j]; }
    }
  }

  /** Changing one or both of two symbols with at most 87 between them changes the remainder, whatever stands around. */
  lemma PairChangesRemainder(c: Word, a: seq<Symbol>, x: Symbol, mid: seq<Symbol>, y: Symbol, b: seq<Symbol>,
                             x': Symbol, y': Symbol)
    requires |mid| <= 87 && (x != x' || y != y')
    ensures Poly(c, a + ([x] + mid + [y]) + b) != Poly(c, a + ([x'] + mid + [y']) + b)
  {
    hide Poly, XorW, XorAll, XorS;
    var p, q := [x] + mid + [y], [x'] + mid + [y'];
    if x == x' {
      assert a + p + b == (a + [x] + mid) + [y] + b && a + q + b == (a + [x] + mid) + [y'] + b;
      assert [y][0] != [y'][0];
      BurstChangesRemainder(c, a + [x] + mid, [y], [y'], b);
    } else {
      var d := XorAll(p, q);
      XorPair(x, y, x', y', mid);
      Differ(x, x');
      PairLeavesRemainder(XorS(x, x'), |mid|, XorS(y, y'));
      PolyLinear(c, c, a + p + b, a + q + b);
      XorSelf(c);
      XorAllParts(a, p, q, b);
      PolyConcat(Zero(), Nones(|a|) + d, Nones(|b|));
      PolyConcat(Zero(), Nones(|a|), d);
      ZerosFromZero(|a|);
      if Poly(c, a + p + b) == Poly(c, a + q + b) {
        XorSelf(Poly(c, a + p + b));
        ZerosLoseNothing(Poly(Zero(), d), |b|);
      }
    }
  }
}
