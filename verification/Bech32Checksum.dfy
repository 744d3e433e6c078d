/** The Bech32 checksum as linear algebra over bits: a 30-bit remainder fed with 5-bit symbols. */
module Bech32Checksum {

  /** The i-th bit of a number. */
  function Bit(n: nat, i: nat): bool
    decreases i
  {
    if i == 0 then n % 2 == 1 else Bit(n / 2, i - 1)
  }

  type Word = w: seq<bool> | |w| == 30 witness seq(30, _ => false)
  type Symbol = s: seq<bool> | |s| == 5 witness seq(5, _ => false)

  function Zero(): Word { seq(30, _ => false) }
  function One(): Word { seq(30, i => i == 0) }
  function None(): Symbol { seq(5, _ => false) }

  function X(a: bool, b: bool): bool { a != b }

  function XorW(a: Word, b: Word): Word { seq(30, i requires 0 <= i < 30 => X(a[i], b[i])) }
  function XorS(a: Symbol, b: Symbol): Symbol { seq(5, i requires 0 <= i < 5 => X(a[i], b[i])) }

  /** What the five bits shifted out at the top add back: for each set bit a multiple of the generator. */
  function Feedback(c: Word, i: nat): bool {
    X(X(X(X(c[25] && Bit(0x3b6a57b2, i),
            c[26] && Bit(0x26508e6d, i)),
          c[27] && Bit(0x1ea119fa, i)),
        c[28] && Bit(0x3d4233dd, i)),
      c[29] && Bit(0x2a1462b3, i))
  }

  /** One turn of the remainder: shift in a symbol. */
  function Step(c: Word, v: Symbol): Word {
    seq(30, i requires 0 <= i < 30 => X(if i < 5 then v[i] else c[i - 5], Feedback(c, i)))
  }

  function Poly(c: Word, vs: seq<Symbol>): Word {
    if vs == [] then c else Step(Poly(c, vs[..|vs| - 1]), vs[|vs| - 1])
  }

  function Nones(n: nat): seq<Symbol> { seq(n, _ => None()) }

  // ---- linearity

  lemma FeedbackLinear(c: Word, d: Word, i: nat)
    ensures Feedback(XorW(c, d), i) == X(Feedback(c, i), Feedback(d, i))
  {
    hide Bit;
  }

  lemma StepLinear(c: Word, d: Word, v: Symbol, w: Symbol)
    ensures Step(XorW(c, d), XorS(v, w)) == XorW(Step(c, v), Step(d, w))
  {
    hide Feedback;
    forall i | 0 <= i < 30 ensures Step(XorW(c, d), XorS(v, w))[i] == XorW(Step(c, v), Step(d, w))[i] {
      FeedbackLinear(c, d, i);
    }
  }

  function XorAll(vs: seq<Symbol>, ws: seq<Symbol>): (r: seq<Symbol>)
    requires |vs| == |ws|
    ensures |r| == |vs|
  {
    seq(|vs|, i requires 0 <= i < |vs| => XorS(vs[i], ws[i]))
  }

  /** The remainder of a sum is the sum of the remainders. */
  lemma {:induction false} PolyLinear(c: Word, d: Word, vs: seq<Symbol>, ws: seq<Symbol>)
    requires |vs| == |ws|
    ensures Poly(XorW(c, d), XorAll(vs, ws)) == XorW(Poly(c, vs), Poly(d, ws))
  {
    hide Step, XorS, XorW;
    if vs != [] {
      var n := |vs| - 1;
      PolyLinear(c, d, vs[..n], ws[..n]);
      assert XorAll(vs, ws)[..n] == XorAll(vs[..n], ws[..n]);
      StepLinear(Poly(c, vs[..n]), Poly(d, ws[..n]), vs[n], ws[n]);
    }
  }

  lemma {:induction false} PolyConcat(c: Word, a: seq<Symbol>, b: seq<Symbol>)
    ensures Poly(c, a + b) == Poly(Poly(c, a), b)
  {
    hide Step;
    if b == [] {
      assert a + b == a;
    } else {
      var n := |b| - 1;
      PolyConcat(c, a, b[..n]);
      assert (a + b)[..|a| + n] == a + b[..n];
    }
  }

  lemma XorSelf(a: Word)
    ensures XorW(a, a) == Zero()
  {}

  lemma XorZero(a: Word)
    ensures XorW(a, Zero()) == a && XorW(Zero(), a) == a
  {}

  lemma XorTwice(a: Word, b: Word)
    ensures XorW(a, XorW(a, b)) == b
  {}

  // ---- nothing but zero turns into zero

  /** The low five bits of the five multiples of the generator, 18, 13, 26, 29 and 19, are independent. */
  lemma LowBits()
    ensures Bit(0x3b6a57b2, 0) == false && Bit(0x3b6a57b2, 1) && !Bit(0x3b6a57b2, 2) && !Bit(0x3b6a57b2, 3) &&
              Bit(0x3b6a57b2, 4)
    ensures Bit(0x26508e6d, 0) && !Bit(0x26508e6d, 1) && Bit(0x26508e6d, 2) && Bit(0x26508e6d, 3) && !Bit(0x26508e6d, 4)
    ensures !Bit(0x1ea119fa, 0) && Bit(0x1ea119fa, 1) && !Bit(0x1ea119fa, 2) && Bit(0x1ea119fa, 3) && Bit(0x1ea119fa, 4)
    ensures Bit(0x3d4233dd, 0) && !Bit(0x3d4233dd, 1) && Bit(0x3d4233dd, 2) && Bit(0x3d4233dd, 3) && Bit(0x3d4233dd, 4)
    ensures Bit(0x2a1462b3, 0) && Bit(0x2a1462b3, 1) && !Bit(0x2a1462b3, 2) && !Bit(0x2a1462b3, 3) && Bit(0x2a1462b3, 4)
  {}

  lemma TopIsZero(c: Word)
    requires !Feedback(c, 0) && !Feedback(c, 1) && !Feedback(c, 2) && !Feedback(c, 3) && !Feedback(c, 4)
    ensures !c[25] && !c[26] && !c[27] && !c[28] && !c[29]
  {
    LowBits();
    hide Bit;
  }

  lemma ShiftLosesNothing(c: Word)
    requires Step(c, None()) == Zero()
    ensures c == Zero()
  {
    hide Feedback;
    forall i | 0 <= i < 5 ensures !Feedback(c, i) { assert Step(c, None())[i] == Zero()[i]; }
    TopIsZero(c);
    forall i | 0 <= i < 30 ensures !c[i] {
      if i < 25 {
        assert Step(c, None())[i + 5] == Zero()[i + 5];
        NoFeedback(c, i + 5);
      }
    }
  }

  lemma NoFeedback(c: Word, i: nat)
    requires !c[25] && !c[26] && !c[27] && !c[28] && !c[29]
    ensures !Feedback(c, i)
  {}

  lemma {:induction false} ZerosLoseNothing(c: Word, n: nat)
    requires Poly(c, Nones(n)) == Zero()
    ensures c == Zero()
  {
    if n > 0 {
      assert Nones(n)[..n - 1] == Nones(n - 1);
      ShiftLosesNothing(Poly(c, Nones(n - 1)));
      ZerosLoseNothing(c, n - 1);
    }
  }

  // ---- six symbols fill the word

  lemma NoWrap(c: Word, v: Symbol)
    requires !c[25] && !c[26] && !c[27] && !c[28] && !c[29]
    ensures Step(c, v) == v + c[..25]
  {
    hide Feedback;
    forall i | 0 <= i < 30 ensures Step(c, v)[i] == (v + c[..25])[i] { NoFeedback(c, i); }
  }

  function Falses(n: nat): seq<bool> { seq(n, _ => false) }

  /** The symbols side by side, the last one lowest. */
  function Join(vs: seq<Symbol>): (r: seq<bool>)
    ensures |r| == 5 * |vs|
  {
    if vs == [] then [] else vs[|vs| - 1] + Join(vs[..|vs| - 1])
  }

  lemma {:induction false} PolyJoins(vs: seq<Symbol>)
    requires |vs| <= 6
    ensures Poly(Zero(), vs) == Join(vs) + Falses(30 - 5 * |vs|)
  {
    hide Step;
    if vs == [] {
      assert Zero() == Falses(30);
    } else {
      var n := |vs| - 1;
      PolyJoins(vs[..n]);
      var c := Poly(Zero(), vs[..n]);
      NoWrap(c, vs[n]);
      assert c[..25] == Join(vs[..n]) + Falses(25 - 5 * n);
      assert Poly(Zero(), vs) == vs[n] + (Join(vs[..n]) + Falses(25 - 5 * n));
    }
  }

  lemma {:induction false} JoinZero(vs: seq<Symbol>)
    requires forall i :: 0 <= i < 5 * |vs| ==> !Join(vs)[i]
    ensures vs == Nones(|vs|)
  {
    if vs != [] {
      var n := |vs| - 1;
      forall i | 0 <= i < 5 * n ensures !Join(vs[..n])[i] { assert Join(vs)[i + 5] == Join(vs[..n])[i]; }
      JoinZero(vs[..n]);
      forall i | 0 <= i < 5 ensures !vs[n][i] { assert Join(vs)[i] == vs[n][i]; }
      assert vs[n] == None();
      assert vs == vs[..n] + [vs[n]];
    }
  }

  // ---- what the checksum does

  lemma XorNones(vs: seq<Symbol>)
    ensures XorAll(Nones(|vs|), vs) == vs
  {
    forall i | 0 <= i < |vs| ensures XorAll(Nones(|vs|), vs)[i] == vs[i] {
      assert XorS(None(), vs[i]) == vs[i];
    }
  }

  /** Six symbols fed last are added to what six empty ones would give. */
  lemma LastSix(c: Word, r: seq<Symbol>)
    requires |r| == 6
    ensures Poly(c, r) == XorW(Poly(c, Nones(6)), Join(r))
  {
    hide Poly, Join, XorW, XorAll;
    PolyLinear(c, Zero(), Nones(6), r);
    XorNones(r);
    XorZero(c);
    PolyJoins(r);
    assert Join(r) + Falses(0) == Join(r);
  }

  /** The word cut into six symbols, the highest first. */
  function Cut(m: Word): (r: seq<Symbol>)
    ensures |r| == 6
  {
    [m[25..30], m[20..25], m[15..20], m[10..15], m[5..10], m[0..5]]
  }

  /** Six symbols side by side. */
  function Six(a: seq<bool>, b: seq<bool>, c: seq<bool>, d: seq<bool>, e: seq<bool>, f: seq<bool>): seq<bool> {
    f + (e + (d + (c + (b + a))))
  }

  lemma JoinSix(r: seq<Symbol>)
    requires |r| == 6
    ensures Join(r) == Six(r[0], r[1], r[2], r[3], r[4], r[5])
  {
    var r5, r4, r3, r2, r1 := r[..5], r[..4], r[..3], r[..2], r[..1];
    assert r5[..4] == r4 && r4[..3] == r3 && r3[..2] == r2 && r2[..1] == r1 && r1[..0] == [];
    var s0: seq<bool>, s1: seq<bool>, s2: seq<bool>, s3: seq<bool>, s4: seq<bool> := r[0], r[1], r[2], r[3], r[4];
    assert Join(r1) == s0;
    assert Join(r2) == s1 + s0;
    assert Join(r3) == s2 + (s1 + s0);
    assert Join(r4) == s3 + (s2 + (s1 + s0));
    assert Join(r5) == s4 + (s3 + (s2 + (s1 + s0)));
  }

  lemma JoinCut(m: Word)
    ensures Join(Cut(m)) == m
  {
    hide Join;
    JoinSix(Cut(m));
  }

  lemma CutJoin(r: seq<Symbol>)
    requires |r| == 6
    ensures Cut(Join(r)) == r
  {
    hide Join;
    JoinSix(r);
    var m := Join(r);
    assert m[25..30] == r[0] && m[20..25] == r[1] && m[15..20] == r[2] && m[10..15] == r[3] && m[5..10] == r[4] &&
        m[0..5] == r[5];
  }

  function Checksum(c: Word): (r: seq<Symbol>)
    ensures |r| == 6
  {
    Cut(XorW(Poly(c, Nones(6)), One()))
  }

  /** A remainder becomes one exactly when its checksum is fed to it. */
  lemma ChecksumIsUnique(c: Word, r: seq<Symbol>)
    requires |r| == 6
    ensures Poly(c, r) == One() <==> r == Checksum(c)
  {
    hide Poly, Join, XorW, Cut;
    var m := XorW(Poly(c, Nones(6)), One());
    LastSix(c, r);
    JoinCut(m);
    CutJoin(r);
    XorTwice(Poly(c, Nones(6)), One());
    XorTwice(Poly(c, Nones(6)), Join(r));
  }

  lemma XorAllParts(a: seq<Symbol>, x: seq<Symbol>, y: seq<Symbol>, b: seq<Symbol>)
    requires |x| == |y|
    ensures XorAll(a + x + b, a + y + b) == Nones(|a|) + XorAll(x, y) + Nones(|b|)
  {
    var p, q := a + x + b, a + y + b;
    forall i | 0 <= i < |p| ensures XorAll(p, q)[i] == (Nones(|a|) + XorAll(x, y) + Nones(|b|))[i] {
      if i < |a| {
        assert XorS(a[i], a[i]) == None();
      } else if i >= |a| + |x| {
        var s := b[i - |a| - |x|];
        assert p[i] == s && q[i] == s && XorS(s, s) == None();
      }
    }
  }

  lemma {:induction false} ZerosFromZero(n: nat)
    ensures Poly(Zero(), Nones(n)) == Zero()
  {
    if n > 0 {
      assert Nones(n)[..n - 1] == Nones(n - 1);
      ZerosFromZero(n - 1);
      NoWrap(Zero(), None());
      assert None() + Zero()[..25] == Zero();
    }
  }

  /** Any change within six consecutive symbols changes the remainder, whatever stands before and after. */
  lemma BurstChangesRemainder(c: Word, a: seq<Symbol>, x: seq<Symbol>, y: seq<Symbol>, b: seq<Symbol>)
    requires |x| == |y| <= 6 && x != y
    ensures Poly(c, a + x + b) != Poly(c, a + y + b)
  {
    hide Poly, Join, XorW, XorAll;
    var d := XorAll(x, y);
    PolyLinear(c, c, a + x + b, a + y + b);
    XorSelf(c);
    XorAllParts(a, x, y, b);
    PolyConcat(Zero(), Nones(|a|) + d, Nones(|b|));
    PolyConcat(Zero(), Nones(|a|), d);
    ZerosFromZero(|a|);
    if Poly(c, a + x + b) == Poly(c, a + y + b) {
      XorSelf(Poly(c, a + x + b));
      ZerosLoseNothing(Poly(Zero(), d), |b|);
      JoinedZero(d);
      SameSymbols(x, y);
    }
  }

  lemma JoinedZero(d: seq<Symbol>)
    requires |d| <= 6 && Poly(Zero(), d) == Zero()
    ensures d == Nones(|d|)
  {
    hide Poly;
    PolyJoins(d);
    forall i | 0 <= i < 5 * |d| ensures !Join(d)[i] { assert (Join(d) + Falses(30 - 5 * |d|))[i] == Zero()[i]; }
    JoinZero(d);
  }

  lemma SameSymbols(x: seq<Symbol>, y: seq<Symbol>)
    requires |x| == |y| && XorAll(x, y) == Nones(|x|)
    ensures x == y
  {
    forall i | 0 <= i < |x| ensures x[i] == y[i] {
      assert XorAll(x, y)[i] == None();
      forall j | 0 <= j < 5 ensures x[i][j] == y[i][j] { assert XorS(x[i], y[i])[j] == None()[j]; }
    }
  }
}
