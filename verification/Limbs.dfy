/** Numbers as little-endian sequences of 32-bit limbs. */
module Limbs {
  import opened Powers

  const B: nat := 0x1_0000_0000
  const B64: nat := 0x1_0000_0000_0000_0000

  type Limb = x: nat | x < 0x1_0000_0000
  type Word = x: nat | x < 0x1_0000_0000_0000_0000

  /** The weight of the n-th limb. */
  function Weight(n: nat): (r: nat)
    ensures r >= 1
  {
    if n == 0 then 1 else B * Weight(n - 1)
  }

  function Val(s: seq<Limb>): nat {
    if s == [] then 0 else Val(s[..|s| - 1]) + s[|s| - 1] * Weight(|s| - 1)
  }

  // ---- powers of two

  lemma {:induction false} Pow2Add(a: nat, b: nat)
    ensures Pow2(a + b) == Pow2(a) * Pow2(b)
  {
    if a > 0 {
      Pow2Add(a - 1, b);
      MulAssoc(2, Pow2(a - 1), Pow2(b));
    }
  }

  lemma MulAssoc(a: int, b: int, c: int)
    ensures a * (b * c) == (a * b) * c
  {}

  lemma {:induction false} Pow2Mono(a: nat, b: nat)
    requires a <= b
    ensures Pow2(a) <= Pow2(b)
  {
    if a < b { Pow2Mono(a, b - 1); }
  }

  lemma Pow2Of8()
    ensures Pow2(8) == 0x100
  {
    assert Pow2(4) == 16;
  }

  lemma Pow2Of16()
    ensures Pow2(16) == 0x1_0000
  {
    Pow2Of8();
    Pow2Add(8, 8);
  }

  lemma Pow2Of32()
    ensures Pow2(32) == B
  {
    Pow2Of16();
    Pow2Add(16, 16);
  }

  lemma {:induction false} WeightIsPow2(n: nat)
    ensures Weight(n) == Pow2(32 * n)
  {
    if n > 0 {
      WeightIsPow2(n - 1);
      Pow2Of32();
      Pow2Add(32, 32 * (n - 1));
    }
  }

  lemma WeightNext(i: nat)
    ensures Weight(i + 1) == B * Weight(i)
  {}

  lemma WeightAdd(a: nat, b: nat)
    ensures Weight(a + b) == Weight(a) * Weight(b)
  {
    WeightIsPow2(a);
    WeightIsPow2(b);
    WeightIsPow2(a + b);
    Pow2Add(32 * a, 32 * b);
  }

  // ---- division facts

  lemma DivModUnique(x: int, d: int, q: int, r: int)
    requires d > 0 && x == q * d + r && 0 <= r < d
    ensures x / d == q && x % d == r
  {
    var e := x / d - q;
    MulSub(x / d, q, d);
    assert e * d == r - x % d;
    if e >= 1 { MulMono(1, e, d); }
    if e <= -1 { MulMono(e, -1, d); }
  }

  lemma MulSub(a: int, b: int, d: int)
    ensures (a - b) * d == a * d - b * d
  {}

  lemma MulMono(a: int, b: int, d: int)
    requires a <= b && d >= 0
    ensures a * d <= b * d
  {}

  lemma DivMono(x: nat, y: nat, d: nat)
    requires x <= y && d >= 1
    ensures x / d <= y / d
  {
    if x / d > y / d { MulMono(y / d + 1, x / d, d); MulSub(y / d + 1, 1, d); }
  }

  lemma QuotientBelow(x: nat, p: nat, q: nat)
    requires q >= 1 && x < p * q
    ensures x / q < p
  {
    if x / q >= p { MulMono(p, x / q, q); }
  }

  // ---- values

  lemma ValPrefix(s: seq<Limb>, i: nat)
    requires i < |s|
    ensures Val(s[..i + 1]) == Val(s[..i]) + s[i] * Weight(i)
  {
    assert s[..i + 1][..i] == s[..i];
  }

  lemma {:induction false} ValBound(s: seq<Limb>)
    ensures Val(s) < Weight(|s|)
  {
    if s != [] {
      var n := |s| - 1;
      ValBound(s[..n]);
      MulMono(s[n], B - 1, Weight(n));
    }
  }

  lemma {:induction false} ValUpdate(s: seq<Limb>, j: nat, v: Limb)
    requires j < |s|
    ensures Val(s[j := v]) == Val(s) + (v - s[j]) * Weight(j)
  {
    var n := |s| - 1;
    if j == n {
      assert s[j := v][..n] == s[..n];
      MulSub(v, s[j], Weight(j));
    } else {
      assert s[j := v][..n] == s[..n][j := v];
      ValUpdate(s[..n], j, v);
    }
  }

  lemma {:induction false} ValConcat(s: seq<Limb>, t: seq<Limb>)
    ensures Val(s + t) == Val(s) + Weight(|s|) * Val(t)
  {
    if t == [] {
      assert s + t == s;
    } else {
      var n := |t| - 1;
      ValConcat(s, t[..n]);
      assert (s + t)[..|s| + n] == s + t[..n];
      WeightAdd(|s|, n);
      MulThree(Weight(|s|), Val(t[..n]), t[n], Weight(n));
    }
  }

  lemma MulThree(w: int, a: int, x: int, v: int)
    ensures w * (a + x * v) == w * a + x * (w * v)
  {
    MulAssoc(w, x, v);
    MulAssoc(x, w, v);
  }

  lemma {:induction false} ValZero(s: seq<Limb>)
    requires forall i :: 0 <= i < |s| ==> s[i] == 0
    ensures Val(s) == 0
  {
    if s != [] { ValZero(s[..|s| - 1]); }
  }

  /** The limbs of a number are unique, so comparing limbs compares numbers. */
  lemma {:induction false} ValInjective(s: seq<Limb>, t: seq<Limb>)
    requires |s| == |t| && Val(s) == Val(t)
    ensures s == t
  {
    if s != [] {
      var n := |s| - 1;
      ValBound(s[..n]);
      ValBound(t[..n]);
      DivModUnique(Val(s), Weight(n), s[n], Val(s[..n]));
      DivModUnique(Val(s), Weight(n), t[n], Val(t[..n]));
      ValInjective(s[..n], t[..n]);
      assert s == s[..n] + [s[n]] && t == t[..n] + [t[n]];
    }
  }

  // ---- bitwise or

  /** Bitwise or, bit by bit. */
  function Or(x: nat, y: nat): (r: nat) {
    if x == 0 && y == 0 then 0
    else 2 * Or(x / 2, y / 2) + if x % 2 == 1 || y % 2 == 1 then 1 else 0
  }

  /** Numbers whose bits do not meet are joined by adding them. */
  lemma {:induction false} OrDisjoint(x: nat, y: nat, k: nat)
    requires y < Pow2(k) && x % Pow2(k) == 0
    ensures Or(x, y) == x + y
  {
    if k == 0 {
      OrZero(x);
    } else if x != 0 || y != 0 {
      HalfMultiple(x, k);
      OrDisjoint(x / 2, y / 2, k - 1);
    }
  }

  lemma {:induction false} OrZero(x: nat)
    ensures Or(x, 0) == x && Or(0, x) == x
  {
    if x > 0 { OrZero(x / 2); }
  }

  lemma HalfMultiple(x: nat, k: nat)
    requires k > 0 && x % Pow2(k) == 0
    ensures x % 2 == 0 && (x / 2) % Pow2(k - 1) == 0
  {
    var q, p := x / Pow2(k), Pow2(k - 1);
    assert x == q * (2 * p);
    MulAssoc(q, 2, p);
    assert q * (2 * p) == 2 * (q * p);
    DivModUnique(x / 2, p, q, 0);
  }
}
