/** Numbers as big-endian digit sequences in any base. */
module Radix {
  import Limbs

  function Pow(b: nat, n: nat): nat {
    if n == 0 then 1 else b * Pow(b, n - 1)
  }

  function Val(d: seq<nat>, b: nat): nat {
    if d == [] then 0 else Val(d[..|d| - 1], b) * b + d[|d| - 1]
  }

  /** The digits of a number, without leading zeros. */
  function Digits(n: nat, b: nat): seq<nat>
    requires b >= 2
  {
    if n == 0 then [] else
      DivDown(n, b);
      Digits(n / b, b) + [n % b]
  }

  lemma DivDown(n: nat, b: nat)
    requires n > 0 && b >= 2
    ensures n / b < n
  {
    if n / b >= n { Limbs.MulMono(n, n / b, b); Limbs.MulMono(2, b, n); }
  }

  predicate Below(d: seq<nat>, b: nat) {
    forall i :: 0 <= i < |d| ==> d[i] < b
  }

  function Strip(d: seq<nat>): (r: seq<nat>)
    ensures r == [] || r[0] != 0
  {
    if d != [] && d[0] == 0 then Strip(d[1..]) else d
  }

  // ---- powers

  lemma {:induction false} PowAdd(b: nat, m: nat, n: nat)
    ensures Pow(b, m + n) == Pow(b, m) * Pow(b, n)
  {
    if m > 0 {
      PowAdd(b, m - 1, n);
      Limbs.MulAssoc(b, Pow(b, m - 1), Pow(b, n));
    }
  }

  lemma {:induction false} PowPos(b: nat, n: nat)
    requires b >= 1
    ensures Pow(b, n) >= 1
  {
    if n > 0 { PowPos(b, n - 1); Limbs.MulMono(1, b, Pow(b, n - 1)); }
  }

  lemma {:induction false} PowMul(b: nat, m: nat, n: nat)
    ensures Pow(b, m * n) == Pow(Pow(b, m), n)
  {
    if n > 0 {
      PowMul(b, m, n - 1);
      assert m * n == m + m * (n - 1);
      PowAdd(b, m, m * (n - 1));
    }
  }

  lemma {:induction false} PowMono(b: nat, m: nat, n: nat)
    requires b >= 1 && m <= n
    ensures Pow(b, m) <= Pow(b, n)
  {
    PowAdd(b, m, n - m);
    PowPos(b, n - m);
    Limbs.MulMono(1, Pow(b, n - m), Pow(b, m));
  }

  lemma {:induction false} PowStrict(b: nat, m: nat, n: nat)
    requires b >= 2 && m < n
    ensures Pow(b, m) < Pow(b, n)
  {
    PowMono(b, m + 1, n);
    PowPos(b, m);
    Limbs.MulMono(2, b, Pow(b, m));
  }

  lemma {:induction false} BaseMono(a: nat, b: nat, n: nat)
    requires a <= b
    ensures Pow(a, n) <= Pow(b, n)
  {
    if n > 0 {
      BaseMono(a, b, n - 1);
      Limbs.MulMono(a, b, Pow(a, n - 1));
      Limbs.MulMono(Pow(a, n - 1), Pow(b, n - 1), b);
    }
  }

  /** If a to the p is at most b to the q, then n digits of base a fit in k of base b once q n < p k. */
  lemma DigitsFit(a: nat, p: nat, b: nat, q: nat, n: nat, k: nat)
    requires a >= 1 && b >= 2 && Pow(a, p) <= Pow(b, q) && q * n < p * k
    ensures Pow(a, n) < Pow(b, k)
  {
    hide Pow;
    PowMul(a, p, n);
    PowMul(a, n, p);
    assert p * n == n * p;
    BaseMono(Pow(a, p), Pow(b, q), n);
    PowMul(b, q, n);
    PowStrict(b, q * n, k * p);
    PowMul(b, k, p);
    if Pow(a, n) >= Pow(b, k) { BaseMono(Pow(b, k), Pow(a, n), p); }
  }

  // ---- values and digits

  lemma OneDigitMore(v: nat, p: nat, w: nat, b: nat)
    ensures (v * p + w) * b == v * (b * p) + w * b
  {
    Limbs.MulAssoc(v, p, b);
  }

  lemma {:induction false} ValConcat(d: seq<nat>, e: seq<nat>, b: nat)
    ensures Val(d + e, b) == Val(d, b) * Pow(b, |e|) + Val(e, b)
  {
    if e == [] {
      assert d + e == d;
    } else {
      var n := |e| - 1;
      ValConcat(d, e[..n], b);
      assert (d + e)[..|d| + n] == d + e[..n];
      var v, w, p := Val(d, b), Val(e[..n], b), Pow(b, n);
      OneDigitMore(v, p, w, b);
    }
  }

  lemma {:induction false} ValBound(d: seq<nat>, b: nat)
    requires b >= 1 && Below(d, b)
    ensures Val(d, b) < Pow(b, |d|)
  {
    if d != [] {
      var n := |d| - 1;
      ValBound(d[..n], b);
      StepBound(Val(d[..n], b), d[n], b, Pow(b, n));
    }
  }

  lemma StepBound(v: nat, x: nat, b: nat, p: nat)
    requires v < p && x < b
    ensures v * b + x < b * p
  {
    Limbs.MulMono(v + 1, p, b);
    Limbs.MulSub(v + 1, 1, b);
  }

  lemma EmptyIfZero(e: seq<nat>, b: nat)
    requires b >= 2 && e == Digits(0, b)
    ensures e == []
  {}

  /** The last digit taken off. */
  lemma DigitsLast(n: nat, b: nat) returns (q: nat, r: nat)
    requires n > 0 && b >= 2
    ensures q < n && r < b && n == q * b + r && Digits(n, b) == Digits(q, b) + [r]
  {
    DivDown(n, b);
    q, r := n / b, n % b;
  }

  lemma {:induction false} ValZeros(d: seq<nat>, b: nat)
    requires forall i :: 0 <= i < |d| ==> d[i] == 0
    ensures Val(d, b) == 0
  {
    if d != [] { ValZeros(d[..|d| - 1], b); }
  }

  lemma ValOfLast(e: seq<nat>, x: nat, b: nat)
    ensures Val(e + [x], b) == Val(e, b) * b + x
  {
    assert (e + [x])[..|e|] == e;
  }

  lemma {:induction false} ValOfDigits(n: nat, b: nat)
    requires b >= 2
    ensures Val(Digits(n, b), b) == n && Below(Digits(n, b), b)
  {
    if n == 0 {
      EmptyIfZero(Digits(0, b), b);
    } else {
      hide Digits, Val;
      var q, r := DigitsLast(n, b);
      ValOfDigits(q, b);
      ValOfLast(Digits(q, b), r, b);
    }
  }

  lemma {:induction false} DigitsLead(n: nat, b: nat)
    requires b >= 2
    ensures n == 0 <==> Digits(n, b) == []
    ensures n > 0 ==> Digits(n, b)[0] != 0
  {
    if n == 0 {
      EmptyIfZero(Digits(0, b), b);
    } else {
      hide Digits;
      var q, r := DigitsLast(n, b);
      DigitsLead(q, b);
    }
  }

  /** A digit sequence without leading zero is the digits of its value. */
  lemma {:induction false} DigitsOfVal(d: seq<nat>, b: nat)
    requires b >= 2 && Below(d, b) && (d == [] || d[0] != 0)
    ensures Digits(Val(d, b), b) == d
  {
    if d != [] {
      var n := |d| - 1;
      DigitsOfVal(d[..n], b);
      var v := Val(d[..n], b);
      Limbs.DivModUnique(Val(d, b), b, v, d[n]);
      if n == 0 {
        assert v == 0;
      } else {
        PositiveVal(d[..n], b);
        Limbs.MulMono(1, v, b);
      }
      assert d == d[..n] + [d[n]];
    }
  }

  lemma {:induction false} PositiveVal(d: seq<nat>, b: nat)
    requires d != [] && d[0] != 0 && b >= 1
    ensures Val(d, b) > 0
  {
    if |d| > 1 {
      PositiveVal(d[..|d| - 1], b);
      Limbs.MulMono(1, Val(d[..|d| - 1], b), b);
    }
  }

  lemma {:induction false} StripKeepsVal(d: seq<nat>, b: nat)
    ensures Val(Strip(d), b) == Val(d, b)
    ensures Below(d, b) ==> Below(Strip(d), b)
  {
    if d != [] && d[0] == 0 {
      StripKeepsVal(d[1..], b);
      assert d == d[..1] + d[1..];
      ValConcat(d[..1], d[1..], b);
      ValZeros(d[..1], b);
    }
  }

  lemma StrippedDigits(d: seq<nat>, b: nat)
    requires b >= 2 && Below(d, b)
    ensures Strip(d) == Digits(Val(d, b), b)
  {
    StripKeepsVal(d, b);
    DigitsOfVal(Strip(d), b);
  }
}
