/** A 32-bit number scaled to a range: the multiply-and-shift replacement of the remainder. */
module FastRange {
  import Limbs

  function FastMod(x: nat, n: nat): nat {
    (x * n) / 0x1_0000_0000
  }

  /** The numbers that go to p are those from p / n of the way up to (p + 1) / n of it. */
  lemma FastModIff(x: nat, n: nat, p: nat)
    ensures FastMod(x, n) == p <==> p * Limbs.B <= x * n < (p + 1) * Limbs.B
  {
    var q, r := x * n / Limbs.B, x * n % Limbs.B;
    assert x * n == q * Limbs.B + r;
    Limbs.MulSub(p + 1, 1, Limbs.B);
    if p * Limbs.B <= x * n < (p + 1) * Limbs.B {
      Limbs.DivModUnique(x * n, Limbs.B, p, x * n - p * Limbs.B);
    }
  }

  lemma FastModBelow(x: nat, n: nat)
    requires x < 0x1_0000_0000 && n > 0
    ensures FastMod(x, n) < n
  {
    Limbs.MulMono(x + 1, Limbs.B, n);
    Limbs.MulSub(x + 1, 1, n);
    Limbs.QuotientBelow(x * n, n, Limbs.B);
  }

  /** A larger number never goes to a smaller position. */
  lemma FastModMonotone(x: nat, y: nat, n: nat)
    requires x <= y
    ensures FastMod(x, n) <= FastMod(y, n)
  {
    Limbs.MulMono(x, y, n);
    Limbs.DivMono(x * n, y * n, Limbs.B);
  }

  /** The first number that goes to p. */
  function First(p: nat, n: nat): nat
    requires n > 0
  {
    (p * 0x1_0000_0000 + n - 1) / n
  }

  lemma FirstIs(p: nat, n: nat)
    requires n > 0
    ensures p * Limbs.B <= First(p, n) * n < p * Limbs.B + n
  {
    var y := p * Limbs.B + n - 1;
    assert y == First(p, n) * n + y % n;
  }

  /** Up to 64 consecutive numbers that go to p, for a range of at most 2 to the 26; one for at most 2 to the 32. */
  lemma FastModOnto(p: nat, n: nat, i: nat)
    requires p < n && (i + 1) * n <= Limbs.B
    ensures First(p, n) + i < Limbs.B && FastMod(First(p, n) + i, n) == p
  {
    var x := First(p, n) + i;
    FirstIs(p, n);
    assert x * n == First(p, n) * n + i * n;
    assert (i + 1) * n == i * n + n;
    Limbs.MulSub(p + 1, 1, Limbs.B);
    FastModIff(x, n, p);
    Limbs.MulMono(p + 1, n, Limbs.B);
    if x >= Limbs.B { Limbs.MulMono(Limbs.B, x, n); }
  }

  /** For a range of at most 2 to the 26 the lowest six bits say nothing about the position: each of them occurs
      with each position. */
  lemma LowBitsIndependent(p: nat, n: nat, bit: nat) returns (x: nat)
    requires p < n <= 0x400_0000 && bit < 64
    ensures x < 0x1_0000_0000 && FastMod(x, n) == p && x % 64 == bit
  {
    var f := First(p, n);
    var i := (bit + 64 - f % 64) % 64;
    x := f + i;
    Limbs.MulMono(i + 1, 64, n);
    FastModOnto(p, n, i);
    LowBits(f, bit);
  }

  lemma LowBits(f: nat, bit: nat)
    requires bit < 64
    ensures (f + (bit + 64 - f % 64) % 64) % 64 == bit
  {}

  /** No position gets more than one number more than another. */
  lemma FastModEven(p: nat, n: nat)
    requires n > 0
    ensures var share := First(p + 1, n) - First(p, n); Limbs.B / n <= share <= Limbs.B / n + 1
    ensures forall x: nat :: FastMod(x, n) == p <==> First(p, n) <= x < First(p + 1, n)
  {
    ShareIs(p, n);
    forall x: nat ensures FastMod(x, n) == p <==> First(p, n) <= x < First(p + 1, n) { InShare(x, p, n); }
  }

  lemma InShare(x: nat, p: nat, n: nat)
    requires n > 0
    ensures FastMod(x, n) == p <==> First(p, n) <= x < First(p + 1, n)
  {
    FastModIff(x, n, p);
    FromFirst(x, p, n);
    FromFirst(x, p + 1, n);
  }

  lemma FromFirst(x: nat, p: nat, n: nat)
    requires n > 0
    ensures First(p, n) <= x <==> p * Limbs.B <= x * n
  {
    FirstIs(p, n);
    var f := First(p, n);
    if f <= x { Limbs.MulMono(f, x, n); }
    if x < f {
      Limbs.MulMono(x + 1, f, n);
      Limbs.MulSub(x + 1, 1, n);
    }
  }

  lemma ShareIs(p: nat, n: nat)
    requires n > 0
    ensures var share := First(p + 1, n) - First(p, n); Limbs.B / n <= share <= Limbs.B / n + 1
  {
    FirstIs(p, n);
    FirstIs(p + 1, n);
    var a, b := First(p, n), First(p + 1, n);
    var q := Limbs.B / n;
    Limbs.MulSub(p + 1, 1, Limbs.B);
    assert Limbs.B == q * n + Limbs.B % n;
    Limbs.MulSub(b, a, n);
    if b - a < q {
      Limbs.MulMono(b - a + 1, q, n);
      Limbs.MulSub(b - a + 1, 1, n);
    }
    if b - a > q + 1 {
      Limbs.MulMono(q + 2, b - a, n);
      Limbs.MulSub(q + 2, 2, n);
    }
  }
}
