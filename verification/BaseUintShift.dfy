/** Shifts, comparison, bit length and long division of the fixed-width integers. */
module BaseUintShift {
  import opened Powers
  import opened Limbs
  import opened BaseUint

  // ---- operations on one limb

  function ShlLimb(x: Limb, s: nat): Limb {
    (x * Pow2(s)) % B
  }

  function ShrLimb(x: Limb, s: nat): Limb {
    DivShrinks(x, Pow2(s));
    x / Pow2(s)
  }

  function OrLimb(x: Limb, y: Limb): Limb {
    Pow2Of32();
    OrBound(x, y, 32);
    Or(x, y)
  }

  lemma DivShrinks(x: nat, d: nat)
    requires d >= 1
    ensures 0 <= x / d <= x
  {
    if x / d > x { MulMono(x + 1, x / d, d); MulMono(1, d, x + 1); }
  }

  lemma {:induction false} OrBound(x: nat, y: nat, k: nat)
    requires x < Pow2(k) && y < Pow2(k)
    ensures Or(x, y) < Pow2(k)
  {
    if k > 0 && (x != 0 || y != 0) { OrBound(x / 2, y / 2, k - 1); }
  }

  // ---- one limb shifted

  lemma SplitProduct(x: nat, p: nat, q: nat)
    requires p >= 1 && q >= 1
    ensures x * p == (x / q) * (q * p) + (x % q) * p
    ensures 0 <= (x % q) * p < q * p
  {
    var h, l := x / q, x % q;
    assert x == h * q + l;
    MulAdd(h * q, l, p);
    MulAssoc(h, q, p);
    MulMono(l, q - 1, p);
    MulSub(q, 1, p);
    MulMono(0, l, p);
  }

  /** A limb shifted left by s splits into what stays and what moves to the next limb. */
  lemma LimbShiftLeft(x: Limb, s: nat)
    requires s < 32
    ensures (x * Pow2(s)) / B == x / Pow2(32 - s)
    ensures ((x * Pow2(s)) % B) % Pow2(s) == 0
    ensures x / Pow2(32 - s) < Pow2(s)
  {
    hide Pow2;
    var p, q := Pow2(s), Pow2(32 - s);
    Pow2Add(s, 32 - s);
    Pow2Of32();
    assert p * q == q * p == B;
    SplitProduct(x, p, q);
    DivModUnique(x * p, B, x / q, (x % q) * p);
    DivModUnique((x % q) * p, p, x % q, 0);
    QuotientBelow(x, p, q);
  }

  // ---- shift left

  /** The state of the loop when i limbs of a have been placed k limbs and s bits up. */
  ghost predicate ShiftedUp(p: seq<Limb>, a: seq<Limb>, k: nat, s: nat, i: nat) {
    && |p| == |a| && i <= |a|
    && if i + k < |a| then
         && Val(p) == Val(a[..i]) * Pow2(32 * k + s)
         && p[i + k] < Pow2(s) && (forall j :: i + k < j < |p| ==> p[j] == 0)
       else Val(p) == (Val(a[..i]) * Pow2(32 * k + s)) % Weight(|a|)
  }

  lemma LimbUp(i: nat, k: nat, s: nat, x: nat)
    ensures x * Weight(i) * Pow2(32 * k + s) == (x * Pow2(s)) * Weight(i + k)
  {
    WeightAdd(i, k);
    WeightIsPow2(k);
    Pow2Add(32 * k, s);
    var w, v, p := Weight(i), Weight(k), Pow2(s);
    MulAssoc(x * w, v, p);
    MulAssoc(x, w, v);
    assert x * w * v * p == (x * p) * (w * v) by { MulAssoc(x, w * v, p); MulAssoc(x, p, w * v); }
  }

  lemma NextTotal(a: seq<Limb>, k: nat, s: nat, i: nat)
    requires i < |a|
    ensures Val(a[..i + 1]) * Pow2(32 * k + s) == Val(a[..i]) * Pow2(32 * k + s) + (a[i] * Pow2(s)) * Weight(i + k)
  {
    hide Val, Weight, Pow2;
    ValPrefix(a, i);
    MulAdd(Val(a[..i]), a[i] * Weight(i), Pow2(32 * k + s));
    LimbUp(i, k, s, a[i]);
  }

  /** Limbs past the top add a multiple of the modulus. */
  lemma UpPastTop(p: seq<Limb>, a: seq<Limb>, k: nat, s: nat, i: nat)
    requires ShiftedUp(p, a, k, s, i) && i < |a| && i + k >= |a|
    ensures ShiftedUp(p, a, k, s, i + 1)
  {
    hide Val, Weight, Pow2;
    NextTotal(a, k, s, i);
    var w, d := Weight(|a|), i + k - |a|;
    WeightAdd(d, |a|);
    MulAssoc(a[i] * Pow2(s), Weight(d), w);
    var t := Val(a[..i]) * Pow2(32 * k + s);
    MulAdd(t / w, a[i] * Pow2(s) * Weight(d), w);
    ValBound(p);
    DivModUnique(t + a[i] * Pow2(s) * Weight(i + k), w, t / w + a[i] * Pow2(s) * Weight(d), t % w);
  }

  lemma SplitLimb(x: nat, p: nat, w: nat)
    ensures (x * p) * w == ((x * p) % B) * w + ((x * p) / B) * (B * w)
  {
    var n := x * p;
    MulAssoc(n / B, B, w);
    MulAdd(n % B, n / B * B, w);
  }

  /** The top limb: its high part falls off. */
  lemma UpAtTop(p: seq<Limb>, a: seq<Limb>, k: nat, s: nat, i: nat, low: Limb)
    requires ShiftedUp(p, a, k, s, i) && i < |a| && i + k + 1 == |a| && s < 32
    requires low == OrLimb(p[i + k], ShlLimb(a[i], s))
    ensures ShiftedUp(p[i + k := low], a, k, s, i + 1)
  {
    hide Val, Weight, Pow2, Or;
    NextTotal(a, k, s, i);
    LimbShiftLeft(a[i], s);
    OrJoins(p[i + k], (a[i] * Pow2(s)) % B, s);
    ValUpdate(p, i + k, low);
    SplitLimb(a[i], Pow2(s), Weight(i + k));
    WeightNext(i + k);
    var q := p[i + k := low];
    ValBound(q);
    WrapsTo(Val(q), a[i] * Pow2(s) / B, Weight(|a|), Val(a[..i + 1]) * Pow2(32 * k + s));
  }

  lemma OrJoins(low: nat, high: nat, k: nat)
    requires low < Pow2(k) && high % Pow2(k) == 0
    ensures Or(low, high) == low + high
  {
    OrSymmetric(low, high);
    OrDisjoint(high, low, k);
  }

  lemma {:induction false} OrSymmetric(x: nat, y: nat)
    ensures Or(x, y) == Or(y, x)
  {
    if x != 0 || y != 0 { OrSymmetric(x / 2, y / 2); }
  }

  lemma UpBelowTop(p: seq<Limb>, a: seq<Limb>, k: nat, s: nat, i: nat, low: Limb, high: Limb)
    requires ShiftedUp(p, a, k, s, i) && i + k + 1 < |a| && s < 32
    requires low == OrLimb(p[i + k], ShlLimb(a[i], s))
    requires high == ShrLimb(a[i], 32 - s)
    ensures ShiftedUp(p[i + k + 1 := high][i + k := low], a, k, s, i + 1)
  {
    hide Val, Weight, Pow2, Or;
    NextTotal(a, k, s, i);
    LimbShiftLeft(a[i], s);
    OrJoins(p[i + k], (a[i] * Pow2(s)) % B, s);
    ValUpdate(p, i + k + 1, high);
    ValUpdate(p[i + k + 1 := high], i + k, low);
    SplitLimb(a[i], Pow2(s), Weight(i + k));
    WeightNext(i + k);
  }

  lemma UpStart(p: seq<Limb>, a: seq<Limb>, k: nat, s: nat)
    requires |p| == |a| && forall j :: 0 <= j < |p| ==> p[j] == 0
    ensures ShiftedUp(p, a, k, s, 0)
  {
    hide Weight;
    ValZero(p);
    ValZero(a[..0]);
  }

  lemma ShrAll(x: Limb)
    ensures ShrLimb(x, 32) == 0 && forall y: Limb :: OrLimb(0, y) == y
  {
    Pow2Of32();
    forall y: Limb ensures OrLimb(0, y) == y { OrZero(y); }
  }

  lemma UpDone(p: seq<Limb>, a: seq<Limb>, k: nat, s: nat)
    requires ShiftedUp(p, a, k, s, |a|)
    ensures Val(p) == (Val(a) * Pow2(32 * k + s)) % Weight(|a|)
  {
    assert a[..|a|] == a;
  }

  /** One turn of the loop. */
  lemma UpStep(p: seq<Limb>, q: seq<Limb>, a: seq<Limb>, k: nat, s: nat, i: nat)
    requires ShiftedUp(p, a, k, s, i) && i < |a| && s < 32
    requires i + k + 1 < |a| && s != 0 ==> q == p[i + k + 1 := OrLimb(p[i + k + 1], ShrLimb(a[i], 32 - s))]
    requires !(i + k + 1 < |a| && s != 0) ==> q == p
    ensures i + k < |a| ==> ShiftedUp(q[i + k := OrLimb(q[i + k], ShlLimb(a[i], s))], a, k, s, i + 1)
    ensures i + k >= |a| ==> ShiftedUp(q, a, k, s, i + 1)
  {
    hide Val, Weight, Pow2, OrLimb, ShlLimb, ShrLimb;
    ShrAll(a[i]);
    if i + k >= |a| {
      UpPastTop(p, a, k, s, i);
    } else if i + k + 1 == |a| {
      UpAtTop(p, a, k, s, i, OrLimb(p[i + k], ShlLimb(a[i], s)));
    } else {
      UpBelowTop(p, a, k, s, i, OrLimb(p[i + k], ShlLimb(a[i], s)), ShrLimb(a[i], 32 - s));
      assert q == p[i + k + 1 := ShrLimb(a[i], 32 - s)];
    }
  }

  method ShiftLeftAssign(p: array<Limb>, shift: nat)
    modifies p
    ensures Val(p[..]) == (Val(old(p[..])) * Pow2(shift)) % Weight(p.Length)
  {
    hide Val, Weight, Pow2, OrLimb, ShlLimb, ShrLimb;
    var a, n := p[..], p.Length;
    forall i | 0 <= i < n { p[i] := 0; }
    var k, s := shift / 32, shift % 32;
    UpStart(p[..], a, k, s);
    for i := 0 to n
      invariant ShiftedUp(p[..], a, k, s, i)
    {
      hide ShiftedUp;
      ghost var was := p[..];
      if i + k + 1 < n && s != 0 { p[i + k + 1] := OrLimb(p[i + k + 1], ShrLimb(a[i], 32 - s)); }
      ghost var mid := p[..];
      UpStep(was, mid, a, k, s, i);
      if i + k < n {
        p[i + k] := OrLimb(p[i + k], ShlLimb(a[i], s));
        assert p[..] == mid[i + k := OrLimb(mid[i + k], ShlLimb(a[i], s))];
      }
    }
    UpDone(p[..], a, k, s);
  }

  // ---- shift right

  /** The state of the loop when i limbs of a have been placed k limbs and s bits down. */
  ghost predicate ShiftedDown(p: seq<Limb>, a: seq<Limb>, k: nat, s: nat, i: nat) {
    && |p| == |a| && i <= |a| && s < 32
    && Val(p) == Val(a[..i]) / Pow2(32 * k + s)
    && (i > k ==> p[i - k - 1] < Pow2(32 - s))
    && forall j :: 0 <= j < |p| && j >= i - k ==> p[j] == 0
  }

  lemma DivBelow(x: nat, d: nat)
    requires x < d
    ensures x / d == 0
  {
    DivModUnique(x, d, 0, x);
  }

  lemma DivPlusMultiple(x: nat, m: nat, d: nat)
    requires d >= 1
    ensures (x + m * d) / d == x / d + m
  {
    MulAdd(x / d, m, d);
    DivModUnique(x + m * d, d, x / d + m, x % d);
  }

  lemma DivDiv(x: nat, c: nat, d: nat)
    requires c >= 1 && d >= 1
    ensures c * d >= 1 && x / (c * d) == (x / c) / d
  {
    var q := x / c;
    MulMono(1, c, d);
    var y := q / d;
    assert x == q * c + x % c && q == y * d + q % d;
    MulAdd(y * d, q % d, c);
    MulAssoc(y, d, c);
    MulMono(q % d, d - 1, c);
    MulSub(d, 1, c);
    MulMono(0, q % d, c);
    DivModUnique(x, c * d, y, (q % d) * c + x % c);
  }

  lemma DownBelow(p: seq<Limb>, a: seq<Limb>, k: nat, s: nat, i: nat)
    requires ShiftedDown(p, a, k, s, i) && i < |a| && i < k && s < 32
    ensures ShiftedDown(p, a, k, s, i + 1)
  {
    hide Val, Weight, Pow2;
    ValBound(a[..i + 1]);
    ValZero(p);
    WeightIsPow2(i + 1);
    Pow2Mono(32 * (i + 1), 32 * k + s);
    DivBelow(Val(a[..i + 1]), Pow2(32 * k + s));
  }

  lemma ShrBelow(x: Limb, s: nat)
    requires s < 32
    ensures ShrLimb(x, s) < Pow2(32 - s)
  {
    hide Pow2;
    Pow2Add(s, 32 - s);
    Pow2Of32();
    QuotientBelow(x, Pow2(32 - s), Pow2(s));
  }

  lemma DownFirst(p: seq<Limb>, a: seq<Limb>, k: nat, s: nat, i: nat)
    requires ShiftedDown(p, a, k, s, i) && i < |a| && i == k && s < 32
    ensures ShiftedDown(p[0 := ShrLimb(a[i], s)], a, k, s, i + 1)
  {
    hide Val, Weight, Pow2;
    ValPrefix(a, i);
    ValBound(a[..i]);
    WeightIsPow2(k);
    Pow2Add(32 * k, s);
    DivModUnique(Val(a[..i + 1]), Weight(k), a[i], Val(a[..i]));
    DivDiv(Val(a[..i + 1]), Weight(k), Pow2(s));
    ValZero(p);
    var x := ShrLimb(a[i], s);
    ValUpdate(p, 0, x);
    assert Weight(0) == 1 by { WeightZero(); }
    ShrBelow(a[i], s);
  }

  lemma WeightZero()
    ensures Weight(0) == 1
  {}

  lemma LimbDown(i: nat, k: nat, s: nat, x: nat)
    requires i > k && s < 32
    ensures x * Weight(i) == (x * Pow2(32 - s) * Weight(i - k - 1)) * Pow2(32 * k + s)
  {
    hide Weight, Pow2;
    WeightIsPow2(i);
    WeightIsPow2(i - k - 1);
    Pow2Add(32 - s, 32 * (i - k - 1));
    Pow2Add(32 - s + 32 * (i - k - 1), 32 * k + s);
    assert 32 - s + 32 * (i - k - 1) + (32 * k + s) == 32 * i;
    MulAssoc(x, Pow2(32 - s), Weight(i - k - 1));
    MulAssoc(x, Pow2(32 - s) * Weight(i - k - 1), Pow2(32 * k + s));
  }

  lemma DownTotal(a: seq<Limb>, k: nat, s: nat, i: nat)
    requires k < i < |a| && s < 32
    ensures Val(a[..i + 1]) / Pow2(32 * k + s) ==
              Val(a[..i]) / Pow2(32 * k + s) + ShlLimb(a[i], 32 - s) * Weight(i - k - 1) +
                  ShrLimb(a[i], s) * Weight(i - k)
    ensures ShlLimb(a[i], 32 - s) % Pow2(32 - s) == 0
  {
    hide Val, Weight, Pow2;
    ValPrefix(a, i);
    LimbDown(i, k, s, a[i]);
    DivPlusMultiple(Val(a[..i]), a[i] * Pow2(32 - s) * Weight(i - k - 1), Pow2(32 * k + s));
    SplitLimb(a[i], Pow2(32 - s), Weight(i - k - 1));
    WeightNext(i - k - 1);
    LimbShiftRight(a[i], s);
  }

  lemma LimbShiftRight(x: Limb, s: nat)
    requires s < 32
    ensures (x * Pow2(32 - s)) / B == ShrLimb(x, s)
    ensures ShlLimb(x, 32 - s) % Pow2(32 - s) == 0
  {
    if s == 0 {
      Pow2Of32();
      DivModUnique(x * B, B, x, 0);
    } else {
      LimbShiftLeft(x, 32 - s);
    }
  }

  lemma DownAbove(p: seq<Limb>, a: seq<Limb>, k: nat, s: nat, i: nat, low: Limb)
    requires ShiftedDown(p, a, k, s, i) && k < i < |a| && s < 32
    requires low == OrLimb(p[i - k - 1], ShlLimb(a[i], 32 - s))
    ensures ShiftedDown(p[i - k - 1 := low][i - k := ShrLimb(a[i], s)], a, k, s, i + 1)
  {
    hide Val, Weight, Pow2, Or, ShlLimb, ShrLimb;
    DownTotal(a, k, s, i);
    OrJoins(p[i - k - 1], ShlLimb(a[i], 32 - s), 32 - s);
    ValUpdate(p, i - k - 1, low);
    ValUpdate(p[i - k - 1 := low], i - k, ShrLimb(a[i], s));
    ShrBelow(a[i], s);
  }

  lemma ShlAll(x: Limb)
    ensures ShlLimb(x, 32) == 0 && forall y: Limb :: OrLimb(y, 0) == y && OrLimb(0, y) == y
  {
    Pow2Of32();
    DivModUnique(x * B, B, x, 0);
    forall y: Limb ensures OrLimb(y, 0) == y && OrLimb(0, y) == y { OrZero(y); }
  }

  /** One turn of the loop. */
  lemma DownStep(p: seq<Limb>, q: seq<Limb>, a: seq<Limb>, k: nat, s: nat, i: nat)
    requires ShiftedDown(p, a, k, s, i) && i < |a| && s < 32
    requires i - k - 1 >= 0 && s != 0 ==> q == p[i - k - 1 := OrLimb(p[i - k - 1], ShlLimb(a[i], 32 - s))]
    requires !(i - k - 1 >= 0 && s != 0) ==> q == p
    ensures i - k >= 0 ==> ShiftedDown(q[i - k := OrLimb(q[i - k], ShrLimb(a[i], s))], a, k, s, i + 1)
    ensures i - k < 0 ==> ShiftedDown(q, a, k, s, i + 1)
  {
    hide Val, Weight, Pow2, OrLimb, ShlLimb, ShrLimb;
    ShlAll(a[i]);
    if i < k {
      DownBelow(p, a, k, s, i);
    } else if i == k {
      DownFirst(p, a, k, s, i);
    } else {
      var low := OrLimb(p[i - k - 1], ShlLimb(a[i], 32 - s));
      DownAbove(p, a, k, s, i, low);
      assert q == p[i - k - 1 := low];
    }
  }

  lemma DownStart(p: seq<Limb>, a: seq<Limb>, k: nat, s: nat)
    requires |p| == |a| && s < 32 && forall j :: 0 <= j < |p| ==> p[j] == 0
    ensures ShiftedDown(p, a, k, s, 0)
  {
    ValZero(p);
    ValZero(a[..0]);
    DivBelow(0, Pow2(32 * k + s));
  }

  lemma DownDone(p: seq<Limb>, a: seq<Limb>, k: nat, s: nat)
    requires ShiftedDown(p, a, k, s, |a|)
    ensures Val(p) == Val(a) / Pow2(32 * k + s)
  {
    assert a[..|a|] == a;
  }

  method ShiftRightAssign(p: array<Limb>, shift: nat)
    modifies p
    ensures Val(p[..]) == Val(old(p[..])) / Pow2(shift)
  {
    hide Val, Weight, Pow2, OrLimb, ShlLimb, ShrLimb;
    var a, n := p[..], p.Length;
    forall i | 0 <= i < n { p[i] := 0; }
    var k, s := shift / 32, shift % 32;
    DownStart(p[..], a, k, s);
    for i := 0 to n
      invariant ShiftedDown(p[..], a, k, s, i)
    {
      hide ShiftedDown;
      ghost var was := p[..];
      if i - k - 1 >= 0 && s != 0 { p[i - k - 1] := OrLimb(p[i - k - 1], ShlLimb(a[i], 32 - s)); }
      ghost var mid := p[..];
      DownStep(was, mid, a, k, s, i);
      if i - k >= 0 {
        p[i - k] := OrLimb(p[i - k], ShrLimb(a[i], s));
        assert p[..] == mid[i - k := OrLimb(mid[i - k], ShrLimb(a[i], s))];
      }
    }
    DownDone(p[..], a, k, s);
  }

  // ---- comparison and bit length

  /** The highest limb that differs decides. */
  lemma HigherLimbWins(a: seq<Limb>, b: seq<Limb>, i: nat)
    requires i < |a| && |a| == |b| && a[i] < b[i] && forall j :: i < j < |a| ==> a[j] == b[j]
    ensures Val(a) < Val(b)
  {
    hide Val, Weight;
    var t := a[i + 1..];
    assert a == a[..i + 1] + t && b == b[..i + 1] + t;
    ValConcat(a[..i + 1], t);
    ValConcat(b[..i + 1], t);
    ValPrefix(a, i);
    ValPrefix(b, i);
    ValBound(a[..i]);
    MulMono(a[i] + 1, b[i], Weight(i));
    MulAdd(a[i], 1, Weight(i));
  }

  method CompareTo(a: array<Limb>, b: array<Limb>) returns (r: int)
    requires a.Length == b.Length
    ensures r == -1 || r == 0 || r == 1
    ensures r < 0 <==> Val(a[..]) < Val(b[..])
    ensures r == 0 <==> Val(a[..]) == Val(b[..])
  {
    hide Val;
    var i := a.Length - 1;
    while i >= 0
      invariant -1 <= i < a.Length
      invariant forall j :: i < j < a.Length ==> a[j] == b[j]
    {
      if a[i] < b[i] {
        HigherLimbWins(a[..], b[..], i);
        return -1;
      }
      if a[i] > b[i] {
        HigherLimbWins(b[..], a[..], i);
        return 1;
      }
      i := i - 1;
    }
    assert a[..] == b[..];
    return 0;
  }

  /** The number of bits: the least b with the value below 2 to the b. */
  ghost predicate IsBits(v: nat, b: nat) {
    v < Pow2(b) && (b > 0 ==> Pow2(b - 1) <= v)
  }

  lemma ValTop(a: seq<Limb>, pos: nat)
    requires pos < |a| && forall j :: pos < j < |a| ==> a[j] == 0
    ensures Val(a) == Val(a[..pos]) + a[pos] * Weight(pos)
  {
    hide Val, Weight;
    var t := a[pos + 1..];
    assert a == a[..pos + 1] + t;
    ValZero(t);
    ValConcat(a[..pos + 1], t);
    ValPrefix(a, pos);
  }

  lemma TopLimb(a: seq<Limb>, pos: nat, b: nat)
    requires pos < |a| && (forall j :: pos < j < |a| ==> a[j] == 0) && b > 0 && IsBits(a[pos], b)
    ensures IsBits(Val(a), 32 * pos + b)
  {
    hide Val, Weight, Pow2;
    ValTop(a, pos);
    ValBound(a[..pos]);
    WeightIsPow2(pos);
    Pow2Add(32 * pos, b);
    Pow2Add(32 * pos, b - 1);
    var w, x: nat := Weight(pos), a[pos];
    MulMono(Pow2(b - 1), x, w);
    MulMono(x + 1, Pow2(b), w);
    MulAdd(x, 1, w);
  }

  method Bits(a: array<Limb>) returns (b: nat)
    ensures IsBits(Val(a[..]), b) && b <= 32 * a.Length
  {
    hide Val;
    var pos := a.Length - 1;
    while pos >= 0
      invariant -1 <= pos < a.Length
      invariant forall j :: pos < j < a.Length ==> a[j] == 0
    {
      if a[pos] != 0 {
        Pow2Of32();
        var nbits := 31;
        while nbits > 0
          invariant 0 <= nbits <= 31 && a[pos] < Pow2(nbits + 1)
        {
          if (a[pos] / Pow2(nbits)) % 2 == 1 {
            BitTest(a[pos], nbits);
            TopLimb(a[..], pos, nbits + 1);
            return 32 * pos + nbits + 1;
          }
          BitTest(a[pos], nbits);
          nbits := nbits - 1;
        }
        TopLimb(a[..], pos, 1);
        return 32 * pos + 1;
      }
      pos := pos - 1;
    }
    ValZero(a[..]);
    return 0;
  }

  lemma BitTest(x: nat, k: nat)
    requires x < Pow2(k + 1)
    ensures (x / Pow2(k)) % 2 == 1 <==> x >= Pow2(k)
  {
    var p := Pow2(k);
    if x >= p { DivModUnique(x, p, 1, x - p); } else { DivModUnique(x, p, 0, x); }
  }

  // ---- long division

  /** Division goes on with shift t: everything above bit t of the quotient q is settled. */
  ghost predicate Dividing(n: nat, d: nat, num: nat, q: nat, t: int) {
    && t >= -1
    && n == num + q * d && num < d * Pow2(t + 1)
  }

  lemma DivideStart(n: nat, d: nat, nb: nat, db: nat)
    requires IsBits(n, nb) && IsBits(d, db) && 1 <= db <= nb
    ensures Dividing(n, d, n, 0, nb - db) && d * Pow2(nb - db) < Pow2(nb)
  {
    hide Pow2;
    Pow2Add(db - 1, nb - db + 1);
    Pow2Add(db, nb - db);
    MulMono(Pow2(db - 1), d, Pow2(nb - db + 1));
    MulMono(d, Pow2(db) - 1, Pow2(nb - db));
    MulSub(Pow2(db), 1, Pow2(nb - db));
  }

  lemma Pow2Next(k: nat)
    ensures Pow2(k + 1) == 2 * Pow2(k)
  {}

  lemma DivideStep(n: nat, d: nat, num: nat, q: nat, t: nat)
    requires Dividing(n, d, num, q, t)
    ensures num >= d * Pow2(t) ==> Dividing(n, d, num - d * Pow2(t), q + Pow2(t), t - 1)
    ensures num < d * Pow2(t) ==> Dividing(n, d, num, q, t - 1)
  {
    hide Pow2;
    Pow2Next(t);
    MulAssoc(d, 2, Pow2(t));
    MulAdd(q, Pow2(t), d);
  }

  lemma DivideDone(n: nat, d: nat, num: nat, q: nat)
    requires Dividing(n, d, num, q, -1)
    ensures d > 0 && q == n / d && num == n % d
  {
    DivModUnique(n, d, q, num);
  }

  /** The quotient so far has no bit at or below t. */
  ghost predicate ClearUpTo(q: seq<Limb>, t: int) {
    -1 <= t < 32 * |q| &&
    (t >= 0 ==>
      && q[t / 32] % Pow2(t % 32 + 1) == 0
      && forall j :: 0 <= j < t / 32 ==> q[j] == 0)
  }

  lemma MultipleOfHalf(x: nat, k: nat)
    requires k > 0 && x % Pow2(k) == 0
    ensures x % Pow2(k - 1) == 0 && (x + Pow2(k - 1)) % Pow2(k - 1) == 0
  {
    var p := Pow2(k - 1);
    var q := x / Pow2(k);
    assert x == q * (2 * p);
    MulAssoc(q, 2, p);
    DivModUnique(x, p, q * 2, 0);
    MulAdd(q * 2, 1, p);
    DivModUnique(x + p, p, q * 2 + 1, 0);
  }

  lemma Pow2Below(k: nat)
    requires k < 32
    ensures Pow2(k) < B
  {
    Pow2Of32();
    Pow2Mono(k + 1, 32);
  }

  lemma SetBit(q: seq<Limb>, t: nat, bit: Limb)
    requires ClearUpTo(q, t) && bit == Pow2(t % 32)
    ensures var r := q[t / 32 := OrLimb(q[t / 32], bit)];
            Val(r) == Val(q) + Pow2(t) && ClearUpTo(r, t - 1)
    ensures ClearUpTo(q, t - 1)
  {
    hide Val, Weight, Pow2, Or;
    var k, b := t / 32, t % 32;
    Pow2Next(b);
    OrDisjoint(q[k], bit, b + 1);
    MultipleOfHalf(q[k], b + 1);
    ValUpdate(q, k, OrLimb(q[k], bit));
    WeightIsPow2(k);
    Pow2Add(b, 32 * k);
    if b > 0 {
      assert (t - 1) / 32 == k && (t - 1) % 32 == b - 1;
    } else if t > 0 {
      assert (t - 1) / 32 == k - 1;
      DivModUnique(0, Pow2((t - 1) % 32 + 1), 0, 0);
    }
  }

  method Copy(a: array<Limb>) returns (r: array<Limb>)
    ensures fresh(r) && r[..] == a[..]
  {
    r := new Limb[a.Length](i requires 0 <= i < a.Length reads a => a[i]);
  }

  datatype Outcome = Divided | DivisionByZero

  lemma BitsBelow(v: nat, b: nat, m: nat)
    requires b <= 32 * m && v < Pow2(b)
    ensures v < Weight(m)
  {
    WeightIsPow2(m);
    Pow2Mono(b, 32 * m);
  }

  lemma HalveShifted(d: nat, t: nat)
    requires t > 0
    ensures (d * Pow2(t)) / Pow2(1) == d * Pow2(t - 1)
  {
    MulAssoc(d, 2, Pow2(t - 1));
    assert d * Pow2(t) == 2 * (d * Pow2(t - 1));
    DivModUnique(d * Pow2(t), 2, d * Pow2(t - 1), 0);
  }

  /** One turn of the division loop on the numbers: subtract if the divisor fits, then halve it. */
  method DivideTurn(p: array<Limb>, num: array<Limb>, div: array<Limb>, shift: nat, ghost n: nat, ghost d: nat)
    requires p.Length == num.Length == div.Length && p != num && p != div && num != div
    requires shift < 32 * p.Length && ClearUpTo(p[..], shift)
    requires Dividing(n, d, Val(num[..]), Val(p[..]), shift) && Val(div[..]) == d * Pow2(shift)
    modifies p, num, div
    ensures ClearUpTo(p[..], shift - 1)
    ensures Dividing(n, d, Val(num[..]), Val(p[..]), shift - 1)
    ensures shift > 0 ==> Val(div[..]) == d * Pow2(shift - 1)
  {
    hide Val, Weight, Pow2, Dividing, ClearUpTo, OrLimb;
    ghost var x, y := Val(num[..]), Val(div[..]);
    DivideStep(n, d, x, Val(p[..]), shift);
    Pow2Below(shift % 32);
    var bit: Limb := Pow2(shift % 32);
    SetBit(p[..], shift, bit);
    var c := CompareTo(num, div);
    if c >= 0 {
      ValBound(num[..]);
      DivModUnique(x - y, Weight(num.Length), 0, x - y);
      SubAssign(num, div);
      ghost var q := p[..];
      p[shift / 32] := OrLimb(p[shift / 32], bit);
      assert p[..] == q[shift / 32 := OrLimb(q[shift / 32], bit)];
    }
    ShiftRightAssign(div, 1);
    if shift > 0 { HalveShifted(d, shift); }
  }

  /** p /= b by shifting and subtracting: the exact floor quotient for every divisor but zero. */
  method DivAssign(p: array<Limb>, b: array<Limb>) returns (r: Outcome)
    requires p.Length == b.Length
    modifies p
    ensures r.DivisionByZero? <==> Val(old(b[..])) == 0
    ensures r.Divided? ==> Val(p[..]) == Val(old(p[..])) / Val(old(b[..]))
  {
    hide Val, Weight, Pow2, Dividing, ClearUpTo;
    var div := Copy(b);
    var num := Copy(p);
    ghost var n, d, ns, ds := Val(num[..]), Val(div[..]), num[..], div[..];
    assert d == Val(old(b[..])) && n == Val(old(p[..]));
    forall i | 0 <= i < p.Length { p[i] := 0; }
    assert num[..] == ns && div[..] == ds;
    ValZero(p[..]);
    var num_bits := Bits(num);
    var div_bits := Bits(div);
    BitsOfZero(d, div_bits);
    if div_bits == 0 { return DivisionByZero; }
    if div_bits > num_bits {
      BitsOrder(n, num_bits, d, div_bits);
      return Divided;
    }
    var shift := num_bits - div_bits;
    DivideStart(n, d, num_bits, div_bits);
    BitsBelow(d * Pow2(shift), num_bits, p.Length);
    DivModUnique(d * Pow2(shift), Weight(p.Length), 0, d * Pow2(shift));
    ShiftLeftAssign(div, shift);
    AllClear(p[..], shift);
    while shift >= 0
      invariant -1 <= shift < 32 * p.Length && ClearUpTo(p[..], shift)
      invariant Dividing(n, d, Val(num[..]), Val(p[..]), shift)
      invariant shift >= 0 ==> Val(div[..]) == d * Pow2(shift)
    {
      DivideTurn(p, num, div, shift, n, d);
      shift := shift - 1;
    }
    DivideDone(n, d, Val(num[..]), Val(p[..]));
    return Divided;
  }

  lemma AllClear(q: seq<Limb>, t: nat)
    requires t < 32 * |q| && forall j :: 0 <= j < |q| ==> q[j] == 0
    ensures ClearUpTo(q, t)
  {
    DivModUnique(0, Pow2(t % 32 + 1), 0, 0);
  }

  lemma BitsOfZero(v: nat, b: nat)
    requires IsBits(v, b)
    ensures b == 0 <==> v == 0
  {}

  lemma BitsOrder(n: nat, nb: nat, d: nat, db: nat)
    requires IsBits(n, nb) && IsBits(d, db) && db > nb
    ensures d > 0 && n / d == 0
  {
    Pow2Mono(nb, db - 1);
    DivBelow(n, d);
  }
}
