/** Fixed-width unsigned integers of any number of limbs; an object is its limb array, changed in place. */
module BaseUint {
  import opened Limbs

  // ---- addition, negation, subtraction

  lemma CarryStep(w: nat, carry: nat, x: nat, y: nat, n: nat, before: nat, was: nat, wasB: nat)
    requires n == carry + x + y && before + carry * w == was + wasB
    ensures before + (n % B) * w + (n / B) * (B * w) == (was + x * w) + (wasB + y * w)
  {
    MulAssoc(n / B, B, w);
    assert n == n / B * B + n % B;
    assert (n % B) * w + (n / B * B) * w == n * w;
    assert n * w == carry * w + x * w + y * w;
  }

  lemma WrapsTo(v: nat, carry: nat, w: nat, total: nat)
    requires v < w && v + carry * w == total
    ensures v == total % w
  {
    DivModUnique(total, w, carry, v);
  }

  /** p += b, also when b is p itself. */
  method AddAssign(p: array<Limb>, b: array<Limb>)
    requires p.Length == b.Length
    modifies p
    ensures Val(p[..]) == (Val(old(p[..])) + Val(old(b[..]))) % Weight(p.Length)
  {
    ghost var was, wasB := p[..], b[..];
    var carry: Word := 0;
    for i := 0 to p.Length
      invariant carry <= 1
      invariant forall j :: i <= j < p.Length ==> p[j] == was[j] && b[j] == wasB[j]
      invariant Val(p[..i]) + carry * Weight(i) == Val(was[..i]) + Val(wasB[..i])
    {
      var n: Word := carry + p[i] + b[i];
      ghost var before := p[..i];
      CarryStep(Weight(i), carry, was[i], wasB[i], n, Val(before), Val(was[..i]), Val(wasB[..i]));
      p[i] := n % B;
      carry := n / B;
      assert p[..i] == before;
      ValPrefix(p[..], i);
      assert p[..][..i + 1] == p[..i + 1] && p[..][..i] == p[..i];
      ValPrefix(was, i);
      ValPrefix(wasB, i);
    }
    assert p[..p.Length] == p[..] && was[..p.Length] == was && wasB[..p.Length] == wasB;
    ValBound(p[..]);
    WrapsTo(Val(p[..]), carry, Weight(p.Length), Val(was) + Val(wasB));
  }

  lemma {:induction false} ValComplement(s: seq<Limb>, t: seq<Limb>)
    requires |s| == |t| && forall i :: 0 <= i < |s| ==> t[i] == B - 1 - s[i]
    ensures Val(t) == Weight(|s|) - 1 - Val(s)
  {
    if s != [] {
      var n := |s| - 1;
      ValComplement(s[..n], t[..n]);
      MulSub(B - 1, s[n], Weight(n));
    }
  }

  method Complement(p: array<Limb>) returns (r: array<Limb>)
    ensures fresh(r) && r.Length == p.Length
    ensures Val(r[..]) == Weight(p.Length) - 1 - Val(p[..])
  {
    r := new Limb[p.Length](_ => 0);
    for i := 0 to p.Length
      invariant forall j :: 0 <= j < i ==> r[j] == B - 1 - p[j]
    {
      r[i] := B - 1 - p[i];
    }
    ValComplement(p[..], r[..]);
  }

  lemma {:induction false} ValFull(s: seq<Limb>)
    requires forall i :: 0 <= i < |s| ==> s[i] == B - 1
    ensures Val(s) == Weight(|s|) - 1
  {
    var t := seq(|s|, i => 0 as Limb);
    ValZero(t);
    ValComplement(t, s);
  }

  /** What turning the low limbs over does to the value. */
  lemma RolledOver(was: seq<Limb>, now: seq<Limb>, i: nat, v: Limb)
    requires i < |was| && |was| == |now| && now[i] == v && forall j :: i < j < |was| ==> now[j] == was[j]
    ensures Val(now) - Val(was) == Val(now[..i]) - Val(was[..i]) + (v - was[i]) * Weight(i)
  {
    hide Val, Weight;
    var t := was[i + 1..];
    assert was == was[..i + 1] + t;
    assert now == now[..i + 1] + t;
    ValConcat(was[..i + 1], t);
    ValConcat(now[..i + 1], t);
    ValPrefix(was, i);
    ValPrefix(now, i);
    MulSub(v, was[i], Weight(i));
  }

  /** Ones below limb i became zeros and limb i went up by one. */
  lemma Incremented(was: seq<Limb>, now: seq<Limb>, i: nat)
    requires i < |was| && |was| == |now|
    requires forall j :: 0 <= j < i ==> now[j] == 0 && was[j] == B - 1
    requires forall j :: i < j < |was| ==> now[j] == was[j]
    requires was[i] < B - 1 && now[i] == was[i] + 1
    ensures Val(now) == (Val(was) + 1) % Weight(|was|)
  {
    hide Val, Weight;
    ValZero(now[..i]);
    ValFull(was[..i]);
    RolledOver(was, now, i, now[i]);
    ValBound(now);
    WrapsTo(Val(now), 0, Weight(|was|), Val(was) + 1);
  }

  lemma IncrementedOver(was: seq<Limb>, now: seq<Limb>)
    requires |was| == |now| && forall j :: 0 <= j < |was| ==> now[j] == 0 && was[j] == B - 1
    ensures Val(now) == (Val(was) + 1) % Weight(|was|)
  {
    ValZero(now);
    ValFull(was);
    WrapsTo(0, 1, Weight(|was|), Val(was) + 1);
  }

  method Increment(p: array<Limb>)
    modifies p
    ensures Val(p[..]) == (Val(old(p[..])) + 1) % Weight(p.Length)
  {
    hide Val, Weight;
    ghost var was := p[..];
    var i := 0;
    while i < p.Length
      invariant 0 <= i <= p.Length
      invariant forall j :: 0 <= j < i ==> p[j] == 0 && was[j] == B - 1
      invariant forall j :: i <= j < p.Length ==> p[j] == was[j]
    {
      p[i] := (p[i] + 1) % B;
      if p[i] != 0 {
        Incremented(was, p[..], i);
        return;
      }
      i := i + 1;
    }
    IncrementedOver(was, p[..]);
  }

  /** Zeros below limb i became ones and limb i went down by one. */
  lemma Decremented(was: seq<Limb>, now: seq<Limb>, i: nat)
    requires i < |was| && |was| == |now|
    requires forall j :: 0 <= j < i ==> now[j] == B - 1 && was[j] == 0
    requires forall j :: i < j < |was| ==> now[j] == was[j]
    requires was[i] > 0 && now[i] == was[i] - 1
    ensures Val(now) == (Val(was) - 1) % Weight(|was|)
  {
    hide Val, Weight;
    ValFull(now[..i]);
    ValZero(was[..i]);
    RolledOver(was, now, i, now[i]);
    ValBound(now);
    DivModUnique(Val(was) - 1, Weight(|was|), 0, Val(now));
  }

  lemma DecrementedOver(was: seq<Limb>, now: seq<Limb>)
    requires |was| == |now| && forall j :: 0 <= j < |was| ==> now[j] == B - 1 && was[j] == 0
    ensures Val(now) == (Val(was) - 1) % Weight(|was|)
  {
    ValFull(now);
    ValZero(was);
    DivModUnique(-1, Weight(|was|), -1, Weight(|was|) - 1);
  }

  method Decrement(p: array<Limb>)
    modifies p
    ensures Val(p[..]) == (Val(old(p[..])) - 1) % Weight(p.Length)
  {
    hide Val, Weight;
    ghost var was := p[..];
    var i := 0;
    while i < p.Length
      invariant 0 <= i <= p.Length
      invariant forall j :: 0 <= j < i ==> p[j] == B - 1 && was[j] == 0
      invariant forall j :: i <= j < p.Length ==> p[j] == was[j]
    {
      p[i] := (p[i] - 1) % B;
      if p[i] != B - 1 {
        Decremented(was, p[..], i);
        return;
      }
      i := i + 1;
    }
    DecrementedOver(was, p[..]);
  }

  method Negate(p: array<Limb>) returns (r: array<Limb>)
    ensures fresh(r) && r.Length == p.Length
    ensures Val(r[..]) == (0 - Val(p[..])) % Weight(p.Length)
  {
    r := Complement(p);
    Increment(r);
    ValBound(p[..]);
    NegateMod(Val(p[..]), Weight(p.Length));
  }

  lemma NegateMod(v: nat, w: nat)
    requires v < w
    ensures (w - 1 - v + 1) % w == (0 - v) % w
  {
    if v == 0 {
      DivModUnique(w, w, 1, 0);
      DivModUnique(0, w, 0, 0);
    } else {
      DivModUnique(w - v, w, 0, w - v);
      DivModUnique(0 - v, w, -1, w - v);
    }
  }

  method SubAssign(p: array<Limb>, b: array<Limb>)
    requires p.Length == b.Length
    modifies p
    ensures Val(p[..]) == (Val(old(p[..])) - Val(old(b[..]))) % Weight(p.Length)
  {
    hide Val, Weight;
    var r := Negate(b);
    ghost var x: int, y: int := Val(p[..]), Val(b[..]);
    AddAssign(p, r);
    ModAdd(x, 0 - y, Weight(p.Length));
  }

  lemma ModAdd(x: int, y: int, w: nat)
    requires w > 0
    ensures (x + y % w) % w == (x + y) % w
  {
    var t := x + y % w;
    MulAdd(t / w, y / w, w);
    DivModUnique(x + y, w, t / w + y / w, t % w);
  }

  lemma MulAdd(a: int, b: int, d: int)
    ensures (a + b) * d == a * d + b * d
  {}

  // ---- multiplication

  lemma ProductFits(a: nat, b: nat, c: nat, d: nat)
    requires a < B && b < B && c < B && d < B
    ensures 0 <= a + b + c * d < B64 && (a + b + c * d) / B < B
  {
    MulMono(c, B - 1, d);
    MulMono(d, B - 1, B - 1);
  }

  lemma RowStep(w: nat, carry: nat, x: nat, y: nat, z: nat, n: nat, before: nat, was: nat, wasB: nat)
    requires n == carry + z + x * y && before + carry * w == was + x * wasB
    ensures before + (n % B) * w + (n / B) * (B * w) == (was + z * w) + x * (wasB + y * w)
  {
    CarryStep(w, carry, z, x * y, n, before, was, x * wasB);
    MulAssoc(x, y, w);
  }

  /** The i lowest limbs of a row are done, with a carry left. */
  ghost predicate RowDone(now: seq<Limb>, was: seq<Limb>, b: seq<Limb>, x: nat, i: nat, carry: nat) {
    && i <= |now| && i <= |was| && i <= |b|
    && Val(now[..i]) + carry * Weight(i) == Val(was[..i]) + x * Val(b[..i])
  }

  lemma RowAdvances(now: seq<Limb>, was: seq<Limb>, b: seq<Limb>, x: nat, i: nat, carry: nat, n: nat)
    requires RowDone(now, was, b, x, i, carry) && i < |now| && i < |was| && i < |b|
    requires n == carry + was[i] + x * b[i]
    ensures var low: Limb := n % B; RowDone(now[i := low], was, b, x, i + 1, n / B)
  {
    hide Val;
    RowStep(Weight(i), carry, x, b[i], was[i], n, Val(now[..i]), Val(was[..i]), Val(b[..i]));
    var low: Limb := n % B;
    var next := now[i := low];
    assert next[..i] == now[..i];
    ValPrefix(next, i);
    ValPrefix(was, i);
    ValPrefix(b, i);
  }

  method MulAssignWord(p: array<Limb>, b: Limb)
    modifies p
    ensures Val(p[..]) == (b * Val(old(p[..]))) % Weight(p.Length)
  {
    hide Val, Weight;
    ghost var was, none := p[..], seq(p.Length, _ => 0 as Limb);
    var carry: Word := 0;
    assert RowDone(p[..], none, was, b, 0, carry) by { ValZero([]); }
    for i := 0 to p.Length
      invariant carry < B
      invariant forall j :: i <= j < p.Length ==> p[j] == was[j]
      invariant RowDone(p[..], none, was, b, i, carry)
    {
      hide RowDone;
      var x := p[i];
      ProductFits(carry, 0, b, x);
      var n: Word := carry + b * x;
      ghost var now := p[..];
      RowAdvances(now, none, was, b, i, carry, n);
      var low: Limb := n % B;
      p[i] := low;
      carry := n / B;
      assert p[..] == now[i := low];
    }
    assert p[..][..p.Length] == p[..] && was[..p.Length] == was && none[..p.Length] == none;
    ValZero(none);
    ValBound(p[..]);
    WrapsTo(Val(p[..]), carry, Weight(p.Length), b * Val(was));
  }

  /** One row of the product: x times b, added to a from its j-th limb up. */
  method AddRow(a: array<Limb>, j: nat, x: Limb, b: array<Limb>) returns (ghost carry: nat)
    requires a != b && a.Length == b.Length && j < a.Length
    modifies a
    ensures a[..j] == old(a[..j])
    ensures RowDone(a[j..], old(a[j..]), b[..], x, a.Length - j, carry)
  {
    hide Val, Weight;
    ghost var was := a[j..];
    var c: Word := 0;
    assert RowDone(a[j..], was, b[..], x, 0, c) by { ValZero([]); }
    var m := a.Length - j;
    for i := 0 to m
      invariant c < B && a[..j] == old(a[..j])
      invariant forall k :: i <= k < m ==> a[j + k] == was[k]
      invariant RowDone(a[j..], was, b[..], x, i, c)
    {
      hide RowDone;
      var z, y := a[i + j], b[i];
      ProductFits(c, z, x, y);
      var n: Word := c + z + x * y;
      ghost var now := a[j..];
      RowAdvances(now, was, b[..], x, i, c, n);
      var low: Limb := n % B;
      a[i + j] := low;
      c := n / B;
      assert a[j..] == now[i := low];
    }
    carry := c;
  }

  /** A row lifts to the whole numbers, up to what falls off the top. */
  lemma RowLifted(was: seq<Limb>, now: seq<Limb>, b: seq<Limb>, j: nat, x: nat, carry: nat) returns (lost: nat)
    requires |was| == |now| == |b| && j < |b| && now[..j] == was[..j]
    requires RowDone(now[j..], was[j..], b, x, |b| - j, carry)
    ensures Val(now) + lost * Weight(|b|) == Val(was) + (x * Weight(j)) * Val(b)
  {
    hide Val, Weight;
    var n := |b|;
    var m := n - j;
    assert was == was[..j] + was[j..] && now == now[..j] + now[j..] && b == b[..m] + b[m..];
    assert was[j..][..m] == was[j..] && now[j..][..m] == now[j..];
    ValConcat(was[..j], was[j..]);
    ValConcat(now[..j], now[j..]);
    ValConcat(b[..m], b[m..]);
    WeightAdd(j, m);
    lost := carry + x * Val(b[m..]);
    RowAlgebra(Weight(j), Weight(m), Val(now[j..]), Val(was[j..]), carry, x, Val(b[..m]), Val(b[m..]));
  }

  lemma RowAlgebra(v: nat, w: nat, now: nat, was: nat, carry: nat, x: nat, low: nat, high: nat)
    requires now + carry * w == was + x * low
    ensures v * now + (carry + x * high) * (v * w) == v * was + (x * v) * (low + w * high)
  {
    calc {
      v * now + (carry + x * high) * (v * w);
      { MulAdd(carry, x * high, v * w); MulAssoc(carry, v, w); MulAssoc(x * high, v, w); }
      v * now + carry * v * w + x * high * v * w;
      { assert v * (now + carry * w) == v * now + carry * v * w; }
      v * (was + x * low) + x * high * v * w;
      { assert v * (was + x * low) == v * was + x * v * low; assert x * high * v * w == (x * v) * (w * high); }
      v * was + x * v * low + (x * v) * (w * high);
      v * was + (x * v) * (low + w * high);
    }
  }

  /** p *= b, also when b is p itself. */
  method MulAssign(p: array<Limb>, b: array<Limb>)
    requires p.Length == b.Length
    modifies p
    ensures Val(p[..]) == (Val(old(p[..])) * Val(old(b[..]))) % Weight(p.Length)
  {
    hide Val, Weight;
    ghost var x, y := p[..], b[..];
    var a := new Limb[p.Length](_ => 0);
    ValZero(a[..]);
    ghost var lost := 0;
    assert Val(x[..0]) == 0 by { ValZero(x[..0]); }
    for j := 0 to p.Length
      invariant p[..] == x && b[..] == y
      invariant Val(a[..]) + lost * Weight(p.Length) == Val(x[..j]) * Val(y)
    {
      ghost var was := a[..];
      assert a[j..] == was[j..];
      ghost var carry := AddRow(a, j, p[j], b);
      ghost var now := a[..];
      assert now[j..] == a[j..] && now[..j] == a[..j];
      ghost var more := RowLifted(was, now, y, j, x[j], carry);
      ValPrefix(x, j);
      MulAdd(Val(x[..j]), x[j] * Weight(j), Val(y));
      MulAdd(lost, more, Weight(p.Length));
      lost := lost + more;
    }
    assert x[..p.Length] == x;
    ValBound(a[..]);
    WrapsTo(Val(a[..]), lost, Weight(p.Length), Val(x) * Val(y));
    ghost var product := a[..];
    forall i | 0 <= i < p.Length { p[i] := a[i]; }
    assert p[..] == product;
  }
}
