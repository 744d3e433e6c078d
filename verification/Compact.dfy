/** The compact encoding of difficulty targets and the work of a block. */
module Compact {
  import opened Powers
  import opened Limbs
  import opened BaseUint
  import opened BaseUintShift

  const SIGN: nat := 0x80_0000
  const SIZE_UNIT: nat := 0x100_0000

  function Top(): nat { Pow2(256) }

  function Up(x: nat, k: nat): nat { x * Pow2(k) }

  function Down(x: nat, k: nat): nat {
    DivShrinks(x, Pow2(k));
    x / Pow2(k)
  }

  /** The number a compact word stands for, before it is cut to 256 bits. */
  function Decode(nCompact: nat): nat {
    var size, word := nCompact / SIZE_UNIT, nCompact % SIGN;
    if size <= 3 then Down(word, 8 * (3 - size)) else Up(word, 8 * (size - 3))
  }

  function HasSign(nCompact: nat): bool { (nCompact / SIGN) % 2 == 1 }

  /** The number of bytes of a number. */
  function Bytes(x: nat): nat {
    if x == 0 then 0 else 1 + Bytes(x / 256)
  }

  /** The three leading bytes. */
  function Leading(x: nat): nat {
    if Bytes(x) <= 3 then Up(x, 8 * (3 - Bytes(x))) else Down(x, 8 * (Bytes(x) - 3))
  }

  function Size(x: nat): nat { if Leading(x) >= SIGN then Bytes(x) + 1 else Bytes(x) }

  function Mantissa(x: nat): nat { if Leading(x) >= SIGN then Leading(x) / 256 else Leading(x) }

  function Encode(x: nat): nat { Size(x) * SIZE_UNIT + Mantissa(x) }

  /** How many low bytes the encoding of x does not keep. */
  function Dropped(x: nat): nat { if Size(x) > 3 then Size(x) - 3 else 0 }

  // ---- sizes

  lemma {:induction false} BytesBound(x: nat)
    ensures x < Pow2(8 * Bytes(x)) && (x == 0 ==> Bytes(x) == 0) &&
              (x > 0 ==> Bytes(x) > 0 && Pow2(8 * (Bytes(x) - 1)) <= x)
  {
    if x > 0 {
      BytesBound(x / 256);
      Pow2Of8();
      var k := Bytes(x / 256);
      Pow2Add(8, 8 * k);
      assert 8 * Bytes(x) == 8 + 8 * k;
      if k > 0 { Pow2Add(8, 8 * (k - 1)); }
    }
  }

  lemma BytesUnique(x: nat, n: nat)
    requires x < Pow2(8 * n) && (n > 0 ==> Pow2(8 * (n - 1)) <= x)
    ensures Bytes(x) == n
  {
    hide Pow2;
    BytesBound(x);
    if Bytes(x) < n { Pow2Mono(8 * Bytes(x), 8 * (n - 1)); }
    if Bytes(x) > n { Pow2Mono(8 * n, 8 * (Bytes(x) - 1)); }
  }

  lemma BytesMono(x: nat, y: nat)
    requires x <= y
    ensures Bytes(x) <= Bytes(y)
  {
    hide Pow2, Bytes;
    BytesBound(x);
    BytesBound(y);
    if Bytes(x) > Bytes(y) { Pow2Mono(8 * Bytes(y), 8 * (Bytes(x) - 1)); }
  }

  lemma Pow2Of24()
    ensures Pow2(24) == SIZE_UNIT && Pow2(23) == SIGN
  {
    Pow2Of8();
    Pow2Of16();
    Pow2Add(8, 16);
    Pow2Next(23);
  }

  lemma WidenedBound(x: nat, b: nat)
    requires b <= 3 && x < Pow2(8 * b) && (x > 0 ==> b > 0 && Pow2(8 * (b - 1)) <= x)
    ensures x * Pow2(8 * (3 - b)) < Pow2(24) && (x > 0 ==> Pow2(16) <= x * Pow2(8 * (3 - b)))
  {
    hide Pow2;
    var p := Pow2(8 * (3 - b));
    Pow2Add(8 * b, 8 * (3 - b));
    MulMono(x + 1, Pow2(8 * b), p);
    MulAdd(x, 1, p);
    if x > 0 {
      Pow2Add(8 * (b - 1), 8 * (3 - b));
      MulMono(Pow2(8 * (b - 1)), x, p);
    }
  }

  lemma CutBound(x: nat, b: nat)
    requires b > 3 && x < Pow2(8 * b) && Pow2(8 * (b - 1)) <= x
    ensures Pow2(16) <= x / Pow2(8 * (b - 3)) < Pow2(24)
  {
    hide Pow2;
    var d := Pow2(8 * (b - 3));
    Pow2Add(24, 8 * (b - 3));
    QuotientBelow(x, Pow2(24), d);
    Pow2Add(16, 8 * (b - 3));
    DivMono(Pow2(8 * (b - 1)), x, d);
    DivModUnique(Pow2(8 * (b - 1)), d, Pow2(16), 0);
  }

  lemma LeadingBound(x: nat)
    ensures Leading(x) < SIZE_UNIT && (x > 0 ==> 0x1_0000 <= Leading(x)) && (x == 0 ==> Leading(x) == 0)
  {
    hide Pow2;
    BytesBound(x);
    Pow2Of24();
    Pow2Of16();
    if Bytes(x) <= 3 { WidenedBound(x, Bytes(x)); } else { CutBound(x, Bytes(x)); }
  }

  /** The mantissa is the number with its dropped bytes cut off, or widened to three bytes. */
  lemma MantissaIs(x: nat)
    ensures Mantissa(x) < SIGN
    ensures Size(x) > 3 ==> Mantissa(x) == x / Pow2(8 * Dropped(x))
    ensures Size(x) <= 3 ==> Mantissa(x) == x * Pow2(8 * (3 - Size(x)))
  {
    hide Pow2;
    LeadingBound(x);
    Pow2Of8();
    var b := Bytes(x);
    if Leading(x) >= SIGN {
      if b < 3 {
        Pow2Add(8, 8 * (2 - b));
        assert 8 * (3 - b) == 8 + 8 * (2 - b);
        MulAssoc(x, Pow2(8 * (2 - b)), 256);
        DivModUnique(Leading(x), 256, x * Pow2(8 * (2 - b)), 0);
      } else if b == 3 {
        assert Pow2(8 * (3 - b)) == 1 by { Pow2Zero(); }
      } else {
        Pow2Add(8 * (b - 3), 8);
        DivDiv(x, Pow2(8 * (b - 3)), Pow2(8));
      }
    }
  }

  lemma Pow2Zero()
    ensures Pow2(0) == 1
  {}

  lemma EncodeParts(x: nat)
    ensures Encode(x) / SIZE_UNIT == Size(x) && Encode(x) % SIGN == Mantissa(x) && !HasSign(Encode(x))
  {
    MantissaIs(x);
    DivModUnique(Encode(x), SIZE_UNIT, Size(x), Mantissa(x));
    DivModUnique(Encode(x), SIGN, 2 * Size(x), Mantissa(x));
  }

  /** Encoding and decoding only clears low-order bytes. */
  lemma RoundTrip(x: nat)
    ensures Decode(Encode(x)) == x - x % Pow2(8 * Dropped(x)) && Decode(Encode(x)) <= x
  {
    hide Pow2;
    EncodeParts(x);
    MantissaIs(x);
    if Size(x) <= 3 {
      var p := Pow2(8 * (3 - Size(x)));
      DivModUnique(x * p, p, x, 0);
      Pow2Zero();
      DivModUnique(x, 1, x, 0);
    }
  }

  lemma SizeMono(x: nat, y: nat)
    requires x <= y
    ensures Size(x) <= Size(y)
  {
    hide Pow2, Bytes;
    BytesMono(x, y);
    if Bytes(x) == Bytes(y) {
      var b := Bytes(x);
      if b <= 3 {
        MulMono(x, y, Pow2(8 * (3 - b)));
      } else {
        DivMono(x, y, Pow2(8 * (b - 3)));
      }
    }
  }

  lemma RoundedBelow(x: nat, e: nat)
    requires Size(x) <= e + 3
    ensures x < SIGN * Pow2(8 * e)
  {
    hide Pow2, Leading, Bytes;
    MantissaIs(x);
    var s := Size(x);
    Pow2Mono(8 * Dropped(x), 8 * e);
    MulMono(Pow2(8 * Dropped(x)), Pow2(8 * e), SIGN);
    if s > 3 {
      CutBelow(x, SIGN, Pow2(8 * (s - 3)));
    } else {
      MulMono(1, Pow2(8 * (3 - s)), x);
      Pow2Zero();
    }
  }

  lemma CutBelow(x: nat, m: nat, d: nat)
    requires d >= 1 && x / d < m
    ensures x < m * d
  {
    MulMono(x / d + 1, m, d);
    MulAdd(x / d, 1, d);
  }

  lemma MantissaNormal(x: nat)
    requires x > 0
    ensures Mantissa(x) >= 0x8000
  {
    LeadingBound(x);
  }

  /** Rounding never changes the order of two numbers. */
  lemma Monotone(x: nat, y: nat)
    requires x <= y
    ensures Decode(Encode(x)) <= Decode(Encode(y))
  {
    hide Pow2, Encode, Decode, Size;
    RoundTrip(x);
    RoundTrip(y);
    SizeMono(x, y);
    var e, f := Dropped(x), Dropped(y);
    if e == f {
      var d := Pow2(8 * e);
      DivMono(x, y, d);
      MulMono(x / d, y / d, d);
    } else {
      RoundedAbove(y);
      RoundedBelow(x, e);
      Pow2Mono(8 * (e + 1), 8 * f);
      Pow2Add(8, 8 * e);
      Pow2Of8();
      MulMono(Pow2(8 * (e + 1)), Pow2(8 * f), 0x8000);
      MulAssoc(0x8000, 256, Pow2(8 * e));
    }
  }

  lemma RoundedAbove(y: nat)
    requires Dropped(y) > 0
    ensures y - y % Pow2(8 * Dropped(y)) >= 0x8000 * Pow2(8 * Dropped(y))
  {
    hide Pow2;
    var d := Pow2(8 * Dropped(y));
    MantissaIs(y);
    NonzeroIfDropped(y);
    MantissaNormal(y);
    MulMono(0x8000, y / d, d);
  }

  lemma NonzeroIfDropped(y: nat)
    requires Dropped(y) > 0
    ensures y > 0
  {}

  /** Re-encoding a rounded number gives the same word. */
  lemma Stable(x: nat)
    ensures Encode(Decode(Encode(x))) == Encode(x)
  {
    hide Encode, Decode, Pow2, Bytes;
    RoundTrip(x);
    var y := Decode(Encode(x));
    if Dropped(x) == 0 {
      Pow2Zero();
      DivModUnique(x, 1, x, 0);
    } else {
      NonzeroIfDropped(x);
      StableBytes(x, y);
      StableLeading(x, y);
      assert Encode(x) == Encode(y) by { EncodeFrom(x); EncodeFrom(y); }
    }
  }

  lemma EncodeFrom(x: nat)
    ensures Encode(x) == if Leading(x) >= SIGN then (Bytes(x) + 1) * SIZE_UNIT + Leading(x) / 256
                         else Bytes(x) * SIZE_UNIT + Leading(x)
  {}

  lemma StableBytes(x: nat, y: nat)
    requires Dropped(x) > 0 && x > 0 && y == x - x % Pow2(8 * Dropped(x))
    ensures Bytes(y) == Bytes(x)
  {
    hide Pow2, Bytes, Leading;
    BytesBound(x);
    var b, e := Bytes(x), Dropped(x);
    var d := Pow2(8 * e);
    Pow2Add(8 * (b - 1 - e), 8 * e);
    DivMono(Pow2(8 * (b - 1)), x, d);
    DivModUnique(Pow2(8 * (b - 1)), d, Pow2(8 * (b - 1 - e)), 0);
    MulMono(Pow2(8 * (b - 1 - e)), x / d, d);
    BytesUnique(y, b);
  }

  lemma StableLeading(x: nat, y: nat)
    requires Dropped(x) > 0 && x > 0 && y == x - x % Pow2(8 * Dropped(x)) && Bytes(y) == Bytes(x)
    ensures Leading(x) >= SIGN ==> Leading(y) >= SIGN && Leading(y) / 256 == Leading(x) / 256
    ensures Leading(x) < SIGN ==> Leading(y) == Leading(x)
  {
    hide Pow2, Bytes;
    MantissaIs(x);
    var b, e := Bytes(x), Dropped(x);
    var d := Pow2(8 * e);
    var q := x / d;
    assert y == q * d;
    if Leading(x) >= SIGN {
      Pow2Of8();
      Pow2Add(8, 8 * (e - 1));
      var c := Pow2(8 * (e - 1));
      MulAssoc(q, 256, c);
      if b == 3 {
        Pow2Zero();
      } else {
        DivModUnique(y, c, q * 256, 0);
      }
    } else {
      DivModUnique(y, d, q, 0);
    }
  }

  // ---- overflow

  /** The three comparisons on the size and the mantissa are exactly the test against 2 to the 256. */
  lemma OverflowIs(nCompact: nat)
    ensures var size, word := nCompact / SIZE_UNIT, nCompact % SIGN;
            (word != 0 && (size > 34 || (word > 0xff && size > 33) || (word > 0xffff && size > 32))) <==>
                Decode(nCompact) >= Top()
  {
    hide Pow2;
    var size, word := nCompact / SIZE_UNIT, nCompact % SIGN;
    if size <= 3 {
      DivShrinks(word, Pow2(8 * (3 - size)));
      Pow2Of24();
      Pow2Mono(24, 256);
    } else if word > 0 {
      OverflowBySize(size, word);
    }
  }

  lemma OverflowBySize(size: nat, word: nat)
    requires size > 3 && 0 < word < SIGN
    ensures (size > 34 || (word > 0xff && size > 33) || (word > 0xffff && size > 32)) <==>
              word * Pow2(8 * (size - 3)) >= Top()
  {
    hide Pow2;
    Pow2Of8();
    Pow2Of16();
    Pow2Of24();
    var p := Pow2(8 * (size - 3));
    if size > 34 {
      Pow2Mono(256, 8 * (size - 3));
      MulMono(1, word, p);
    } else if size == 34 {
      Pow2Add(8, 248);
      if word > 0xff { MulMono(256, word, p); } else { MulMono(word, 255, p); MulSub(256, 1, p); }
    } else if size == 33 {
      Pow2Add(16, 240);
      if word > 0xffff { MulMono(0x1_0000, word, p); } else { MulMono(word, 0xffff, p); MulSub(0x1_0000, 1, p); }
    } else {
      Pow2Mono(8 * (size - 3), 232);
      Pow2Add(24, 232);
      MulMono(word, SIGN, p);
      MulMono(p, Pow2(232), SIGN);
      MulMono(SIGN, SIZE_UNIT - 1, Pow2(232));
      MulSub(SIZE_UNIT, 1, Pow2(232));
    }
  }

  // ---- the operations on limbs

  const WIDTH: nat := 8

  lemma ValLow(a: seq<Limb>)
    requires |a| >= 2 && forall j :: 2 <= j < |a| ==> a[j] == 0
    ensures Val(a) == a[0] + a[1] * B
  {
    hide Val, Weight;
    ValTop(a, 1);
    ValPrefix(a, 0);
    assert a[..1] == [a[0]] && a[..0] == [];
    ValZero([]);
    WeightZero();
    WeightNext(0);
  }

  /** p = b for a 64-bit word. */
  method AssignWord(p: array<Limb>, b: Word)
    requires p.Length >= 2
    modifies p
    ensures Val(p[..]) == b
  {
    p[0] := b % B;
    p[1] := b / B;
    for i := 2 to p.Length
      invariant p[0] == b % B && p[1] == b / B && forall j :: 2 <= j < i ==> p[j] == 0
    {
      p[i] := 0;
    }
    hide Val;
    ValLow(p[..]);
  }

  method GetLow64(p: array<Limb>) returns (r: Word)
    requires p.Length >= 2
    ensures r == Val(p[..]) % B64
  {
    hide Val, Weight, Or;
    var a, b := p[0], p[1];
    DivModUnique(b * B, B, b, 0);
    Pow2Of32();
    OrJoins(a, b * B, 32);
    r := Or(a, b * B);
    ghost var s := p[..];
    assert s == s[..2] + s[2..];
    ValConcat(s[..2], s[2..]);
    ValLow(s[..2]);
    WeightAdd(1, 1);
    WeightNext(0);
    WeightZero();
    DivModUnique(Val(s), B64, Val(s[2..]), r);
  }

  lemma TopIsWeight()
    ensures Top() == Weight(WIDTH)
  {
    WeightIsPow2(WIDTH);
  }

  /** The sign and overflow flags tell exactly what the decoded number is, and the limbs hold it cut to 256 bits. */
  method SetCompact(p: array<Limb>, nCompact: Limb) returns (fNegative: bool, fOverflow: bool)
    requires p.Length == WIDTH
    modifies p
    ensures Val(p[..]) == Decode(nCompact) % Top()
    ensures fNegative <==> Decode(nCompact) != 0 && HasSign(nCompact)
    ensures fOverflow <==> Decode(nCompact) >= Top()
  {
    hide Val, Weight, Pow2, HasSign, Top;
    TopIsWeight();
    OverflowIs(nCompact);
    var nSize, nWord := nCompact / SIZE_UNIT, nCompact % SIGN;
    if nSize <= 3 {
      DivShrinks(nWord, Pow2(8 * (3 - nSize)));
      nWord := nWord / Pow2(8 * (3 - nSize));
      AssignWord(p, nWord);
      NoOverflowWhenSmall(nCompact);
      DivModUnique(nWord, Top(), 0, nWord);
    } else {
      AssignWord(p, nWord);
      ShiftLeftAssign(p, 8 * (nSize - 3));
      ProductZero(nWord, Pow2(8 * (nSize - 3)));
    }
    fNegative := nWord != 0 && (nCompact / SIGN) % 2 == 1;
    fOverflow := nWord != 0 && (nSize > 34 || (nWord > 0xff && nSize > 33) || (nWord > 0xffff && nSize > 32));
    assert HasSign(nCompact) == ((nCompact / SIGN) % 2 == 1) by { SignIs(nCompact); }
  }

  lemma SignIs(nCompact: nat)
    ensures HasSign(nCompact) == ((nCompact / SIGN) % 2 == 1)
  {}

  lemma NoOverflowWhenSmall(nCompact: nat)
    requires nCompact / SIZE_UNIT <= 3
    ensures Decode(nCompact) < Top()
  {
    hide Pow2;
    OverflowIs(nCompact);
  }

  lemma ProductZero(a: nat, p: nat)
    requires p >= 1
    ensures a * p == 0 <==> a == 0
  {
    if a > 0 { MulMono(1, a, p); }
  }

  lemma BytesFromBits(v: nat, b: nat)
    requires IsBits(v, b)
    ensures Bytes(v) == (b + 7) / 8
  {
    hide Pow2;
    var n := (b + 7) / 8;
    Pow2Mono(b, 8 * n);
    if n > 0 { Pow2Mono(8 * (n - 1), b - 1); }
    BytesUnique(v, n);
  }

  lemma BytesAtMost(v: nat)
    requires v < Top()
    ensures Bytes(v) <= 32
  {
    hide Pow2, Bytes;
    BytesBound(v);
    if Bytes(v) > 32 { Pow2Mono(256, 8 * (Bytes(v) - 1)); }
  }

  /** The leading three bytes as the code takes them out of the limbs. */
  method LeadingBytes(p: array<Limb>, nSize: nat) returns (nCompact: Limb)
    requires p.Length == WIDTH && nSize == Bytes(Val(p[..]))
    ensures nCompact == Leading(Val(p[..]))
  {
    hide Val, Weight, Pow2, Bytes, Leading;
    ghost var x := Val(p[..]);
    LeadingBound(x);
    LeadingFrom(x);
    DivModUnique(Leading(x), B, 0, Leading(x));
    if nSize <= 3 {
      var low := GetLow64(p);
      SmallIsLow(x);
      assert low * Pow2(8 * (3 - nSize)) == Leading(x);
      nCompact := (low * Pow2(8 * (3 - nSize))) % B;
    } else {
      var bn := Copy(p);
      ShiftRightAssign(bn, 8 * (nSize - 3));
      var low := GetLow64(bn);
      DivModUnique(Leading(x), B64, 0, Leading(x));
      nCompact := low % B;
    }
  }

  lemma LeadingFrom(x: nat)
    ensures Leading(x) == if Bytes(x) <= 3 then x * Pow2(8 * (3 - Bytes(x))) else x / Pow2(8 * (Bytes(x) - 3))
  {}

  lemma SmallIsLow(x: nat)
    requires Bytes(x) <= 3
    ensures x % B64 == x
  {
    hide Pow2, Bytes;
    BytesBound(x);
    Pow2Mono(8 * Bytes(x), 24);
    Pow2Of24();
    DivModUnique(x, B64, 0, x);
  }

  method GetCompact(p: array<Limb>, fNegative: bool) returns (nCompact: Limb)
    requires p.Length == WIDTH
    ensures nCompact == Encode(Val(p[..])) + if fNegative && Mantissa(Val(p[..])) != 0 then SIGN else 0
  {
    hide Val, Weight, Pow2, Bytes, Leading, Or, IsBits;
    ghost var x := Val(p[..]);
    var bits := Bits(p);
    var nSize := (bits + 7) / 8;
    BytesFromBits(x, bits);
    nCompact := LeadingBytes(p, nSize);
    LeadingBound(x);
    ValBound(p[..]);
    TopIsWeight();
    BytesAtMost(x);
    // the sign bit of a leading part below 2 to the 24 is set exactly when it reaches SIGN
    if (nCompact / SIGN) % 2 == 1 {
      nCompact := nCompact / 256;
      nSize := nSize + 1;
    }
    MantissaIs(x);
    assert nCompact == Mantissa(x) && nSize == Size(x);
    assert nCompact < SIGN && nSize < 256;
    nCompact := PutTogether(nCompact, nSize, fNegative);
  }

  /** Mantissa, size and sign in one word. */
  method PutTogether(mantissa: nat, nSize: nat, fNegative: bool) returns (nCompact: Limb)
    requires mantissa < SIGN && nSize < 256
    ensures nCompact == nSize * SIZE_UNIT + mantissa + if fNegative && mantissa != 0 then SIGN else 0
  {
    hide Or;
    JoinParts(mantissa, nSize);
    var word := Or(mantissa, nSize * SIZE_UNIT);
    var sign := if fNegative && mantissa != 0 then SIGN else 0;
    JoinSign(mantissa, nSize, sign);
    nCompact := Or(word, sign);
  }

  lemma JoinParts(m: nat, size: nat)
    requires m < SIGN
    ensures Or(m, size * SIZE_UNIT) == size * SIZE_UNIT + m
  {
    hide Pow2, Or;
    Pow2Of24();
    DivModUnique(size * SIZE_UNIT, SIZE_UNIT, size, 0);
    OrJoins(m, size * SIZE_UNIT, 24);
  }

  /** Setting a bit that is clear adds its weight. */
  lemma {:induction false} OrClearBit(x: nat, k: nat)
    requires (x / Pow2(k)) % 2 == 0
    ensures Or(x, Pow2(k)) == x + Pow2(k)
  {
    if k == 0 {
      DivModUnique(x, 1, x, 0);
      OrZero(x / 2);
    } else {
      DivDiv(x, 2, Pow2(k - 1));
      OrClearBit(x / 2, k - 1);
    }
  }

  lemma JoinSign(m: nat, size: nat, sign: nat)
    requires m < SIGN && (sign == 0 || sign == SIGN)
    ensures Or(size * SIZE_UNIT + m, sign) == size * SIZE_UNIT + m + sign
  {
    hide Pow2, Or;
    var x := size * SIZE_UNIT + m;
    if sign == 0 {
      OrZero(x);
    } else {
      Pow2Of24();
      DivModUnique(x, SIGN, 2 * size, m);
      OrClearBit(x, 23);
    }
  }

  // ---- the work of a block

  /** A decoded target leaves room for one more. */
  lemma TargetPlusOneFits(nCompact: nat)
    requires Decode(nCompact) < Top()
    ensures Decode(nCompact) + 1 < Top()
  {
    hide Pow2;
    var size, word := nCompact / SIZE_UNIT, nCompact % SIGN;
    Pow2Of24();
    Pow2Mono(24, 256);
    if size <= 3 {
      DivShrinks(word, Pow2(8 * (3 - size)));
    } else {
      EvenTarget(word, 8 * (size - 3));
    }
  }

  /** An even number below an even bound is at least two below it. */
  lemma EvenTarget(word: nat, k: nat)
    requires k > 0
    ensures (word * Pow2(k)) % 2 == 0 && Top() % 2 == 0
  {
    hide Pow2;
    Pow2Next(k - 1);
    Pow2Next(255);
    EvenProduct(word, Pow2(k - 1));
  }

  lemma EvenProduct(a: nat, p: nat)
    ensures (a * (2 * p)) % 2 == 0
  {
    MulAssoc(2, a, p);
    assert a * (2 * p) == 2 * (a * p);
  }

  lemma ProofFormula(top: nat, t: nat)
    requires 1 <= t && t + 1 < top
    ensures (top - 1 - t) / (t + 1) + 1 == top / (t + 1)
    ensures top / (t + 1) < top
  {
    var d := t + 1;
    DivPlusMultiple(top - 1 - t, 1, d);
    MulMono(2, d, top / d);
  }

  /** The expected number of hashes behind a block: the floor of 2 to the 256 over its target plus one,
      and zero when the target is negative, too large or zero. The division never fails. */
  method GetBlockProof(nBits: Limb) returns (r: array<Limb>)
    ensures fresh(r) && r.Length == WIDTH
    ensures var t := Decode(nBits);
            Val(r[..]) == if t >= Top() || t == 0 || HasSign(nBits) then 0 else Top() / (t + 1)
  {
    hide Val, Weight, Decode, HasSign, Top;
    TopIsWeight();
    var target := new Limb[WIDTH](_ => 0);
    var fNegative, fOverflow := SetCompact(target, nBits);
    ghost var t := Decode(nBits);
    var zero := new Limb[WIDTH](_ => 0);
    ValZero(zero[..]);
    var c := CompareTo(target, zero);
    if fNegative || fOverflow || c == 0 {
      if t < Top() { DivModUnique(t, Top(), 0, t); }
      return zero;
    }
    DivModUnique(t, Top(), 0, t);
    TargetPlusOneFits(nBits);
    var one := new Limb[WIDTH](_ => 0);
    AssignWord(one, 1);
    r := Complement(target);
    var next := Copy(target);
    AddAssign(next, one);
    DivModUnique(t + 1, Top(), 0, t + 1);
    var outcome := DivAssign(r, next);
    ProofFormula(Top(), t);
    AddAssign(r, one);
    DivModUnique(Top() / (t + 1), Top(), 0, Top() / (t + 1));
  }
}
