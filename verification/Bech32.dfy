/** Bech32 strings: encoding, decoding, and that each undoes the other. */
module Bech32 {
  import opened Bech32Checksum
  import P = Bech32Pairs

  type Five = x: nat | x < 32

  const SEPARATOR: char := '1'

  /** The character set, in the order of the values. */
  function CharOf(v: Five): char {
    if v == 0 then 'q' else if v == 1 then 'p' else if v == 2 then 'z' else if v == 3 then 'r'
    else if v == 4 then 'y' else if v == 5 then '9' else if v == 6 then 'x' else if v == 7 then '8'
    else if v == 8 then 'g' else if v == 9 then 'f' else if v == 10 then '2' else if v == 11 then 't'
    else if v == 12 then 'v' else if v == 13 then 'd' else if v == 14 then 'w' else if v == 15 then '0'
    else if v == 16 then 's' else if v == 17 then '3' else if v == 18 then 'j' else if v == 19 then 'n'
    else if v == 20 then '5' else if v == 21 then '4' else if v == 22 then 'k' else if v == 23 then 'h'
    else if v == 24 then 'c' else if v == 25 then 'e' else if v == 26 then '6' else if v == 27 then 'm'
    else if v == 28 then 'u' else if v == 29 then 'a' else if v == 30 then '7'
    else 'l'
  }

  /** The value of a lower-case character or digit of the set, -1 for any other. */
  function RevLower(c: char): int {
    if c == '0' then 15 else if c == '2' then 10 else if c == '3' then 17 else if c == '4' then 21
    else if c == '5' then 20 else if c == '6' then 26 else if c == '7' then 30 else if c == '8' then 7
    else if c == '9' then 5 else if c == 'a' then 29 else if c == 'c' then 24 else if c == 'd' then 13
    else if c == 'e' then 25 else if c == 'f' then 9 else if c == 'g' then 8 else if c == 'h' then 23
    else if c == 'j' then 18 else if c == 'k' then 22 else if c == 'l' then 31 else if c == 'm' then 27
    else if c == 'n' then 19 else if c == 'p' then 1 else if c == 'q' then 0 else if c == 'r' then 3
    else if c == 's' then 16 else if c == 't' then 11 else if c == 'u' then 28 else if c == 'v' then 12
    else if c == 'w' then 14 else if c == 'x' then 6 else if c == 'y' then 4 else if c == 'z' then 2
    else -1
  }

  predicate IsLower(c: char) { 'a' <= c <= 'z' }
  predicate IsUpper(c: char) { 'A' <= c <= 'Z' }
  predicate IsPrintable(c: char) { '!' <= c <= '~' }
  function LowerCase(c: char): char { if IsUpper(c) then c + ' ' else c }

  /** The reverse table has the same value for both cases of a letter. */
  function RevOf(c: char): int { RevLower(LowerCase(c)) }

  lemma CharIs(v: Five)
    ensures RevLower(CharOf(v)) == v && CharOf(v) != SEPARATOR && IsPrintable(CharOf(v)) && !IsUpper(CharOf(v))
  {}

  lemma RevIs(c: char)
    requires RevLower(c) != -1
    ensures 0 <= RevLower(c) < 32 && CharOf(RevLower(c)) == c
  {}

  // ---- values and symbols

  function SymbolOf(v: Five): Symbol { seq(5, i requires 0 <= i < 5 => Bit(v, i)) }

  function One01(b: bool): nat { if b then 1 else 0 }

  function Number(s: Symbol): Five {
    One01(s[0]) + 2 * One01(s[1]) + 4 * One01(s[2]) + 8 * One01(s[3]) + 16 * One01(s[4])
  }

  lemma TwoBits(v: nat)
    requires v < 4
    ensures v == One01(Bit(v, 0)) + 2 * One01(Bit(v, 1))
  {
    assert Bit(v, 1) == Bit(v / 2, 0);
  }

  lemma FourBits(v: nat)
    requires v < 16
    ensures v == One01(Bit(v, 0)) + 2 * One01(Bit(v, 1)) + 4 * One01(Bit(v, 2)) + 8 * One01(Bit(v, 3))
  {
    var w := v / 2 / 2;
    TwoBits(w);
    TwoBits(v % 4);
    assert Bit(v, 1) == Bit(v / 2, 0) && Bit(v % 4, 1) == Bit(v % 4 / 2, 0);
    assert Bit(v, 2) == Bit(v / 2, 1) == Bit(w, 0) && Bit(v, 3) == Bit(v / 2, 2) == Bit(w, 1);
  }

  lemma FiveBits(v: Five)
    ensures v ==
              One01(Bit(v, 0)) + 2 * One01(Bit(v, 1)) + 4 * One01(Bit(v, 2)) + 8 * One01(Bit(v, 3)) +
                  16 * One01(Bit(v, 4))
  {
    FourBits(v / 2);
    HalfBits(v, 0);
    HalfBits(v, 1);
    HalfBits(v, 2);
    HalfBits(v, 3);
    hide Bit;
    assert v == 2 * (v / 2) + One01(Bit(v, 0)) by { LowestBit(v); }
  }

  lemma HalfBits(v: nat, i: nat)
    ensures Bit(v, i + 1) == Bit(v / 2, i)
  {}

  lemma LowestBit(v: nat)
    ensures v == 2 * (v / 2) + One01(Bit(v, 0))
  {}

  lemma NumberOfSymbol(v: Five)
    ensures Number(SymbolOf(v)) == v
  {
    FiveBits(v);
  }

  lemma SymbolOfNumber(s: Symbol)
    ensures SymbolOf(Number(s)) == s
  {
    FiveBits(Number(s));
    var t := SymbolOf(Number(s));
    assert Number(t) == Number(s);
    forall i | 0 <= i < 5 ensures t[i] == s[i] {}
  }

  function Symbols(vs: seq<Five>): (r: seq<Symbol>)
    ensures |r| == |vs|
  {
    seq(|vs|, i requires 0 <= i < |vs| => SymbolOf(vs[i]))
  }

  function Numbers(ss: seq<Symbol>): (r: seq<Five>)
    ensures |r| == |ss|
  {
    seq(|ss|, i requires 0 <= i < |ss| => Number(ss[i]))
  }

  lemma SymbolsApart(a: seq<Five>, b: seq<Five>)
    ensures Symbols(a + b) == Symbols(a) + Symbols(b)
  {}

  lemma NumbersOfSymbols(vs: seq<Five>)
    ensures Numbers(Symbols(vs)) == vs
  {
    hide SymbolOf, Number;
    forall i | 0 <= i < |vs| ensures Numbers(Symbols(vs))[i] == vs[i] { NumberOfSymbol(vs[i]); }
  }

  lemma SymbolsOfNumbers(ss: seq<Symbol>)
    ensures Symbols(Numbers(ss)) == ss
  {
    hide SymbolOf, Number;
    forall i | 0 <= i < |ss| ensures Symbols(Numbers(ss))[i] == ss[i] { SymbolOfNumber(ss[i]); }
  }

  // ---- the checksum of a human-readable part and values

  function High(c: char): Five { (c as int % 256) / 32 }
  function Low(c: char): Five { c as int % 32 }

  function Expanded(hrp: string): (r: seq<Five>)
    ensures |r| == 2 * |hrp| + 1
  {
    seq(|hrp|, i requires 0 <= i < |hrp| => High(hrp[i])) + [0] + seq(|hrp|, i requires 0 <= i < |hrp| => Low(hrp[i]))
  }

  function Remainder(hrp: string, values: seq<Five>): Word {
    Poly(One(), Symbols(Expanded(hrp) + values))
  }

  predicate Verified(hrp: string, values: seq<Five>) {
    Remainder(hrp, values) == One()
  }

  function ChecksumOf(hrp: string, values: seq<Five>): (r: seq<Five>)
    ensures |r| == 6
  {
    Numbers(Checksum(Remainder(hrp, values)))
  }

  /** A data part is accepted exactly when its last six values are the checksum of the others. */
  lemma VerifiedIff(hrp: string, values: seq<Five>, sum: seq<Five>)
    requires |sum| == 6
    ensures Verified(hrp, values + sum) <==> sum == ChecksumOf(hrp, values)
  {
    hide Poly, Symbols, Numbers, Checksum, Expanded, One;
    var e := Expanded(hrp);
    assert e + (values + sum) == (e + values) + sum;
    SymbolsApart(e + values, sum);
    PolyConcat(One(), Symbols(e + values), Symbols(sum));
    ChecksumIsUnique(Remainder(hrp, values), Symbols(sum));
    NumbersOfSymbols(sum);
    SymbolsOfNumbers(Checksum(Remainder(hrp, values)));
  }

  /** No accepted data part stays accepted when at most six neighbouring values change, one value included. */
  lemma RejectsBurst(hrp: string, a: seq<Five>, x: seq<Five>, y: seq<Five>, b: seq<Five>)
    requires |x| == |y| <= 6 && x != y && Verified(hrp, a + x + b)
    ensures !Verified(hrp, a + y + b)
  {
    hide Poly, Symbols, Expanded, One;
    var e := Expanded(hrp);
    assert e + (a + x + b) == ((e + a) + x) + b && e + (a + y + b) == ((e + a) + y) + b;
    SymbolsApart((e + a) + x, b);
    SymbolsApart(e + a, x);
    SymbolsApart((e + a) + y, b);
    SymbolsApart(e + a, y);
    NumbersOfSymbols(x);
    NumbersOfSymbols(y);
    BurstChangesRemainder(One(), Symbols(e + a), Symbols(x), Symbols(y), Symbols(b));
  }

  /** No accepted data part stays accepted when any one or two values change that have at most 87 between them, which in
      at most 90 characters is any two. */
  lemma RejectsPair(hrp: string, a: seq<Five>, x: Five, mid: seq<Five>, y: Five, b: seq<Five>, x': Five, y': Five)
    requires |mid| <= 87 && (x != x' || y != y') && Verified(hrp, a + ([x] + mid + [y]) + b)
    ensures !Verified(hrp, a + ([x'] + mid + [y']) + b)
  {
    var e := Expanded(hrp);
    PairSymbols(e, a, x, mid, y, b);
    PairSymbols(e, a, x', mid, y', b);
    NumberOfSymbol(x);
    NumberOfSymbol(x');
    NumberOfSymbol(y);
    NumberOfSymbol(y');
    hide Poly, Symbols, SymbolOf, Number, Expanded, One;
    P.PairChangesRemainder(One(), Symbols(e + a), SymbolOf(x), Symbols(mid), SymbolOf(y), Symbols(b),
                           SymbolOf(x'), SymbolOf(y'));
  }

  lemma PairSymbols(e: seq<Five>, a: seq<Five>, x: Five, mid: seq<Five>, y: Five, b: seq<Five>)
    ensures Symbols(e + (a + ([x] + mid + [y]) + b)) ==
              Symbols(e + a) + ([SymbolOf(x)] + Symbols(mid) + [SymbolOf(y)]) + Symbols(b)
  {
    hide SymbolOf;
    assert e + (a + ([x] + mid + [y]) + b) == ((e + a) + ([x] + mid + [y])) + b;
    SymbolsApart((e + a) + ([x] + mid + [y]), b);
    SymbolsApart(e + a, [x] + mid + [y]);
    SymbolsApart([x] + mid, [y]);
    SymbolsApart([x], mid);
    assert Symbols([x]) == [SymbolOf(x)] && Symbols([y]) == [SymbolOf(y)];
  }

  // ---- strings

  function Chars(vs: seq<Five>): (r: string)
    ensures |r| == |vs|
  {
    seq(|vs|, i requires 0 <= i < |vs| => CharOf(vs[i]))
  }

  function Encoded(hrp: string, values: seq<Five>): string {
    hrp + [SEPARATOR] + Chars(values + ChecksumOf(hrp, values))
  }

  function LowerAll(s: string): (r: string)
    ensures |r| == |s|
  {
    seq(|s|, i requires 0 <= i < |s| => LowerCase(s[i]))
  }

  predicate Printable(s: string) { forall i :: 0 <= i < |s| ==> IsPrintable(s[i]) }

  predicate Mixed(s: string) {
    (exists i :: 0 <= i < |s| && IsLower(s[i])) && (exists i :: 0 <= i < |s| && IsUpper(s[i]))
  }

  /** pos is the place of the last separator, -1 if there is none. */
  predicate IsLastSeparator(s: string, pos: int) {
    && -1 <= pos < |s| && (pos >= 0 ==> s[pos] == SEPARATOR)
    && forall i :: pos < i < |s| ==> s[i] != SEPARATOR
  }

  predicate InSet(s: string) { forall i :: 0 <= i < |s| ==> RevOf(s[i]) != -1 }

  lemma RevRange(c: char)
    requires RevOf(c) != -1
    ensures 0 <= RevOf(c) < 32
  {
    RevIs(LowerCase(c));
  }

  function Values(s: string): (r: seq<Five>)
    requires InSet(s)
    ensures |r| == |s|
  {
    seq(|s|, i requires 0 <= i < |s| => RevRange(s[i]); RevOf(s[i]))
  }

  lemma CharsOfValues(s: string)
    requires InSet(s)
    ensures Chars(Values(s)) == LowerAll(s)
  {
    hide CharOf, RevLower;
    forall i | 0 <= i < |s| ensures Chars(Values(s))[i] == LowerAll(s)[i] { RevIs(LowerCase(s[i])); }
  }

  lemma ValuesOfChars(s: string, vs: seq<Five>)
    requires LowerAll(s) == Chars(vs)
    ensures InSet(s) && Values(s) == vs
  {
    hide CharOf, RevLower;
    forall i | 0 <= i < |s| ensures RevOf(s[i]) == vs[i] {
      assert LowerAll(s)[i] == Chars(vs)[i];
      CharIs(vs[i]);
    }
  }

  datatype Decoded = Failed | Decoded(hrp: string, values: seq<Five>)

  /** What decoding means: a printable text of at most 90 characters, not mixing cases, which in lower
      case is the encoding of the result. */
  ghost predicate DecodesTo(s: string, r: Decoded) {
    && r.Decoded? && Printable(s) && !Mixed(s) && |s| <= 90
    && r.hrp != [] && LowerAll(s) == Encoded(r.hrp, r.values)
  }

  /** The tests the decoder makes, given the place of the last separator. */
  ghost predicate Passes(s: string, pos: int, r: Decoded) {
    && r.Decoded? && Printable(s) && !Mixed(s) && |s| <= 90
    && 1 <= pos && pos + 7 <= |s| && InSet(s[pos + 1..])
    && r.hrp == LowerAll(s[..pos])
    && Verified(r.hrp, Values(s[pos + 1..])) && r.values == Values(s[pos + 1..])[..|s| - pos - 7]
  }

  lemma LowerSplit(s: string, pos: nat)
    requires pos < |s| && s[pos] == SEPARATOR
    ensures LowerAll(s) == LowerAll(s[..pos]) + [SEPARATOR] + LowerAll(s[pos + 1..])
  {}

  lemma PassedIsEncoded(s: string, pos: int, r: Decoded)
    requires IsLastSeparator(s, pos) && Passes(s, pos, r)
    ensures DecodesTo(s, r)
  {
    hide LowerAll, Chars, Values, ChecksumOf, Verified, Printable, Mixed, InSet;
    var t := s[pos + 1..];
    var vs := Values(t);
    var sum := vs[|r.values|..];
    assert vs == r.values + sum;
    VerifiedIff(r.hrp, r.values, sum);
    LowerSplit(s, pos);
    CharsOfValues(t);
  }

  /** The separator of an encoding stands right after the human-readable part. */
  lemma SeparatorOfEncoded(s: string, pos: int, r: Decoded)
    requires IsLastSeparator(s, pos) && DecodesTo(s, r)
    ensures pos == |r.hrp|
  {
    hide ChecksumOf, CharOf;
    var n := |r.hrp|;
    assert LowerAll(s)[n] == SEPARATOR;
    assert s[n] == SEPARATOR;
    var vs := r.values + ChecksumOf(r.hrp, r.values);
    if pos > n {
      assert LowerAll(s)[pos] == CharOf(vs[pos - n - 1]);
      CharIs(vs[pos - n - 1]);
    }
  }

  lemma EncodedPasses(s: string, pos: int, r: Decoded)
    requires IsLastSeparator(s, pos) && DecodesTo(s, r)
    ensures Passes(s, pos, r)
  {
    SeparatorOfEncoded(s, pos, r);
    hide LowerAll, Chars, Values, ChecksumOf, Verified, Printable, Mixed, InSet;
    var sum := ChecksumOf(r.hrp, r.values);
    var t := s[pos + 1..];
    LowerSplit(s, pos);
    PartsEqual(LowerAll(s[..pos]), LowerAll(t), r.hrp, Chars(r.values + sum));
    ValuesOfChars(t, r.values + sum);
    VerifiedIff(r.hrp, r.values, sum);
  }

  lemma PartsEqual(a: string, b: string, c: string, d: string)
    requires |a| == |c| && a + [SEPARATOR] + b == c + [SEPARATOR] + d
    ensures a == c && b == d
  {
    var n := |a|;
    var x, y := a + [SEPARATOR] + b, c + [SEPARATOR] + d;
    assert x[..n] == a && y[..n] == c && x[n + 1..] == b && y[n + 1..] == d;
  }

  /** A text decodes to one result at most. */
  lemma DecodesToOne(s: string, pos: int, q: Decoded, r: Decoded)
    requires IsLastSeparator(s, pos) && DecodesTo(s, q) && DecodesTo(s, r)
    ensures q == r
  {
    EncodedPasses(s, pos, q);
    EncodedPasses(s, pos, r);
  }

  /** What the encoder prints for a lower-case printable human-readable part decodes to what went in. */
  lemma RoundTrip(hrp: string, values: seq<Five>)
    requires hrp != [] && Printable(hrp) && (forall i :: 0 <= i < |hrp| ==> !IsUpper(hrp[i]))
    requires |hrp| + 1 + |values| + 6 <= 90
    ensures DecodesTo(Encoded(hrp, values), Decoded(hrp, values))
  {
    hide ChecksumOf, CharOf;
    var s, vs := Encoded(hrp, values), values + ChecksumOf(hrp, values);
    forall i | 0 <= i < |s| ensures IsPrintable(s[i]) && !IsUpper(s[i]) {
      if i > |hrp| { CharIs(vs[i - |hrp| - 1]); }
    }
    assert LowerAll(s) == s;
  }

  // ---- the loops

  function WordOf(n: nat): Word { seq(30, i requires 0 <= i < 30 => Bit(n, i)) }

  function XorIf(c: Word, b: bool, n: nat): Word { if b then XorW(c, WordOf(n)) else c }

  /** The top five bits leave, the rest moves up by five and the value comes in below. */
  function Shifted(c: Word, v: Five): Word { SymbolOf(v) + c[..25] }

  lemma StepIs(c: Word, v: Five)
    ensures XorIf(XorIf(XorIf(XorIf(XorIf(Shifted(c, v), c[25], 0x3b6a57b2), c[26], 0x26508e6d), c[27], 0x1ea119fa),
                        c[28], 0x3d4233dd), c[29], 0x2a1462b3) == Step(c, SymbolOf(v))
  {
    hide Bit;
    var r := XorIf(XorIf(XorIf(XorIf(XorIf(Shifted(c, v), c[25], 0x3b6a57b2), c[26], 0x26508e6d), c[27], 0x1ea119fa),
                         c[28], 0x3d4233dd), c[29], 0x2a1462b3);
    forall i | 0 <= i < 30 ensures r[i] == Step(c, SymbolOf(v))[i] {}
  }

  method PolyMod(v: seq<Five>) returns (c: Word)
    ensures c == Poly(One(), Symbols(v))
  {
    hide Step, XorW, WordOf, SymbolOf;
    c := One();
    for i := 0 to |v|
      invariant c == Poly(One(), Symbols(v[..i]))
    {
      var c0 := c[25..];
      StepIs(c, v[i]);
      c := Shifted(c, v[i]);
      if c0[0] { c := XorW(c, WordOf(0x3b6a57b2)); }
      if c0[1] { c := XorW(c, WordOf(0x26508e6d)); }
      if c0[2] { c := XorW(c, WordOf(0x1ea119fa)); }
      if c0[3] { c := XorW(c, WordOf(0x3d4233dd)); }
      if c0[4] { c := XorW(c, WordOf(0x2a1462b3)); }
      assert Symbols(v[..i + 1])[..i] == Symbols(v[..i]);
    }
    assert v[..|v|] == v;
  }

  method ExpandHRP(hrp: string) returns (r: seq<Five>)
    ensures r == Expanded(hrp)
  {
    var n := |hrp|;
    var a := new Five[2 * n + 1](_ => 0);
    for i := 0 to n
      invariant forall j :: 0 <= j < i ==> a[j] == High(hrp[j]) && a[j + n + 1] == Low(hrp[j])
    {
      a[i] := High(hrp[i]);
      a[i + n + 1] := Low(hrp[i]);
    }
    a[n] := 0;
    r := a[..];
  }

  method VerifyChecksum(hrp: string, values: seq<Five>) returns (ok: bool)
    ensures ok <==> Verified(hrp, values)
  {
    var e := ExpandHRP(hrp);
    var c := PolyMod(e + values);
    ok := c == One();
  }

  method CreateChecksum(hrp: string, values: seq<Five>) returns (r: seq<Five>)
    ensures |r| == 6 && Verified(hrp, values + r)
    ensures r == ChecksumOf(hrp, values)
  {
    hide Poly, Symbols, Expanded, Cut, XorW, One;
    var e := ExpandHRP(hrp);
    var zeros := seq(6, _ => 0 as Five);
    var p := PolyMod(e + values + zeros);
    SymbolsApart(e + values, zeros);
    ZeroSymbols(zeros);
    PolyConcat(One(), Symbols(e + values), Nones(6));
    var m := XorW(p, One());
    r := Numbers(Cut(m));
    VerifiedIff(hrp, values, r);
  }

  lemma {:induction false} ZeroBits(i: nat)
    ensures !Bit(0, i)
  {
    if i > 0 { ZeroBits(i - 1); }
  }

  lemma ZeroSymbols(zeros: seq<Five>)
    requires forall i :: 0 <= i < |zeros| ==> zeros[i] == 0
    ensures Symbols(zeros) == Nones(|zeros|)
  {
    forall i: nat | i < 5 ensures !Bit(0, i) { ZeroBits(i); }
    assert SymbolOf(0) == None();
  }

  method Encode(hrp: string, values: seq<Five>) returns (ret: string)
    ensures ret == Encoded(hrp, values)
  {
    hide CharOf, ChecksumOf;
    var checksum := CreateChecksum(hrp, values);
    var combined := values + checksum;
    ret := hrp + [SEPARATOR];
    for i := 0 to |combined|
      invariant ret == hrp + [SEPARATOR] + Chars(combined[..i])
    {
      ret := ret + [CharOf(combined[i])];
      assert Chars(combined[..i + 1]) == Chars(combined[..i]) + [CharOf(combined[i])];
    }
    assert combined[..|combined|] == combined;
  }

  /** The first loop: printable and not of both cases. */
  method CheckCharacters(str: string) returns (ok: bool)
    ensures ok <==> Printable(str) && !Mixed(str)
  {
    var lower, upper := false, false;
    for i := 0 to |str|
      invariant lower <==> exists j :: 0 <= j < i && IsLower(str[j])
      invariant upper <==> exists j :: 0 <= j < i && IsUpper(str[j])
      invariant Printable(str[..i])
    {
      var c := str[i];
      if IsLower(c) {
        lower := true;
      } else if IsUpper(c) {
        upper := true;
      } else if !IsPrintable(c) {
        return false;
      }
      assert str[..i + 1] == str[..i] + [c];
    }
    assert str[..|str|] == str;
    ok := !(lower && upper);
  }

  method FindSeparator(str: string) returns (pos: int)
    ensures IsLastSeparator(str, pos)
  {
    pos := |str| - 1;
    while pos >= 0 && str[pos] != SEPARATOR
      invariant -1 <= pos < |str|
      invariant forall i :: pos < i < |str| ==> str[i] != SEPARATOR
    {
      pos := pos - 1;
    }
  }

  method ReadValues(t: string) returns (ok: bool, values: seq<Five>)
    ensures ok <==> InSet(t)
    ensures ok ==> values == Values(t)
  {
    hide RevLower;
    values := [];
    for i := 0 to |t|
      invariant InSet(t[..i]) && values == Values(t[..i])
    {
      var rev := RevOf(t[i]);
      if rev == -1 { return false, values; }
      RevRange(t[i]);
      values := values + [rev];
      assert t[..i + 1] == t[..i] + [t[i]];
    }
    assert t[..|t|] == t;
    ok := true;
  }

  /** Decodes a text if and only if it is, up to case, the encoding of something. */
  method Decode(str: string) returns (r: Decoded)
    ensures r.Decoded? ==> DecodesTo(str, r)
    ensures r.Failed? ==> forall q :: !DecodesTo(str, q)
  {
    hide Values, LowerAll, Verified, Mixed, Printable, InSet, Encoded;
    var pos := FindSeparator(str);
    forall q | DecodesTo(str, q) ensures Passes(str, pos, q) { EncodedPasses(str, pos, q); }
    var ok := CheckCharacters(str);
    if !ok { return Failed; }
    if |str| > 90 || pos <= 0 || pos + 7 > |str| { return Failed; }
    var t := str[pos + 1..];
    var values;
    ok, values := ReadValues(t);
    if !ok { return Failed; }
    var hrp := LowerAll(str[..pos]);
    ok := VerifyChecksum(hrp, values);
    if !ok { return Failed; }
    r := Decoded(hrp, values[..|values| - 6]);
    PassedIsEncoded(str, pos, r);
  }

  /** A lower-case printable human-readable part and its values, encoded and decoded, come back. */
  method ThereAndBack(hrp: string, values: seq<Five>) returns (r: Decoded)
    requires hrp != [] && Printable(hrp) && (forall i :: 0 <= i < |hrp| ==> !IsUpper(hrp[i]))
    requires |hrp| + 1 + |values| + 6 <= 90
    ensures r == Decoded(hrp, values)
  {
    RoundTrip(hrp, values);
    hide Encoded, DecodesTo, Printable, IsUpper;
    var str := Encode(hrp, values);
    r := Decode(str);
    var pos := FindSeparator(str);
    assert r.Decoded?;
    DecodesToOne(str, pos, r, Decoded(hrp, values));
  }
}
