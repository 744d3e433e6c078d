/** Base58: bytes to text and back, through digit buffers changed in place. */
module Base58 {
  import Limbs
  import opened Radix

  // ---- the buffer sizes

  lemma SmallPowers()
    ensures Pow(58, 1) == 58 && Pow(58, 2) == 3364 && Pow(58, 3) == 195112 && Pow(58, 4) == 11316496
    ensures Pow(256, 1) == 256 && Pow(256, 2) == 0x1_0000 && Pow(256, 4) == 0x1_0000_0000
  {}

  lemma Pow58To11()
    ensures Pow(58, 11) == 0x15ac264554f032800
  {
    hide Pow;
    SmallPowers();
    PowAdd(58, 4, 4);
    PowAdd(58, 8, 3);
  }

  lemma Pow256To8()
    ensures Pow(256, 8) == 0x10000000000000000
  {
    hide Pow;
    SmallPowers();
    PowAdd(256, 4, 4);
  }

  lemma Pow58To71()
    ensures Pow(58, 71) ==
            0xf1a10f76073f997e1af0b37f5c795ecf145633452837a5de3fa17ac74b86f60a0ebe5446f358940a4ca12a800000000000000000
  {
    hide Pow;
    SmallPowers();
    PowAdd(58, 4, 4);
    PowAdd(58, 8, 8);
    PowAdd(58, 16, 16);
    PowAdd(58, 32, 32);
    PowAdd(58, 64, 4);
    PowAdd(58, 68, 3);
  }

  lemma Pow256To52()
    ensures Pow(256, 52) ==
            0x100000000000000000000000000000000000000000000000000000000000000000000000000000000000000000000000000000000
  {
    hide Pow;
    SmallPowers();
    PowAdd(256, 4, 4);
    PowAdd(256, 8, 8);
    PowAdd(256, 16, 16);
    PowAdd(256, 32, 16);
    PowAdd(256, 48, 4);
  }

  /** The space reserved for encoding n bytes, 138 digits for every 100, always suffices. */
  lemma EncodedFits(n: nat)
    ensures Pow(256, n) < Pow(58, n * 138 / 100 + 1)
  {
    hide Pow;
    Pow256To8();
    Pow58To11();
    DigitsFit(256, 8, 58, 11, n, n * 138 / 100 + 1);
  }

  /** The space reserved for decoding n digits, 733 bytes for every 1000, always suffices. */
  lemma DecodedFits(n: nat)
    ensures Pow(58, n) < Pow(256, n * 733 / 1000 + 1)
  {
    hide Pow;
    Pow58To71();
    Pow256To52();
    DigitsFit(58, 71, 256, 52, n, n * 733 / 1000 + 1);
  }

  // ---- one step of long multiplication in a big-endian buffer

  lemma CarryStep(carry: nat, x: nat, mul: nat, base: nat, p: nat, low: nat, was: nat, first: nat)
    requires base >= 1 && low + carry * p == was * mul + first
    ensures var n := carry + mul * x;
            (n % base) * p + low + (n / base) * (base * p) == (x * p + was) * mul + first
  {
    var n := carry + mul * x;
    var q, r := n / base, n % base;
    assert n == q * base + r;
    Limbs.MulAssoc(q, base, p);
    assert r * p + (q * base) * p == n * p;
    assert n * p == carry * p + (mul * x) * p;
    assert (mul * x) * p == (x * p) * mul by { Limbs.MulAssoc(mul, x, p); }
    assert (x * p + was) * mul == (x * p) * mul + was * mul;
  }

  /** The i lowest digits are multiplied and the carry is what is left over. */
  ghost predicate Carried(now: seq<nat>, was: seq<nat>, i: nat, carry: nat, mul: nat, base: nat, first: nat) {
    && |now| == |was| && i <= |was| && now[..|was| - i] == was[..|was| - i]
    && Val(now[|was| - i..], base) + carry * Pow(base, i) == Val(was[|was| - i..], base) * mul + first
  }

  lemma ValFront(x: nat, t: seq<nat>, b: nat)
    ensures Val([x] + t, b) == x * Pow(b, |t|) + Val(t, b)
  {
    ValConcat([x], t, b);
    assert [x][..0] == [];
    assert Val([x], b) == x;
  }

  lemma CarriedNext(now: seq<nat>, was: seq<nat>, i: nat, carry: nat, mul: nat, base: nat, first: nat)
    requires base >= 1 && Carried(now, was, i, carry, mul, base, first) && i < |was|
    ensures now[|was| - i - 1] == was[|was| - i - 1]
    ensures var k, n := |was| - i - 1, carry + mul * was[|was| - i - 1];
            0 <= n % base < base && 0 <= n / base && Carried(now[k := n % base], was, i + 1, n / base, mul, base, first)
  {
    hide Val, Pow;
    var k := |was| - i - 1;
    assert now[k] == now[..|was| - i][k] == was[..|was| - i][k];
    var n := carry + mul * was[k];
    var next := now[k := n % base];
    var low, t := now[|was| - i..], was[|was| - i..];
    assert next[k..] == [n % base] + low && was[k..] == [was[k]] + t;
    ValFront(n % base, low, base);
    ValFront(was[k], t, base);
    CarryStep(carry, was[k], mul, base, Pow(base, i), Val(low, base), Val(t, base), first);
    assert Pow(base, i + 1) == base * Pow(base, i) by { PowNext(base, i); }
  }

  lemma PowNext(b: nat, n: nat)
    ensures Pow(b, n + 1) == b * Pow(b, n)
  {}

  /** All of the buffer, or all that was in use, is done: nothing is carried out. */
  lemma CarriedDone(now: seq<nat>, was: seq<nat>, i: nat, carry: nat, mul: nat, base: nat, first: nat)
    requires base >= 1 && Carried(now, was, i, carry, mul, base, first)
    requires Val(was, base) * mul + first < Pow(base, |was|)
    requires (carry == 0 && forall j :: 0 <= j < |was| - i ==> was[j] == 0) || i == |was|
    ensures carry == 0 && Val(now, base) == Val(was, base) * mul + first
  {
    hide Val, Pow;
    var k := |was| - i;
    assert now == now[..k] + now[k..] && was == was[..k] + was[k..];
    if i == |was| {
      assert now[k..] == now && was[k..] == was;
      if carry > 0 { Limbs.MulMono(1, carry, Pow(base, i)); }
    } else {
      ValZeros(now[..k], base);
      ValZeros(was[..k], base);
      ValConcat(now[..k], now[k..], base);
      ValConcat(was[..k], was[k..], base);
    }
  }

  ghost predicate ZerosAbove(d: seq<nat>, length: nat) {
    length <= |d| && forall j :: 0 <= j < |d| - length ==> d[j] == 0
  }

  /** The buffer becomes its value times mul plus carry, which is known to fit; only the low digits are touched. */
  method MultiplyAdd(buf: array<nat>, length: nat, first: nat, mul: nat, base: nat) returns (i: nat)
    requires base >= 1 && Below(buf[..], base) && ZerosAbove(buf[..], length)
    requires Val(buf[..], base) * mul + first < Pow(base, buf.Length)
    modifies buf
    ensures Below(buf[..], base) && ZerosAbove(buf[..], i)
    ensures Val(buf[..], base) == old(Val(buf[..], base)) * mul + first
  {
    hide Val, Pow;
    ghost var was := buf[..];
    var carry: nat := first;
    i := 0;
    assert Carried(buf[..], was, 0, carry, mul, base, first) by {
      assert buf[..][buf.Length..] == [] && was[buf.Length..] == [];
      ValZeros([], base);
      PowZero(base);
    }
    while (carry != 0 || i < length) && i < buf.Length
      invariant 0 <= i <= buf.Length && Below(buf[..], base)
      invariant Carried(buf[..], was, i, carry, mul, base, first)
      decreases buf.Length - i
    {
      hide Carried;
      ghost var now := buf[..];
      CarriedNext(now, was, i, carry, mul, base, first);
      var k := buf.Length - 1 - i;
      var n: nat := carry + mul * buf[k];
      var digit: nat := n % base;
      buf[k] := digit;
      assert buf[..] == now[k := digit];
      carry := n / base;
      i := i + 1;
    }
    CarriedDone(buf[..], was, i, carry, mul, base, first);
    assert carry == 0;
    forall j | 0 <= j < buf.Length - i ensures buf[j] == 0 {
      assert buf[..][..|was| - i][j] == was[j];
    }
  }

  lemma PowZero(b: nat)
    ensures Pow(b, 0) == 1
  {}

  /** The digits of the buffer from the first that is not zero. */
  method SkipZeros(buf: array<nat>, length: nat) returns (r: seq<nat>)
    requires ZerosAbove(buf[..], length)
    ensures r == Strip(buf[..])
  {
    hide Strip;
    var it := buf.Length - length;
    ghost var all := buf[..];
    StripFrom(all, it);
    while it < buf.Length && buf[it] == 0
      invariant 0 <= it <= buf.Length
      invariant Strip(all) == Strip(all[it..])
    {
      StripOne(all[it..]);
      assert all[it..][1..] == all[it + 1..];
      it := it + 1;
    }
    StripOne(all[it..]);
    r := buf[it..];
    assert r == all[it..];
  }

  /** The buffer holds the digits read so far; the next one fits. */
  ghost predicate Holding(buf: seq<nat>, length: nat, base: nat, digits: seq<nat>, mul: nat) {
    && Below(buf, base) && ZerosAbove(buf, length) && Below(digits, mul)
    && Val(buf, base) == Val(digits, mul)
  }

  /** One more digit into the buffer. */
  method TakeDigit(buf: array<nat>, length: nat, x: nat, mul: nat, base: nat, ghost digits: seq<nat>) returns (i: nat)
    requires mul >= 1 && base >= 1 && x < mul && Holding(buf[..], length, base, digits, mul)
    requires Pow(mul, |digits| + 1) < Pow(base, buf.Length)
    modifies buf
    ensures Holding(buf[..], i, base, digits + [x], mul)
  {
    hide Val, Pow;
    ValOfLast(digits, x, mul);
    ValBound(digits + [x], mul);
    i := MultiplyAdd(buf, length, x, mul, base);
  }

  lemma StripOne(d: seq<nat>)
    ensures d != [] && d[0] == 0 ==> Strip(d) == Strip(d[1..])
    ensures d == [] || d[0] != 0 ==> Strip(d) == d
  {}

  lemma {:induction false} StripFrom(d: seq<nat>, k: nat)
    requires k <= |d| && forall j :: 0 <= j < k ==> d[j] == 0
    ensures Strip(d) == Strip(d[k..])
  {
    if k == 0 {
      assert d[0..] == d;
    } else {
      StripFrom(d[1..], k - 1);
      assert d[1..][k - 1..] == d[k..];
    }
  }

  // ---- bytes and text

  type Byte = x: nat | x < 256

  /** All alphanumeric characters but 0, I, O and l. */
  function CharOf(v: nat): char
    requires v < 58
  {
    if v < 9 then '1' + v as char
    else if v < 17 then 'A' + (v - 9) as char
    else if v < 22 then 'J' + (v - 17) as char
    else if v < 33 then 'P' + (v - 22) as char
    else if v < 44 then 'a' + (v - 33) as char
    else 'm' + (v - 44) as char
  }

  /** The value of a character, -1 if it has none. */
  function ValueOf(c: char): (r: int)
    ensures -1 <= r < 58
  {
    if '1' <= c <= '9' then c as int - '1' as int
    else if 'A' <= c <= 'H' then c as int - 'A' as int + 9
    else if 'J' <= c <= 'N' then c as int - 'J' as int + 17
    else if 'P' <= c <= 'Z' then c as int - 'P' as int + 22
    else if 'a' <= c <= 'k' then c as int - 'a' as int + 33
    else if 'm' <= c <= 'z' then c as int - 'm' as int + 44
    else -1
  }

  predicate IsSpace(c: char) { c == ' ' || '\t' <= c <= '\r' }

  lemma CharIs(v: nat)
    requires v < 58
    ensures ValueOf(CharOf(v)) == v && !IsSpace(CharOf(v)) && (CharOf(v) == '1' <==> v == 0)
  {}

  lemma ValueIs(c: char)
    requires ValueOf(c) != -1
    ensures CharOf(ValueOf(c)) == c && !IsSpace(c)
  {}

  function Zeros(d: seq<nat>): (z: nat)
    ensures z <= |d| && (forall i :: 0 <= i < z ==> d[i] == 0) && (z < |d| ==> d[z] != 0)
  {
    if d != [] && d[0] == 0 then 1 + Zeros(d[1..]) else 0
  }

  function Text(d: seq<nat>): (r: string)
    requires Below(d, 58)
    ensures |r| == |d|
  {
    seq(|d|, i requires 0 <= i < |d| => CharOf(d[i]))
  }

  function Repeat<T>(x: T, n: nat): (r: seq<T>)
    ensures |r| == n
  {
    seq(n, _ => x)
  }

  /** The text of a byte sequence: a 1 for every leading zero byte, then the number in base 58. */
  function Encoded(v: seq<Byte>): string {
    var z := Zeros(v);
    ValOfDigits(Val(v[z..], 256), 58);
    Repeat('1', z) + Text(Digits(Val(v[z..], 256), 58))
  }

  // ---- reading text

  function SkipSpaces(s: string): string {
    if s != [] && IsSpace(s[0]) then SkipSpaces(s[1..]) else s
  }

  function CountOnes(s: string): (z: nat)
    ensures z <= |s| && (forall i :: 0 <= i < z ==> s[i] == '1') && (z < |s| ==> s[z] != '1')
  {
    if s != [] && s[0] == '1' then 1 + CountOnes(s[1..]) else 0
  }

  function WordLength(s: string): (n: nat)
    ensures n <= |s| && (forall i :: 0 <= i < n ==> !IsSpace(s[i])) && (n < |s| ==> IsSpace(s[n]))
  {
    if s != [] && !IsSpace(s[0]) then 1 + WordLength(s[1..]) else 0
  }

  predicate InAlphabet(s: string) { forall i :: 0 <= i < |s| ==> ValueOf(s[i]) != -1 }

  function Values(s: string): (r: seq<nat>)
    requires InAlphabet(s)
    ensures |r| == |s| && Below(r, 58)
  {
    seq(|s|, i requires 0 <= i < |s| => ValueOf(s[i]))
  }

  datatype Result = Invalid | Decoded(bytes: seq<nat>)

  /** Spaces are skipped on both sides; leading 1s are zero bytes; the rest is a number in base 58. */
  function DecodedText(s: string): Result {
    var t := SkipSpaces(s);
    var z := CountOnes(t);
    var u := t[z..];
    var body, tail := u[..WordLength(u)], u[WordLength(u)..];
    if !InAlphabet(body) || SkipSpaces(tail) != [] then Invalid
    else Decoded(Repeat(0, z) + Digits(Val(Values(body), 58), 256))
  }

  lemma NoSpaces(s: string)
    requires forall i :: 0 <= i < |s| ==> !IsSpace(s[i])
    ensures SkipSpaces(s) == s && WordLength(s) == |s|
  {}

  /** A text without spaces is its leading 1s and a number. */
  lemma DecodedWord(s: string)
    requires InAlphabet(s)
    ensures var z := CountOnes(s);
            DecodedText(s) == Decoded(Repeat(0, z) + Digits(Val(Values(s[z..]), 58), 256))
  {
    hide ValueOf, Digits, Val, CountOnes;
    forall i | 0 <= i < |s| ensures !IsSpace(s[i]) { ValueIs(s[i]); }
    NoSpaces(s);
    var z := CountOnes(s);
    NoSpaces(s[z..]);
    assert s[z..][..|s[z..]|] == s[z..];
  }

  lemma TextIs(d: seq<nat>)
    requires Below(d, 58)
    ensures InAlphabet(Text(d)) && Values(Text(d)) == d
  {
    hide CharOf, ValueOf;
    forall i | 0 <= i < |d| ensures ValueOf(Text(d)[i]) == d[i] { CharIs(d[i]); }
  }

  lemma ValuesAre(s: string)
    requires InAlphabet(s)
    ensures Text(Values(s)) == s
  {
    hide CharOf, ValueOf;
    forall i | 0 <= i < |s| ensures Text(Values(s))[i] == s[i] { ValueIs(s[i]); }
  }

  lemma CountOnesIs(s: string, z: nat)
    requires z <= |s| && (forall i :: 0 <= i < z ==> s[i] == '1') && (z < |s| ==> s[z] != '1')
    ensures CountOnes(s) == z
  {}

  lemma ZerosIs(d: seq<nat>, z: nat)
    requires z <= |d| && (forall i :: 0 <= i < z ==> d[i] == 0) && (z < |d| ==> d[z] != 0)
    ensures Zeros(d) == z
  {}

  /** Every byte sequence is read back from its text, leading zeros included. */
  lemma DecodeOfEncode(v: seq<Byte>)
    ensures DecodedText(Encoded(v)) == Decoded(v)
  {
    hide Digits, Val, CharOf, ValueOf, CountOnes, Zeros, DecodedText;
    var z := Zeros(v);
    var n := Val(v[z..], 256);
    ValOfDigits(n, 58);
    DigitsLead(n, 58);
    var d, s := Digits(n, 58), Encoded(v);
    TextIs(d);
    forall i | 0 <= i < |s| ensures ValueOf(s[i]) != -1 {
      if i < z { CharIs(0); assert s[i] == '1'; OneIs(); } else { assert s[i] == Text(d)[i - z]; }
    }
    if z < |s| { assert s[z] == CharOf(d[0]); CharIs(d[0]); }
    CountOnesIs(s, z);
    assert s[z..] == Text(d);
    DecodedWord(s);
    DigitsOfVal(v[z..], 256);
    assert v == Repeat(0, z) + v[z..];
  }

  lemma OneIs()
    ensures ValueOf('1') == 0 && CharOf(0) == '1'
  {}

  /** Every text without spaces that decodes is printed again from its bytes. */
  lemma EncodeOfDecode(s: string)
    requires InAlphabet(s)
    ensures DecodedText(s).Decoded? && Below(DecodedText(s).bytes, 256) && Encoded(DecodedText(s).bytes) == s
  {
    hide Digits, Val, CharOf, ValueOf, CountOnes, Zeros, DecodedText;
    DecodedWord(s);
    var z := CountOnes(s);
    var d := Values(s[z..]);
    var n := Val(d, 58);
    ValOfDigits(n, 256);
    DigitsLead(n, 256);
    var v: seq<nat> := Repeat(0, z) + Digits(n, 256);
    ZerosIs(v, z);
    assert v[z..] == Digits(n, 256);
    if d != [] { ValueIs(s[z]); OneIs(); assert d[0] != 0; }
    DigitsOfVal(d, 58);
    ValuesAre(s[z..]);
    assert s == Repeat('1', z) + s[z..];
  }

  // ---- the operations

  lemma EmptyHolding(buf: seq<nat>, base: nat, mul: nat)
    requires base >= 1 && forall i :: 0 <= i < |buf| ==> buf[i] == 0
    ensures Holding(buf, 0, base, [], mul)
  {
    ValZeros(buf, base);
    ValZeros([], mul);
  }

  method EncodeBase58(v: seq<Byte>) returns (str: string)
    ensures str == Encoded(v)
  {
    hide Val, Pow, Digits, Strip, CharOf, Zeros;
    var zeroes := 0;
    while zeroes < |v| && v[zeroes] == 0
      invariant 0 <= zeroes <= |v| && forall i :: 0 <= i < zeroes ==> v[i] == 0
    {
      zeroes := zeroes + 1;
    }
    ZerosIs(v, zeroes);
    var rest: seq<nat> := v[zeroes..];
    var size := |rest| * 138 / 100 + 1;
    EncodedFits(|rest|);
    var b58 := new nat[size](_ => 0);
    var length := 0;
    EmptyHolding(b58[..], 58, 256);
    for k := 0 to |rest|
      invariant Holding(b58[..], length, 58, rest[..k], 256)
    {
      PowMono(256, k + 1, |rest|);
      assert rest[..k + 1] == rest[..k] + [rest[k]];
      length := TakeDigit(b58, length, rest[k], 256, 58, rest[..k]);
    }
    assert rest[..|rest|] == rest;
    var digits := SkipZeros(b58, length);
    StrippedDigits(b58[..], 58);
    ValOfDigits(Val(rest, 256), 58);
    str := Repeat('1', zeroes);
    for k := 0 to |digits|
      invariant str == Repeat('1', zeroes) + Text(digits[..k])
    {
      str := str + [CharOf(digits[k])];
      assert Text(digits[..k + 1]) == Text(digits[..k]) + [CharOf(digits[k])];
    }
    assert digits[..|digits|] == digits;
  }

  lemma SkipFrom(s: string, k: nat)
    requires k <= |s| && forall i :: 0 <= i < k ==> IsSpace(s[i])
    ensures k < |s| && !IsSpace(s[k]) ==> SkipSpaces(s) == s[k..]
    ensures k == |s| ==> SkipSpaces(s) == []
    decreases k
  {
    if k > 0 {
      SkipFrom(s[1..], k - 1);
      assert s[1..][k - 1..] == s[k..];
    } else {
      assert s[0..] == s;
    }
  }

  /** The place of the first character from p on that is not a space. */
  method SkipFromPlace(s: string, p: nat) returns (q: nat)
    requires p <= |s|
    ensures p <= q <= |s| && s[q..] == SkipSpaces(s[p..])
  {
    q := p;
    while q < |s| && IsSpace(s[q])
      invariant p <= q <= |s| && forall i :: p <= i < q ==> IsSpace(s[i])
    {
      q := q + 1;
    }
    SkipFrom(s[p..], q - p);
    assert s[p..][q - p..] == s[q..];
  }

  lemma WordLengthIs(s: string, n: nat)
    requires n <= |s| && (forall i :: 0 <= i < n ==> !IsSpace(s[i])) && (n < |s| ==> IsSpace(s[n]))
    ensures WordLength(s) == n
  {}

  method CountLeadingOnes(t: string) returns (zeroes: nat)
    ensures zeroes == CountOnes(t)
  {
    zeroes := 0;
    while zeroes < |t| && t[zeroes] == '1'
      invariant zeroes <= |t| && forall i :: 0 <= i < zeroes ==> t[i] == '1'
    {
      zeroes := zeroes + 1;
    }
    CountOnesIs(t, zeroes);
  }

  /** The digits of the word that u starts with, in base 256; and how long that word is. */
  method ReadWord(u: string) returns (ok: bool, n: nat, bytes: seq<nat>)
    ensures ok ==> n == WordLength(u) && InAlphabet(u[..n]) && bytes == Digits(Val(Values(u[..n]), 58), 256)
    ensures !ok ==> !InAlphabet(u[..WordLength(u)])
  {
    hide Val, Pow, Digits, Strip, ValueOf, WordLength;
    var size := |u| * 733 / 1000 + 1;
    DecodedFits(|u|);
    var b256 := new nat[size](_ => 0);
    var length := 0;
    EmptyHolding(b256[..], 256, 58);
    n, bytes := 0, [];
    while n < |u| && !IsSpace(u[n])
      invariant 0 <= n <= |u| && (forall i :: 0 <= i < n ==> !IsSpace(u[i])) && InAlphabet(u[..n])
      invariant Holding(b256[..], length, 256, Values(u[..n]), 58)
    {
      var carry := ValueOf(u[n]);
      assert u[..n + 1] == u[..n] + [u[n]];
      if carry == -1 {
        WordGoesOn(u, n);
        return false, n, bytes;
      }
      PowMono(58, n + 1, |u|);
      assert Values(u[..n + 1]) == Values(u[..n]) + [carry];
      length := TakeDigit(b256, length, carry, 58, 256, Values(u[..n]));
      n := n + 1;
    }
    WordLengthIs(u, n);
    bytes := SkipZeros(b256, length);
    StrippedDigits(b256[..], 256);
    ok := true;
  }

  lemma WordGoesOn(u: string, n: nat)
    requires n < |u| && (forall i :: 0 <= i <= n ==> !IsSpace(u[i])) && ValueOf(u[n]) == -1
    ensures !InAlphabet(u[..WordLength(u)])
  {
    assert WordLength(u) > n;
    assert u[..WordLength(u)][n] == u[n];
  }

  method DecodeBase58(psz: string) returns (r: Result)
    ensures r == DecodedText(psz)
  {
    hide Val, Digits, ValueOf, WordLength, CountOnes, SkipSpaces;
    var p := SkipFromPlace(psz, 0);
    assert psz[0..] == psz;
    var t := psz[p..];
    var zeroes := CountLeadingOnes(t);
    var u := t[zeroes..];
    var ok, n, bytes := ReadWord(u);
    if !ok { return Invalid; }
    var q := SkipFromPlace(u, n);
    if q != |u| {
      assert SkipSpaces(u[n..]) != [];
      return Invalid;
    }
    assert SkipSpaces(u[n..]) == [];
    r := Decoded(Repeat(0, zeroes) + bytes);
  }
}
