/** Skip heights, and how many steps it takes to go back along them. */
module Skip {
  import opened Powers

  /** Bitwise and. */
  function And(x: nat, y: nat): (r: nat)
    ensures r <= x && r <= y
  {
    if x == 0 || y == 0 then 0
    else 2 * And(x / 2, y / 2) + if x % 2 == 1 && y % 2 == 1 then 1 else 0
  }

  function InvertLowestOne(n: nat): (r: nat)
    ensures n > 0 ==> r < n
  {
    if n == 0 then 0 else And(n, n - 1)
  }

  /** Where pskip points; any height strictly below will do. */
  function GetSkipHeight(height: nat): (r: nat)
    ensures r <= height && (height > 0 ==> r < height)
  {
    if height < 2 then 0
    else if height % 2 == 1 then InvertLowestOne(InvertLowestOne(height - 1)) + 1
    else InvertLowestOne(height)
  }

  /** Where the walk from w towards h goes next. */
  function NextHeight(w: nat, h: nat): (r: nat)
    requires h < w
    ensures h <= r < w
  {
    var s, p := GetSkipHeight(w), GetSkipHeight(w - 1);
    if s == h || (s > h && !(p < s - 2 && p >= h)) then s else w - 1
  }

  /** The number of steps of the walk. */
  function Steps(w: nat, h: nat): nat
    requires h <= w
    decreases w
  {
    if w == h then 0 else 1 + Steps(NextHeight(w, h), h)
  }

  lemma StepsNext(w: nat, h: nat)
    requires h < w
    ensures Steps(w, h) == 1 + Steps(NextHeight(w, h), h)
  {}

  lemma NextIs(w: nat, h: nat)
    requires h < w
    ensures var s, p := GetSkipHeight(w), GetSkipHeight(w - 1);
            NextHeight(w, h) == if s == h || (s > h && !(p < s - 2 && p >= h)) then s else w - 1
  {}

  lemma StepsNone(h: nat)
    ensures Steps(h, h) == 0
  {}

  lemma {:induction false} StepsAtMost(w: nat, h: nat)
    requires h <= w
    ensures Steps(w, h) <= w - h
    decreases w
  {
    if w > h { StepsAtMost(NextHeight(w, h), h); }
  }

  // ---- the lowest one

  /** The place of the lowest one. */
  function Low(n: nat): nat
    requires n > 0
  {
    if n % 2 == 1 then 0 else 1 + Low(n / 2)
  }

  /** All ones of b are above place z. */
  predicate Above(b: nat, z: nat) { b == 0 || Low(b) > z }

  lemma AboveHalf(b: nat, z: nat)
    requires Above(b, z)
    ensures b % 2 == 0 && (z > 0 ==> Above(b / 2, z - 1))
  {}

  lemma {:induction false} InvertIs(n: nat)
    requires n > 0
    ensures Pow2(Low(n)) <= n && InvertLowestOne(n) == n - Pow2(Low(n))
  {
    if n % 2 == 0 {
      InvertIs(n / 2);
      assert (n - 1) / 2 == n / 2 - 1 && (n - 1) % 2 == 1;
    } else {
      AndBelow(n);
    }
  }

  lemma {:induction false} AndSelf(n: nat)
    ensures And(n, n) == n
  {
    if n > 0 { AndSelf(n / 2); }
  }

  lemma AndBelow(n: nat)
    requires n % 2 == 1
    ensures And(n, n - 1) == n - 1
  {
    AndSelf(n / 2);
    assert (n - 1) / 2 == n / 2;
  }

  /** What is left without the lowest one lies above it. */
  lemma {:induction false} RestAbove(n: nat)
    requires n > 0
    ensures Above(InvertLowestOne(n), Low(n))
  {
    InvertIs(n);
    if n % 2 == 0 {
      RestAbove(n / 2);
      InvertIs(n / 2);
      assert InvertLowestOne(n) == 2 * InvertLowestOne(n / 2);
    }
  }

  lemma {:induction false} LowOfSum(b: nat, z: nat)
    requires Above(b, z)
    ensures Low(b + Pow2(z)) == z
  {
    AboveHalf(b, z);
    if z > 0 {
      LowOfSum(b / 2, z - 1);
      assert (b + Pow2(z)) / 2 == b / 2 + Pow2(z - 1);
    }
  }

  /** Below a block's end: the ones from place k to z - 1 over a base above z. */
  function Ones(b: nat, z: nat, k: nat): (r: nat)
    requires k <= z
    ensures r >= b
  {
    Pow2Mono(k, z);
    b + Pow2(z) - Pow2(k)
  }

  lemma {:induction false} Pow2Mono(a: nat, b: nat)
    requires a <= b
    ensures Pow2(a) <= Pow2(b)
  {
    if a < b { Pow2Mono(a, b - 1); }
  }

  lemma {:induction false} LowOfOnes(b: nat, z: nat, k: nat)
    requires Above(b, z) && k < z
    ensures Ones(b, z, k) > 0 && Low(Ones(b, z, k)) == k
  {
    AboveHalf(b, z);
    Pow2Mono(k + 1, z);
    if k > 0 {
      LowOfOnes(b / 2, z - 1, k - 1);
      assert Ones(b, z, k) == 2 * Ones(b / 2, z - 1, k - 1);
    }
  }

  /** Clearing the lowest one shortens the row of ones. */
  lemma ClearOnes(b: nat, z: nat, k: nat)
    requires Above(b, z) && k < z
    ensures InvertLowestOne(Ones(b, z, k)) == Ones(b, z, k + 1)
  {
    LowOfOnes(b, z, k);
    InvertIs(Ones(b, z, k));
  }

  lemma ClearEnd(b: nat, z: nat)
    requires Above(b, z)
    ensures InvertLowestOne(b + Pow2(z)) == b
  {
    LowOfSum(b, z);
    InvertIs(b + Pow2(z));
  }

  // ---- the next step by the place of the lowest one

  /** From an odd height the two lowest ones above the first go, if that does not pass the target. */
  lemma NextOdd(e: nat, h: nat)
    requires e % 2 == 0 && e >= 2 && h <= e
    ensures var s := InvertLowestOne(InvertLowestOne(e)) + 1; NextHeight(e + 1, h) == if s >= h then s else e
  {
    var q := InvertLowestOne(e);
    assert q > 0 ==> InvertLowestOne(q) < q;
    hide InvertLowestOne;
  }

  /** Below a height whose lowest one is at 3 or above, the two lowest ones are at 1 and 2. */
  lemma BelowEight(w: nat)
    requires w > 0 && Low(w) >= 3
    ensures w >= 8 && w % 2 == 0 && InvertLowestOne(w) <= w - 8
    ensures InvertLowestOne(InvertLowestOne(w - 2)) == w - 8
  {
    var z := Low(w);
    InvertIs(w);
    RestAbove(w);
    hide InvertLowestOne, Low;
    var b := w - Pow2(z);
    ClearOnes(b, z, 1);
    ClearOnes(b, z, 2);
    hide Above;
    Pow2Mono(3, z);
    assert Pow2(1) == 2 && Pow2(3) == 8;
  }

  lemma NextEven8(w: nat, h: nat)
    requires w > 0 && Low(w) >= 3 && h < w
    ensures NextHeight(w, h) == if InvertLowestOne(w) >= h then InvertLowestOne(w) else w - 1
  {
    hide InvertLowestOne, Low;
    BelowEight(w);
    assert GetSkipHeight(w) == InvertLowestOne(w) && GetSkipHeight(w - 1) == w - 7;
    hide GetSkipHeight;
  }

  lemma BelowFour(w: nat)
    requires w > 0 && Low(w) == 2
    ensures w >= 4 && w % 2 == 0 && InvertLowestOne(w) == w - 4 && Above(w - 4, 2)
    ensures InvertLowestOne(w - 2) == w - 4 && (w > 4 ==> InvertLowestOne(w - 4) <= w - 12)
  {
    InvertIs(w);
    RestAbove(w);
    assert Pow2(1) == 2 && Pow2(2) == 4 && Pow2(3) == 8;
    ClearOnes(w - 4, 2, 1);
    if w > 4 {
      InvertIs(w - 4);
      Pow2Mono(3, Low(w - 4));
    }
  }

  lemma NextEven4(w: nat, h: nat)
    requires w > 0 && Low(w) == 2 && h < w
    ensures w >= 4 && InvertLowestOne(w) == w - 4 && Above(w - 4, 2)
    ensures NextHeight(w, h) ==
              if h == w - 4 || (h < w - 4 && InvertLowestOne(w - 4) + 1 < h) then w - 4 else w - 1
  {
    hide InvertLowestOne, Low, Above;
    BelowFour(w);
    assert GetSkipHeight(w) == w - 4 && GetSkipHeight(w - 1) == InvertLowestOne(w - 4) + 1;
    hide GetSkipHeight;
  }

  lemma NextEven2(w: nat, h: nat)
    requires w > 0 && Low(w) == 1 && h < w
    ensures w >= 2 && InvertLowestOne(w) == w - 2 && Above(w - 2, 1)
    ensures NextHeight(w, h) ==
              if h == w - 2 || (h < w - 2 && InvertLowestOne(InvertLowestOne(w - 2)) + 1 < h) then w - 2 else w - 1
  {
    InvertIs(w);
    RestAbove(w);
    assert Pow2(1) == 2;
    var b := w - 2;
    if b > 0 {
      InvertIs(b);
      Pow2Mono(2, Low(b));
      assert Pow2(2) == 4;
      var q := InvertLowestOne(b);
      assert q > 0 ==> InvertLowestOne(q) < q;
    }
    hide InvertLowestOne;
  }

  // ---- within a block

  /** The most steps from the end of a block of 2^z heights to one inside. */
  function Worst(z: nat): nat
    requires z >= 1
  {
    if z <= 2 then z else Worst(z - 1) + if z % 2 == 1 then (z + 3) / 2 else z / 2 + 1
  }

  lemma {:induction false} WorstGrows(y: nat, z: nat)
    requires 1 <= y <= z
    ensures Worst(y) <= Worst(z)
  {
    if y < z { WorstGrows(y, z - 1); }
  }

  lemma WorstFits(z: nat, k: nat)
    requires z >= 3 && k % 2 == 1 && k < z
    ensures Worst(k) + 1 <= Worst(z) - 1 - (k - 1) / 2
    ensures k + 1 < z ==> Worst(k + 1) + 2 <= Worst(z) - 1 - (k - 1) / 2
  {
    if k + 1 < z {
      assert Worst(k + 2) == Worst(k + 1) + (k + 5) / 2;
      hide Worst;
      WorstGrows(k + 2, z);
      WorstGrows(k, k + 1);
    } else {
      assert Worst(z) == Worst(k) + z / 2 + 1;
    }
  }

  lemma RowParts(b: nat, z: nat, k: nat)
    requires Above(b, z) && k < z
    ensures Above(Ones(b, z, k + 1), k) && Ones(b, z, k) == Ones(b, z, k + 1) + Pow2(k)
    ensures k + 1 == z ==> Ones(b, z, k + 1) == b
  {
    LowOfOnes(b, z, k);
    ClearOnes(b, z, k);
    RestAbove(Ones(b, z, k));
    hide Low, InvertLowestOne, Above;
  }

  /** From the even height at the end of a row of ones, the target past the second of them. */
  lemma FromRow(b: nat, z: nat, k: nat, h: nat)
    requires Above(b, z) && k % 2 == 1 && 1 <= k < z && z >= 3
    requires b < h <= Ones(b, z, k) && (k + 2 <= z ==> h > Ones(b, z, k + 2) + 1)
    ensures Steps(Ones(b, z, k), h) <= Worst(z) - 2 - (k - 1) / 2
    decreases z, 1
  {
    hide Above, Ones, Worst, NextHeight, Steps, Low, InvertLowestOne, Pow2;
    WorstFits(z, k);
    RowParts(b, z, k);
    StepsNone(h);
    if h < Ones(b, z, k) {
      var s := Ones(b, z, k + 1);
      if s < h {
        InBlock(s, k, h);
      } else {
        StepsNext(Ones(b, z, k), h);
        TakesOne(b, z, k, h);
        if s > h { BelowRow(b, z, k, h); }
      }
    }
  }

  lemma TakesOne(b: nat, z: nat, k: nat, h: nat)
    requires Above(b, z) && k % 2 == 1 && 1 <= k && k + 2 <= z && b < h <= Ones(b, z, k + 1)
    requires h > Ones(b, z, k + 2) + 1
    ensures h < Ones(b, z, k) && NextHeight(Ones(b, z, k), h) == Ones(b, z, k + 1)
  {
    var e, s := Ones(b, z, k), Ones(b, z, k + 1);
    LowOfOnes(b, z, k);
    ClearOnes(b, z, k);
    ClearOnes(b, z, k + 1);
    if k >= 3 {
      NextEven8(e, h);
    } else {
      NextEven2(e, h);
      var q := Ones(b, z, k + 2);
      assert q > 0 ==> InvertLowestOne(q) < q;
    }
  }

  lemma BelowRow(b: nat, z: nat, k: nat, h: nat)
    requires Above(b, z) && k % 2 == 1 && 1 <= k && k + 2 <= z
    requires Ones(b, z, k + 2) + 1 < h < Ones(b, z, k + 1)
    ensures Steps(Ones(b, z, k + 1), h) <= Worst(k + 1)
    decreases z, 0
  {
    hide Above, Ones, Worst, Steps;
    RowParts(b, z, k + 1);
    InBlock(Ones(b, z, k + 2), k + 1, h);
  }

  /** The step from an odd height at the end of a row of ones: two of them go, or the height does. */
  lemma RowStep(b: nat, z: nat, k: nat, h: nat)
    requires Above(b, z) && k % 2 == 1 && 1 <= k < z && b < h <= Ones(b, z, k)
    ensures var r := NextHeight(Ones(b, z, k) + 1, h);
            if k + 2 <= z && Ones(b, z, k + 2) + 1 >= h then r == Ones(b, z, k + 2) + 1
            else r == h || r == Ones(b, z, k)
  {
    var e := Ones(b, z, k);
    LowOfOnes(b, z, k);
    EvenAndTwo(e);
    ClearOnes(b, z, k);
    NextOdd(e, h);
    if k + 2 <= z {
      ClearOnes(b, z, k + 1);
    } else {
      assert b > 0 ==> InvertLowestOne(b) < b;
    }
  }

  /** From an odd height at the end of a row of ones. */
  lemma AlongRow(b: nat, z: nat, k: nat, h: nat)
    requires Above(b, z) && k % 2 == 1 && 1 <= k <= z && z >= 3 && b < h <= Ones(b, z, k) + 1
    ensures Steps(Ones(b, z, k) + 1, h) <= Worst(z) - 1 - (k - 1) / 2
    decreases z, 2, z - k
  {
    hide NextHeight, Above, Worst, Ones;
    if k == z {
      assert Ones(b, z, z) == b by { RowEnd(b, z); }
      WorstTop(z);
    } else {
      WorstFits(z, k);
      if h <= Ones(b, z, k) {
        RowStep(b, z, k, h);
        if k + 2 <= z && Ones(b, z, k + 2) + 1 >= h { AlongRow(b, z, k + 2, h); } else { FromRow(b, z, k, h); }
      }
    }
  }

  lemma RowEnd(b: nat, z: nat)
    ensures Ones(b, z, z) == b
  {}

  lemma {:induction false} WorstTop(z: nat)
    requires z >= 3 && z % 2 == 1
    ensures Worst(z) >= 1 + (z - 1) / 2
  {
    assert Worst(z) >= (z + 3) / 2;
  }

  lemma EvenAndTwo(e: nat)
    requires e > 0 && Low(e) >= 1
    ensures e % 2 == 0 && e >= 2
  {}

  /** From the end of a block to a height inside. */
  lemma InBlock(b: nat, z: nat, h: nat)
    requires Above(b, z) && z >= 1 && b < h < b + Pow2(z) && (z == 2 ==> h > b + 1)
    ensures Steps(b + Pow2(z), h) <= Worst(z)
    decreases z, 3
  {
    if z <= 2 {
      StepsAtMost(b + Pow2(z), h);
      assert Pow2(1) == 2 && Pow2(2) == 4;
    } else {
      LowOfSum(b, z);
      ClearEnd(b, z);
      NextEven8(b + Pow2(z), h);
      assert Ones(b, z, 1) + 1 == b + Pow2(z) - 1;
      AlongRow(b, z, 1, h);
    }
  }

  // ---- from anywhere

  lemma LowBelow(n: nat, b: nat)
    requires 0 < n < Pow2(b)
    ensures Low(n) < b
  {
    InvertIs(n);
    if Low(n) >= b { Pow2Mono(b, Low(n)); }
  }

  /** The target lies in the block that the lowest one of s ends. */
  lemma EndsBlock(s: nat, h: nat, b: nat)
    requires 0 < s < Pow2(b) && Low(s) >= 1 && InvertLowestOne(s) < h < s
    requires Low(s) == 2 ==> h > InvertLowestOne(s) + 1
    ensures Steps(s, h) <= Worst(Low(s)) && Low(s) <= b - 1 && Worst(Low(s)) <= Worst(b - 1)
  {
    hide Steps, Worst, Low, InvertLowestOne, Above;
    LowBelow(s, b);
    InvertIs(s);
    RestAbove(s);
    hide Pow2;
    InBlock(InvertLowestOne(s), Low(s), h);
    WorstGrows(Low(s), b - 1);
  }

  /** From an even height when the target lies past its second one. */
  lemma PastTwo(e: nat, h: nat, b: nat)
    requires 0 < e < Pow2(b) && b >= 4 && Low(e) >= 1 && InvertLowestOne(InvertLowestOne(e)) + 1 < h <= e
    ensures Steps(e, h) <= 1 + Worst(b - 1)
  {
    var s := InvertLowestOne(e);
    InvertIs(e);
    RestAbove(e);
    WorstGrows(3, b - 1);
    if h < e {
      PastTwoStep(e, h);
      if s < h {
        if Low(e) < 3 {
          Pow2Mono(Low(e), 2);
          assert Pow2(2) == 4;
          StepsAtMost(e, h);
        } else {
          EndsBlock(e, h, b);
        }
      } else if s > h {
        EndsBlock(s, h, b);
      }
    }
  }

  lemma PastTwoStep(e: nat, h: nat)
    requires e > 0 && Low(e) >= 1 && InvertLowestOne(InvertLowestOne(e)) + 1 < h < e
    ensures InvertLowestOne(e) >= h ==> NextHeight(e, h) == InvertLowestOne(e)
  {
    var s := InvertLowestOne(e);
    var q := InvertLowestOne(s);
    assert q > 0 ==> InvertLowestOne(q) < q;
    if Low(e) >= 3 { NextEven8(e, h); } else if Low(e) == 2 { NextEven4(e, h); } else { NextEven2(e, h); }
  }

  lemma {:induction false} FromOdd(e: nat, h: nat, b: nat)
    requires e < Pow2(b) && b >= 4 && e % 2 == 0 && h <= e + 1
    ensures Steps(e + 1, h) <= (if e == 0 then 1 else (b - Low(e)) / 2 + 2 + Worst(b - 1))
    decreases e
  {
    if e == 0 {
      StepsAtMost(1, h);
    } else {
      LowBelow(e, b);
      if h <= e {
        NextOdd(e, h);
        var s := InvertLowestOne(InvertLowestOne(e));
        if s + 1 >= h {
          TwoCleared(e, b);
          FromOdd(s, h, b);
        } else {
          PastTwo(e, h, b);
        }
      }
    }
  }

  lemma TwoCleared(e: nat, b: nat)
    requires 0 < e < Pow2(b) && e % 2 == 0
    ensures var s := InvertLowestOne(InvertLowestOne(e)); s < e && s % 2 == 0 && (s > 0 ==> Low(e) + 2 <= Low(s) < b)
  {
    RestAbove(e);
    var q := InvertLowestOne(e);
    if q > 0 {
      RestAbove(q);
      if InvertLowestOne(q) > 0 { LowBelow(InvertLowestOne(q), b); }
    }
  }

  lemma {:induction false} FromEight(w: nat, h: nat, b: nat)
    requires 0 < w < Pow2(b) && Low(w) >= 3 && h <= w
    ensures Low(w) < b && Steps(w, h) <= b - 1 - Low(w) + Worst(b - 1)
    decreases w
  {
    LowBelow(w, b);
    WorstGrows(1, b - 1);
    if h < w {
      NextEven8(w, h);
      var s := InvertLowestOne(w);
      if s > h {
        RestAbove(w);
        FromEight(s, h, b);
      } else if s < h {
        EndsBlock(w, h, b);
      }
    }
  }

  lemma FromFour(w: nat, h: nat, b: nat)
    requires 0 < w < Pow2(b) && b >= 4 && Low(w) == 2 && h <= w
    ensures Steps(w, h) <= (b - 1) / 2 + 3 + Worst(b - 1)
  {
    if h < w {
      NextEven4(w, h);
      if NextHeight(w, h) == w - 1 {
        FromOdd(w - 2, h, b);
        LowAtLeastOne(w - 2);
      } else if h < w - 4 {
        PastTwo(w, h, b);
      }
    }
  }

  lemma LowAtLeastOne(e: nat)
    requires e % 2 == 0
    ensures e > 0 ==> Low(e) >= 1
  {}

  lemma FromTwo(w: nat, h: nat, b: nat)
    requires 0 < w < Pow2(b) && b >= 4 && Low(w) == 1 && h <= w
    ensures Steps(w, h) <= (b - 1) / 2 + 3 + Worst(b - 1)
  {
    if h < w {
      NextEven2(w, h);
      if NextHeight(w, h) == w - 1 {
        FromOdd(w - 2, h, b);
        LowAtLeastOne(w - 2);
      } else if h < w - 2 {
        PastTwo(w - 2, h, b);
      }
    }
  }

  lemma FromAnywhere(w: nat, h: nat, b: nat)
    requires h <= w < Pow2(b) && b >= 12
    ensures Steps(w, h) <= b - 4 + Worst(b - 1)
  {
    hide Steps, Worst, Pow2, Low;
    if w == 0 {
      StepsAtMost(w, h);
    } else if w % 2 == 1 {
      LowAtLeastOne(w - 1);
      FromOdd(w - 1, h, b);
    } else {
      LowAtLeastOne(w);
      if Low(w) >= 3 {
        FromEight(w, h, b);
      } else if Low(w) == 2 {
        FromFour(w, h, b);
      } else {
        FromTwo(w, h, b);
      }
    }
  }

  lemma {:induction false} WorstIs(z: nat)
    requires z >= 2
    ensures 4 * Worst(z) + (if z % 2 == 0 then 8 else 7) <= z * z + 6 * z
  {
    if z > 2 {
      WorstIs(z - 1);
      Square(z);
      var n, m := Worst(z - 1), Worst(z);
      assert m == n + if z % 2 == 1 then (z + 3) / 2 else z / 2 + 1;
    }
  }

  lemma Square(z: nat)
    requires z > 0
    ensures (z - 1) * (z - 1) == z * z - 2 * z + 1
  {}

  lemma Pow2Of18()
    ensures Pow2(18) == 0x4_0000
  {
    assert Pow2(6) == 64;
    assert Pow2(12) == 0x1000;
  }

  /** Going back from a height below 2^b takes at most b^2 / 4 + 2 * b - 7 steps. */
  lemma StepsBound(w: nat, h: nat, b: nat)
    requires h <= w < Pow2(b) && b >= 12
    ensures 4 * Steps(w, h) + 28 <= b * b + 8 * b
  {
    hide Steps, Pow2, Worst;
    FromAnywhere(w, h, b);
    WorstIs(b - 1);
    Square(b);
    var n, m := Steps(w, h), Worst(b - 1);
    assert 4 * n <= 4 * (b - 4) + 4 * m;
  }

  /** The promise of the source: at most 110 steps up to 2^18 blocks. */
  lemma StepsUpTo18(w: nat, h: nat)
    requires h <= w < 0x4_0000
    ensures Steps(w, h) <= 110
  {
    Pow2Of18();
    hide Steps, Pow2;
    StepsBound(w, h, 18);
  }
}
