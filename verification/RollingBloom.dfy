/** The rolling bloom filter: two-bit cells that name the generation which last set them. */
module RollingBloom {
  import Limbs
  import F = FastRange

  /** A 64-bit word as its bits, lowest first. */
  type Word = w: seq<bool> | |w| == 64 witness seq(64, _ => false)

  type Key = seq<nat>

  function WordAnd(a: Word, b: Word): Word { seq(64, i requires 0 <= i < 64 => a[i] && b[i]) }
  function WordOr(a: Word, b: Word): Word { seq(64, i requires 0 <= i < 64 => a[i] || b[i]) }
  function WordXor(a: Word, b: Word): Word { seq(64, i requires 0 <= i < 64 => a[i] != b[i]) }
  /** Zero minus a single bit: all zeros or all ones. */
  function MinusBit(b: nat): Word { seq(64, _ => b == 1) }

  /** A position of the filter: a pair of words and a bit in them. */
  datatype Position = Position(slot: nat, bit: nat)

  /** The two bits of a cell as a generation number, zero when it is unset. */
  function Cell(data: seq<Word>, p: Position): nat
    requires 2 * p.slot + 1 < |data| && p.bit < 64
  {
    (if data[2 * p.slot][p.bit] then 1 else 0) + (if data[2 * p.slot + 1][p.bit] then 2 else 0)
  }

  ghost predicate Within(data: seq<Word>, p: Position) {
    2 * p.slot + 1 < |data| && p.bit < 64
  }

  function NextGeneration(g: nat): nat { if g + 1 == 4 then 1 else g + 1 }

  /** How many generations back a set cell was set, seen from generation g. */
  function Age(g: nat, v: nat): int { if v <= g then g - v else g + 3 - v }

  lemma Ages(g: nat, v: nat)
    requires 1 <= g <= 3 && 1 <= v <= 3
    ensures 0 <= Age(g, v) <= 2
    ensures Age(g, v) == 2 <==> v == NextGeneration(g)
    ensures v != NextGeneration(g) ==> Age(NextGeneration(g), v) == Age(g, v) + 1
    ensures Age(g, g) == 0
  {}

  /** Both words of a cell after the masked wipe of generation g. */
  function Wiped(p1: Word, p2: Word, g: nat): (Word, Word) {
    var mask := WordOr(WordXor(p1, MinusBit(g % 2)), WordXor(p2, MinusBit(g / 2)));
    (WordAnd(p1, mask), WordAnd(p2, mask))
  }

  /** The wipe clears exactly the cells that hold g. */
  lemma WipeClears(data: seq<Word>, wiped: seq<Word>, p: Position, g: nat)
    requires 1 <= g <= 3 && |data| == |wiped| && Within(data, p)
    requires (wiped[2 * p.slot], wiped[2 * p.slot + 1]) == Wiped(data[2 * p.slot], data[2 * p.slot + 1], g)
    ensures Cell(wiped, p) == if Cell(data, p) == g then 0 else Cell(data, p)
  {}

  function SetBit(w: Word, bit: nat, v: nat): Word
    requires bit < 64
  {
    w[bit := v == 1]
  }

  /** The cell is set, in a generation at most age back from g. */
  ghost predicate MarkedAt(data: seq<Word>, g: nat, p: Position, age: int) {
    Within(data, p) && Cell(data, p) > 0 && Age(g, Cell(data, p)) <= age
  }

  /** A cell at most one generation old outlives the next wipe. */
  lemma OutlivesWipe(data: seq<Word>, wiped: seq<Word>, g: nat, p: Position, age: int)
    requires 1 <= g <= 3 && MarkedAt(data, g, p, age) && age <= 1 && |wiped| == |data|
    requires Cell(wiped, p) == if Cell(data, p) == NextGeneration(g) then 0 else Cell(data, p)
    ensures MarkedAt(wiped, NextGeneration(g), p, age + 1)
  {
    Ages(g, Cell(data, p));
  }

  /** Both words with one cell set to g. */
  function WithCell(data: seq<Word>, p: Position, g: nat): seq<Word>
    requires 2 * p.slot + 1 < |data| && p.bit < 64
  {
    var i := 2 * p.slot;
    data[i := SetBit(data[i], p.bit, g % 2)][i + 1 := SetBit(data[i + 1], p.bit, g / 2)]
  }

  lemma WithCellIs(data: seq<Word>, p: Position, g: nat, q: Position)
    requires 1 <= g <= 3 && Within(data, p) && Within(data, q)
    ensures |WithCell(data, p, g)| == |data|
    ensures Cell(WithCell(data, p, g), q) == if q == p then g else Cell(data, q)
  {}

  /** Setting a cell only ever makes it newer. */
  ghost predicate OnlyNewer(a: seq<Word>, b: seq<Word>, g: nat) {
    |a| == |b| && forall p :: Within(a, p) ==> Cell(b, p) == Cell(a, p) || Cell(b, p) == g
  }

  lemma NewerStaysMarked(a: seq<Word>, b: seq<Word>, g: nat, p: Position, age: int)
    requires 1 <= g <= 3 && OnlyNewer(a, b, g) && MarkedAt(a, g, p, age) && age >= 0
    ensures MarkedAt(b, g, p, age)
  {
    Ages(g, g);
  }

  // ---- counting generations

  ghost function EpochOf(n: nat, e: nat): nat
    requires e > 0
  {
    if n == 0 then 0 else (n - 1) / e
  }

  lemma EpochNext(n: nat, e: nat, k: nat)
    requires CountedIn(n, e, k)
    ensures k == e ==> EpochOf(n + 1, e) == EpochOf(n, e) + 1 && n + 1 == EpochOf(n + 1, e) * e + 1
    ensures k < e ==> EpochOf(n + 1, e) == EpochOf(n, e) && n + 1 == EpochOf(n + 1, e) * e + k + 1
    ensures n / e == EpochOf(n + 1, e)
  {
    var c := EpochOf(n, e);
    if k == e {
      assert n == (c + 1) * e;
      Limbs.DivModUnique(n, e, c + 1, 0);
    } else {
      Limbs.DivModUnique(n, e, c, k);
    }
  }

  lemma AgesNonNegative(j: nat, n: nat, e: nat)
    requires e > 0 && j < n
    ensures j / e <= EpochOf(n, e) <= EpochOf(n + 1, e)
  {
    Limbs.DivMono(j, n - 1, e);
    Limbs.DivMono(n - 1, n, e);
  }

  // ---- what the filter remembers

  /** What stays fixed between resets. */
  datatype Setup = Setup(hash: (nat, nat, Key) -> nat, nTweak: nat, nHashFuncs: nat, nPerGeneration: nat)

  function Place(u: Setup, words: nat, n: nat, key: Key): Position {
    var h := u.hash(n, u.nTweak, key) % 0x1_0000_0000;
    Position(F.FastMod(h, words) / 2, h % 64)
  }

  lemma PlaceWithin(u: Setup, data: seq<Word>, n: nat, key: Key)
    requires |data| > 0 && |data| % 2 == 0
    ensures Within(data, Place(u, |data|, n, key))
  {
    F.FastModBelow(u.hash(n, u.nTweak, key) % 0x1_0000_0000, |data|);
  }

  /** The cell of a key follows its hash: the word the share of the range it falls into, the bit its lowest six. */
  lemma PlaceIff(u: Setup, words: nat, n: nat, key: Key, p: Position)
    requires words > 0
    ensures var h := u.hash(n, u.nTweak, key) % 0x1_0000_0000;
            Place(u, words, n, key) == p <==>
              h % 64 == p.bit && F.First(2 * p.slot, words) <= h < F.First(2 * p.slot + 2, words)
  {
    var h := u.hash(n, u.nTweak, key) % 0x1_0000_0000;
    F.FastModEven(2 * p.slot, words);
    F.FastModEven(2 * p.slot + 1, words);
    hide F.FastMod, F.First;
    assert F.FastMod(h, words) / 2 == p.slot <==>
        F.FastMod(h, words) == 2 * p.slot || F.FastMod(h, words) == 2 * p.slot + 1;
  }

  /** No cell of a filter of at most 2 to the 26 words is out of reach. */
  lemma EveryCellIsAPlace(data: seq<Word>, p: Position) returns (h: nat)
    requires Within(data, p) && |data| <= 0x400_0000
    ensures h < 0x1_0000_0000
    ensures forall u: Setup, n: nat, key: Key :: u.hash(n, u.nTweak, key) == h ==> Place(u, |data|, n, key) == p
  {
    h := F.LowBitsIndependent(2 * p.slot, |data|, p.bit);
  }

  /** All cells of the key are set, none further back than age. */
  ghost predicate Remembers(u: Setup, data: seq<Word>, g: nat, key: Key, age: int) {
    forall n :: 0 <= n < u.nHashFuncs ==> MarkedAt(data, g, Place(u, |data|, n, key), age)
  }

  /** The generations completed since the j-th of n keys went in. */
  ghost function AgeOf(j: nat, n: nat, e: nat): int
    requires e > 0
  {
    EpochOf(n, e) - j / e
  }

  ghost predicate RemembersAll(u: Setup, data: seq<Word>, g: nat, history: seq<Key>) {
    u.nPerGeneration > 0 &&
    forall j :: 0 <= j < |history| && AgeOf(j, |history|, u.nPerGeneration) <= 2 ==>
      Remembers(u, data, g, history[j], AgeOf(j, |history|, u.nPerGeneration))
  }

  ghost predicate WipedOf(data: seq<Word>, wiped: seq<Word>, g: nat) {
    |wiped| == |data| && forall p :: Within(data, p) ==>
        Cell(wiped, p) == if Cell(data, p) == g then 0 else Cell(data, p)
  }

  lemma RememberedThroughWipe(u: Setup, data: seq<Word>, wiped: seq<Word>, g: nat, key: Key, age: int)
    requires 1 <= g <= 3 && Remembers(u, data, g, key, age) && age <= 1 && WipedOf(data, wiped, NextGeneration(g))
    ensures Remembers(u, wiped, NextGeneration(g), key, age + 1)
  {
    hide Place;
    forall n | 0 <= n < u.nHashFuncs ensures MarkedAt(wiped, NextGeneration(g), Place(u, |wiped|, n, key), age + 1) {
      OutlivesWipe(data, wiped, g, Place(u, |data|, n, key), age);
    }
  }

  lemma RememberedThroughMark(u: Setup, a: seq<Word>, b: seq<Word>, g: nat, key: Key, age: int)
    requires 1 <= g <= 3 && Remembers(u, a, g, key, age) && age >= 0 && OnlyNewer(a, b, g)
    ensures Remembers(u, b, g, key, age)
  {
    hide Place;
    forall n | 0 <= n < u.nHashFuncs ensures MarkedAt(b, g, Place(u, |b|, n, key), age) {
      NewerStaysMarked(a, b, g, Place(u, |a|, n, key), age);
    }
  }

  /** A key inserted within a generation. */
  lemma InsertedWithin(u: Setup, a: seq<Word>, b: seq<Word>, g: nat, history: seq<Key>, key: Key, k: nat)
    requires 1 <= g <= 3 && RemembersAll(u, a, g, history) && OnlyNewer(a, b, g) && Remembers(u, b, g, key, 0)
    requires k < u.nPerGeneration && CountedIn(|history|, u.nPerGeneration, k)
    ensures RemembersAll(u, b, g, history + [key])
  {
    hide Remembers, OnlyNewer, EpochOf;
    var n, e := |history|, u.nPerGeneration;
    EpochNext(n, e, k);
    forall j | 0 <= j < n + 1 && AgeOf(j, n + 1, e) <= 2
      ensures Remembers(u, b, g, (history + [key])[j], AgeOf(j, n + 1, e))
    {
      if j < n {
        AgesNonNegative(j, n, e);
        RememberedThroughMark(u, a, b, g, history[j], AgeOf(j, n, e));
      }
    }
  }

  /** A key inserted as the first of a new generation. */
  lemma InsertedAfterTurn(u: Setup, d: seq<Word>, a: seq<Word>, b: seq<Word>, g: nat, history: seq<Key>, key: Key)
    requires 1 <= g <= 3 && RemembersAll(u, d, g, history) && WipedOf(d, a, NextGeneration(g))
    requires OnlyNewer(a, b, NextGeneration(g)) && Remembers(u, b, NextGeneration(g), key, 0)
    requires CountedIn(|history|, u.nPerGeneration, u.nPerGeneration)
    ensures RemembersAll(u, b, NextGeneration(g), history + [key])
  {
    hide Remembers, OnlyNewer, WipedOf, EpochOf;
    var n, e := |history|, u.nPerGeneration;
    EpochNext(n, e, e);
    forall j | 0 <= j < n + 1 && AgeOf(j, n + 1, e) <= 2
      ensures Remembers(u, b, NextGeneration(g), (history + [key])[j], AgeOf(j, n + 1, e))
    {
      if j < n {
        AgesNonNegative(j, n, e);
        RememberedThroughWipe(u, d, a, g, history[j], AgeOf(j, n, e));
        RememberedThroughMark(u, a, b, NextGeneration(g), history[j], AgeOf(j, n, e) + 1);
      }
    }
  }

  /** n keys so far, k of them in the current generation of e. */
  ghost predicate CountedIn(n: nat, e: nat, k: nat) {
    e > 0 && k <= e && n == EpochOf(n, e) * e + k && (n > 0 ==> k > 0)
  }

  /** The last two full generations and the current one are young enough to be remembered. */
  lemma RecentIsYoung(n: nat, e: nat, k: nat, j: nat)
    requires CountedIn(n, e, k) && j < n && j + 2 * e + k >= n
    ensures AgeOf(j, n, e) <= 2
  {
    hide EpochOf;
    var c := EpochOf(n, e);
    if c >= 2 {
      var m := (c - 2) * e;
      Limbs.MulSub(c, 2, e);
      Limbs.MulMono(0, c - 2, e);
      Limbs.DivModUnique(m, e, c - 2, 0);
      Limbs.DivMono(m, j, e);
    } else {
      Limbs.DivMono(0, j, e);
      Limbs.DivModUnique(0, e, 0, 0);
    }
  }

  // ---- and what it does not

  /** The position is that of one of the key's cells. */
  ghost predicate IsPlace(u: Setup, words: nat, key: Key, p: Position) {
    exists n :: 0 <= n < u.nHashFuncs && Place(u, words, n, key) == p
  }

  /** Exactly the cells of the key have been set to g. */
  ghost predicate MarkedWith(u: Setup, a: seq<Word>, b: seq<Word>, g: nat, key: Key) {
    |a| == |b| && forall p :: Within(a, p) ==> Cell(b, p) == if IsPlace(u, |a|, key, p) then g else Cell(a, p)
  }

  lemma MarkedIsNewer(u: Setup, a: seq<Word>, b: seq<Word>, g: nat, key: Key)
    requires MarkedWith(u, a, b, g, key)
    ensures OnlyNewer(a, b, g)
  {
    hide IsPlace;
  }

  lemma MarkedIsRemembered(u: Setup, a: seq<Word>, b: seq<Word>, g: nat, key: Key)
    requires MarkedWith(u, a, b, g, key) && 1 <= g <= 3 && |a| > 0 && |a| % 2 == 0
    ensures Remembers(u, b, g, key, 0)
  {
    hide Place;
    forall n | 0 <= n < u.nHashFuncs ensures MarkedAt(b, g, Place(u, |b|, n, key), 0) {
      PlaceWithin(u, a, n, key);
      assert IsPlace(u, |a|, key, Place(u, |a|, n, key));
      Ages(g, g);
    }
  }

  lemma PlaceAside(u: Setup, words: nat, n: nat, m: nat, key: Key)
    ensures Place(u.(nHashFuncs := n), words, m, key) == Place(u, words, m, key)
  {}

  lemma OnePlaceMore(u: Setup, words: nat, key: Key, n: nat, p: Position)
    ensures IsPlace(u.(nHashFuncs := n + 1), words, key, p) <==>
              IsPlace(u.(nHashFuncs := n), words, key, p) || p == Place(u, words, n, key)
  {
    var v, w := u.(nHashFuncs := n), u.(nHashFuncs := n + 1);
    forall m: nat ensures Place(v, words, m, key) == Place(w, words, m, key) == Place(u, words, m, key) {
      PlaceAside(u, words, n, m, key);
      PlaceAside(u, words, n + 1, m, key);
    }
    hide Place;
    if m :| 0 <= m < n + 1 && Place(w, words, m, key) == p {
      if m < n { assert Place(v, words, m, key) == p; }
    }
    if m :| 0 <= m < n && Place(v, words, m, key) == p { assert Place(w, words, m, key) == p; }
    assert p == Place(u, words, n, key) ==> Place(w, words, n, key) == p;
  }

  lemma MarkedOneMore(u: Setup, was: seq<Word>, a: seq<Word>, b: seq<Word>, g: nat, key: Key, n: nat)
    requires 1 <= g <= 3 && MarkedWith(u.(nHashFuncs := n), was, a, g, key) && Within(a, Place(u, |a|, n, key))
    requires b == WithCell(a, Place(u, |a|, n, key), g)
    ensures MarkedWith(u.(nHashFuncs := n + 1), was, b, g, key)
  {
    hide Place, IsPlace;
    var p := Place(u, |a|, n, key);
    WithCellIs(a, p, g, p);
    forall q | Within(was, q)
      ensures Cell(b, q) == if IsPlace(u.(nHashFuncs := n + 1), |was|, key, q) then g else Cell(was, q)
    {
      WithCellIs(a, p, g, q);
      OnePlaceMore(u, |was|, key, n, q);
    }
  }

  /** The j-th key set the cell, in the generation the cell names. */
  ghost predicate SetBy(u: Setup, data: seq<Word>, g: nat, history: seq<Key>, p: Position, j: int)
    requires Within(data, p)
  {
    && 0 <= j < |history| && u.nPerGeneration > 0 && IsPlace(u, |data|, history[j], p)
    && AgeOf(j, |history|, u.nPerGeneration) == Age(g, Cell(data, p))
  }

  /** Every set cell was set by one of the keys. */
  ghost predicate Traced(u: Setup, data: seq<Word>, g: nat, history: seq<Key>) {
    forall p :: Within(data, p) && Cell(data, p) > 0 ==> exists j :: SetBy(u, data, g, history, p, j)
  }

  lemma AgeOfNext(n: nat, e: nat, k: nat, j: nat)
    requires CountedIn(n, e, k)
    ensures AgeOf(j, n + 1, e) == AgeOf(j, n, e) + if k == e then 1 else 0
    ensures AgeOf(n, n + 1, e) == 0
  {
    EpochNext(n, e, k);
  }

  lemma SetByNewest(u: Setup, b: seq<Word>, g: nat, history: seq<Key>, key: Key, k: nat, p: Position)
    requires 1 <= g <= 3 && CountedIn(|history|, u.nPerGeneration, k) && Within(b, p)
    requires IsPlace(u, |b|, key, p) && Cell(b, p) == g
    ensures SetBy(u, b, g, history + [key], p, |history|)
  {
    hide IsPlace, EpochOf;
    AgeOfNext(|history|, u.nPerGeneration, k, |history|);
    Ages(g, g);
  }

  lemma SetByEarlier(u: Setup, a: seq<Word>, b: seq<Word>, f: nat, g: nat, history: seq<Key>, key: Key, k: nat,
                     p: Position, j: int)
    requires CountedIn(|history|, u.nPerGeneration, k) && |a| == |b| && Within(a, p) && SetBy(u, a, f, history, p, j)
    requires Age(g, Cell(b, p)) == Age(f, Cell(a, p)) + if k == u.nPerGeneration then 1 else 0
    ensures SetBy(u, b, g, history + [key], p, j)
  {
    hide IsPlace, AgeOf;
    AgeOfNext(|history|, u.nPerGeneration, k, j);
  }

  lemma TracedWithin(u: Setup, a: seq<Word>, b: seq<Word>, g: nat, history: seq<Key>, key: Key, k: nat)
    requires 1 <= g <= 3 && Traced(u, a, g, history) && MarkedWith(u, a, b, g, key)
    requires k < u.nPerGeneration && CountedIn(|history|, u.nPerGeneration, k)
    ensures Traced(u, b, g, history + [key])
  {
    hide IsPlace, SetBy, Age;
    forall p | Within(b, p) && Cell(b, p) > 0 ensures exists j :: SetBy(u, b, g, history + [key], p, j) {
      assert Within(a, p);
      if IsPlace(u, |a|, key, p) {
        SetByNewest(u, b, g, history, key, k, p);
      } else {
        var j :| SetBy(u, a, g, history, p, j);
        SetByEarlier(u, a, b, g, g, history, key, k, p, j);
      }
    }
  }

  lemma TracedAfterTurn(u: Setup, d: seq<Word>, a: seq<Word>, b: seq<Word>, g: nat, history: seq<Key>, key: Key)
    requires 1 <= g <= 3 && Traced(u, d, g, history) && WipedOf(d, a, NextGeneration(g))
    requires MarkedWith(u, a, b, NextGeneration(g), key) && CountedIn(|history|, u.nPerGeneration, u.nPerGeneration)
    ensures Traced(u, b, NextGeneration(g), history + [key])
  {
    hide IsPlace, SetBy, Age;
    var next, e := NextGeneration(g), u.nPerGeneration;
    forall p | Within(b, p) && Cell(b, p) > 0 ensures exists j :: SetBy(u, b, next, history + [key], p, j) {
      assert Within(a, p) && Within(d, p);
      if IsPlace(u, |a|, key, p) {
        SetByNewest(u, b, next, history, key, e, p);
      } else {
        assert Cell(b, p) == Cell(a, p) == Cell(d, p) != next;
        Ages(g, Cell(d, p));
        var j :| SetBy(u, d, g, history, p, j);
        SetByEarlier(u, d, b, g, next, history, key, e, p, j);
      }
    }
  }

  /** Of the current generation or one of the two before. */
  ghost predicate Recent(j: int, n: nat, e: nat) {
    0 <= j < n && e > 0 && AgeOf(j, n, e) <= 2
  }

  /** A cell is set if and only if a recent key has it. */
  lemma CellSetIff(u: Setup, data: seq<Word>, g: nat, history: seq<Key>, p: Position)
    requires 1 <= g <= 3 && RemembersAll(u, data, g, history) && Traced(u, data, g, history) && Within(data, p)
    ensures Cell(data, p) > 0 <==>
              exists j :: Recent(j, |history|, u.nPerGeneration) && IsPlace(u, |data|, history[j], p)
  {
    if Cell(data, p) > 0 {
      var j :| SetBy(u, data, g, history, p, j);
      Ages(g, Cell(data, p));
      assert Recent(j, |history|, u.nPerGeneration);
    }
    if j :| Recent(j, |history|, u.nPerGeneration) && IsPlace(u, |data|, history[j], p) {
      assert Remembers(u, data, g, history[j], AgeOf(j, |history|, u.nPerGeneration));
      var n :| 0 <= n < u.nHashFuncs && Place(u, |data|, n, history[j]) == p;
      assert MarkedAt(data, g, Place(u, |data|, n, history[j]), AgeOf(j, |history|, u.nPerGeneration));
    }
  }

  /** Each cell of the key is one of a recent key. */
  ghost predicate Covered(u: Setup, words: nat, history: seq<Key>, key: Key) {
    forall n :: 0 <= n < u.nHashFuncs ==> CoveredAt(u, words, history, Place(u, words, n, key))
  }

  ghost predicate CoveredAt(u: Setup, words: nat, history: seq<Key>, p: Position) {
    exists j :: Recent(j, |history|, u.nPerGeneration) && IsPlace(u, words, history[j], p)
  }

  lemma SetIffCovered(u: Setup, data: seq<Word>, g: nat, history: seq<Key>, key: Key)
    requires 1 <= g <= 3 && RemembersAll(u, data, g, history) && Traced(u, data, g, history)
    requires |data| > 0 && |data| % 2 == 0
    ensures SetIn(u, data, key) <==> Covered(u, |data|, history, key)
  {
    hide Place, RemembersAll, Traced, Recent, IsPlace;
    forall n | 0 <= n < u.nHashFuncs
      ensures Within(data, Place(u, |data|, n, key))
      ensures Cell(data, Place(u, |data|, n, key)) > 0 <==> CoveredAt(u, |data|, history, Place(u, |data|, n, key))
    {
      PlaceWithin(u, data, n, key);
      CellSetIff(u, data, g, history, Place(u, |data|, n, key));
    }
  }

  /** The last two full generations and the current one are exactly the recent keys. */
  lemma RecentIff(n: nat, e: nat, k: nat, j: nat)
    requires CountedIn(n, e, k) && j < n
    ensures Recent(j, n, e) <==> j + 2 * e + k >= n
  {
    if j + 2 * e + k >= n {
      RecentIsYoung(n, e, k, j);
    } else {
      OldIsForgotten(n, e, k, j);
    }
  }

  lemma OldIsForgotten(n: nat, e: nat, k: nat, j: nat)
    requires CountedIn(n, e, k) && j + 2 * e + k < n
    ensures AgeOf(j, n, e) > 2
  {
    hide EpochOf;
    var c := EpochOf(n, e);
    Limbs.MulSub(c, 2, e);
    assert j < (c - 2) * e;
    var q := j / e;
    assert q * e <= j;
    if q >= c - 2 { Limbs.MulMono(c - 2, q, e); }
  }

  /** No cell is set. */
  ghost predicate Blank(data: seq<Word>) {
    forall p :: Within(data, p) ==> Cell(data, p) == 0
  }

  lemma NothingTraced(u: Setup, data: seq<Word>, g: nat, history: seq<Key>)
    requires Blank(data)
    ensures Traced(u, data, g, history)
  {}

  ghost predicate SetIn(u: Setup, data: seq<Word>, key: Key) {
    forall n :: 0 <= n < u.nHashFuncs ==>
      Within(data, Place(u, |data|, n, key)) && Cell(data, Place(u, |data|, n, key)) > 0
  }

  lemma NothingSet(u: Setup, data: seq<Word>)
    requires forall i :: 0 <= i < |data| ==> data[i] == seq(64, _ => false)
    ensures Blank(data) && (u.nHashFuncs > 0 ==> forall key :: !SetIn(u, data, key))
  {
    forall key | u.nHashFuncs > 0 ensures !SetIn(u, data, key) {
      hide Place;
      var p := Place(u, |data|, 0, key);
      assert Within(data, p) ==> Cell(data, p) == 0;
    }
  }

  class RollingBloomFilter {
    const nEntriesPerGeneration: nat
    const nHashFuncs: nat
    const hash: (nat, nat, Key) -> nat
    var nEntriesThisGeneration: nat
    var nGeneration: nat
    var data: array<Word>
    var nTweak: nat
    ghost var history: seq<Key>      // the keys inserted since the last reset

    ghost function Fixed(): Setup
      reads this
    {
      Setup(hash, nTweak, nHashFuncs, nEntriesPerGeneration)
    }

    function Where(n: nat, key: Key): Position
      reads this
    {
      Place(Setup(hash, nTweak, nHashFuncs, nEntriesPerGeneration), data.Length, n, key)
    }

    /** All cells of the key are set. */
    ghost predicate AllSet(key: Key)
      reads this, data
    {
      SetIn(Fixed(), data[..], key)
    }

    ghost predicate Sized()
      reads this
    {
      && nEntriesPerGeneration > 0 && data.Length > 0 && data.Length % 2 == 0
      && 1 <= nGeneration <= 3
    }

    ghost predicate Valid()
      reads this, data
    {
      && Sized() && CountedIn(|history|, nEntriesPerGeneration, nEntriesThisGeneration)
      && RemembersAll(Fixed(), data[..], nGeneration, history)
      && Traced(Fixed(), data[..], nGeneration, history)
    }

    constructor (nElements: nat, words: nat, hashFuncs: nat, h: (nat, nat, Key) -> nat, tweak: nat)
      requires nElements >= 1 && words >= 1
      ensures Valid() && history == [] && fresh(data)
      ensures Blank(data[..]) && (nHashFuncs > 0 ==> forall key :: !AllSet(key))
      ensures nEntriesPerGeneration == (nElements + 1) / 2 && 2 * nEntriesPerGeneration >= nElements
    {
      nEntriesPerGeneration := (nElements + 1) / 2;
      nHashFuncs := hashFuncs;
      hash := h;
      nEntriesThisGeneration, nGeneration, nTweak, history := 0, 1, tweak, [];
      data := new Word[2 * words](_ => seq(64, _ => false));
      new;
      NothingSet(Fixed(), data[..]);
      NothingTraced(Fixed(), data[..], nGeneration, history);
    }

    method ClearData()
      modifies data
      ensures forall i :: 0 <= i < data.Length ==> data[i] == seq(64, _ => false)
    {
      for i := 0 to data.Length
        invariant forall j :: 0 <= j < i ==> data[j] == seq(64, _ => false)
      {
        data[i] := seq(64, _ => false);
      }
    }

    /** Forgets every key: no cell is left set, so no key is found any more. */
    method Reset(tweak: nat)
      requires Valid()
      modifies this, data
      ensures Valid() && history == [] && data == old(data) && nTweak == tweak
      ensures Blank(data[..]) && (nHashFuncs > 0 ==> forall key :: !AllSet(key))
    {
      hide Place, Blank, SetIn;
      nTweak := tweak;
      nEntriesThisGeneration := 0;
      nGeneration := 1;
      history := [];
      ClearData();
      NothingSet(Fixed(), data[..]);
      NothingTraced(Fixed(), data[..], nGeneration, history);
    }

    /** Clears every cell that still holds the generation about to be reused. */
    method Wipe()
      requires Sized()
      modifies data
      ensures WipedOf(old(data[..]), data[..], nGeneration)
    {
      ghost var was := data[..];
      var p := 0;
      while p < data.Length
        invariant 0 <= p <= data.Length && p % 2 == 0
        invariant forall i :: 0 <= 2 * i < p ==>
                    (data[2 * i], data[2 * i + 1]) == Wiped(was[2 * i], was[2 * i + 1], nGeneration)
        invariant forall i :: p <= i < data.Length ==> data[i] == was[i]
      {
        var p1, p2 := data[p], data[p + 1];
        var mask := WordOr(WordXor(p1, MinusBit(nGeneration % 2)), WordXor(p2, MinusBit(nGeneration / 2)));
        data[p] := WordAnd(p1, mask);
        data[p + 1] := WordAnd(p2, mask);
        p := p + 2;
      }
      forall q | Within(was, q) ensures Cell(data[..], q) == if Cell(was, q) == nGeneration then 0 else Cell(was, q) {
        WipeClears(was, data[..], q, nGeneration);
      }
    }

    /** Sets exactly the cells of the key to the current generation. */
    method Mark(key: Key)
      requires Sized()
      modifies data
      ensures MarkedWith(Fixed(), old(data[..]), data[..], nGeneration, key)
    {
      hide Place;
      ghost var was := data[..];
      for n := 0 to nHashFuncs
        invariant MarkedWith(Fixed().(nHashFuncs := n), was, data[..], nGeneration, key)
      {
        PlaceWithin(Fixed(), data[..], n, key);
        var p := Where(n, key);
        ghost var before := data[..];
        data[2 * p.slot] := SetBit(data[2 * p.slot], p.bit, nGeneration % 2);
        data[2 * p.slot + 1] := SetBit(data[2 * p.slot + 1], p.bit, nGeneration / 2);
        assert data[..] == WithCell(before, p, nGeneration);
        MarkedOneMore(Fixed(), was, before, data[..], nGeneration, key, n);
      }
      assert Fixed().(nHashFuncs := nHashFuncs) == Fixed();
    }

    method Insert(key: Key)
      requires Valid()
      modifies this`nEntriesThisGeneration, this`nGeneration, this`history, data
      ensures Valid() && history == old(history) + [key]
    {
      hide Place, RemembersAll, Remembers, OnlyNewer, WipedOf, Traced, MarkedWith;
      ghost var u, d, g, k := Fixed(), data[..], nGeneration, nEntriesThisGeneration;
      EpochNext(|history|, nEntriesPerGeneration, k);
      if nEntriesThisGeneration == nEntriesPerGeneration {
        nEntriesThisGeneration := 0;
        nGeneration := nGeneration + 1;
        if nGeneration == 4 { nGeneration := 1; }
        Wipe();
      }
      nEntriesThisGeneration := nEntriesThisGeneration + 1;
      ghost var a := data[..];
      Mark(key);
      MarkedIsNewer(u, a, data[..], nGeneration, key);
      MarkedIsRemembered(u, a, data[..], nGeneration, key);
      if k == nEntriesPerGeneration {
        InsertedAfterTurn(u, d, a, data[..], g, history, key);
        TracedAfterTurn(u, d, a, data[..], g, history, key);
      } else {
        InsertedWithin(u, a, data[..], g, history, key, k);
        TracedWithin(u, a, data[..], g, history, key, k);
      }
      history := history + [key];
    }

    /** Answers true if and only if each cell of the key was set by a key of the current generation or of the two before
        it, and so for every one of those keys. */
    method Contains(key: Key) returns (found: bool)
      requires Valid()
      ensures found <==> AllSet(key)
      ensures found <==> Covered(Fixed(), data.Length, history, key)
      ensures forall j :: 0 <= j < |history| && j + 2 * nEntriesPerGeneration + nEntriesThisGeneration >= |history| ==>
                history[j] == key ==> found
    {
      hide Place, RemembersAll, CountedIn, Traced, Covered;
      SetIffCovered(Fixed(), data[..], nGeneration, history, key);
      found := true;
      for n := 0 to nHashFuncs
        invariant found && forall m :: 0 <= m < n ==>
                    var p := Place(Fixed(), |data[..]|, m, key); Within(data[..], p) && Cell(data[..], p) > 0
      {
        PlaceWithin(Fixed(), data[..], n, key);
        assert Where(n, key) == Place(Fixed(), |data[..]|, n, key);
        var p := Where(n, key);
        if !WordOr(data[2 * p.slot], data[2 * p.slot + 1])[p.bit] {
          found := false;
          assert Cell(data[..], Place(Fixed(), |data[..]|, n, key)) == 0;
          assert !AllSet(key);
          break;
        }
      }
      if !found {
        forall j | 0 <= j < |history| && j + 2 * nEntriesPerGeneration + nEntriesThisGeneration >= |history|
          ensures history[j] != key
        {
          RecentIsYoung(|history|, nEntriesPerGeneration, nEntriesThisGeneration, j);
          RemembersOne(Fixed(), data[..], nGeneration, history, j);
        }
      }
    }
  }

  lemma RemembersOne(u: Setup, data: seq<Word>, g: nat, history: seq<Key>, j: nat)
    requires RemembersAll(u, data, g, history) && j < |history| && AgeOf(j, |history|, u.nPerGeneration) <= 2
    ensures Remembers(u, data, g, history[j], AgeOf(j, |history|, u.nPerGeneration))
  {}
}
