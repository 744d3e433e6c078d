/** Walking a finite set of integers upwards, as the iterators of an ordered set or map do. */
module Order {

  lemma HasMember(xs: set<int>)
    requires xs != {}
    ensures exists x :: x in xs
  {
    if forall x :: x !in xs { assert false; }
  }

  lemma {:induction false} HasLeast(xs: set<int>)
    requires xs != {}
    ensures exists m :: m in xs && forall x :: x in xs ==> m <= x
  {
    HasMember(xs);
    var x :| x in xs;
    if xs != {x} {
      var rest := xs - {x};
      HasLeast(rest);
      var m :| m in rest && forall y :: y in rest ==> m <= y;
      var l := if x < m then x else m;
      assert l in xs;
      forall y | y in xs ensures l <= y {
        if y != x { assert y in rest; }
      }
    }
  }

  ghost function Least(xs: set<int>): (m: int)
    requires xs != {}
    ensures m in xs && forall x :: x in xs ==> m <= x
  {
    HasLeast(xs);
    var m :| m in xs && forall x :: x in xs ==> m <= x;
    m
  }

  lemma SameSizeSubset(a: set<int>, b: set<int>)
    requires a <= b && |a| == |b|
    ensures a == b
  {
    assert b == a + (b - a);
    if b - a != {} { HasMember(b - a); }
  }

  ghost predicate Increasing(v: seq<int>) {
    forall i, j :: 0 <= i < j < |v| ==> v[i] < v[j]
  }

  /** The members of xs in increasing order. */
  ghost function Ascending(xs: set<int>): (v: seq<int>)
    ensures |v| == |xs| && Increasing(v)
    ensures forall x :: x in v <==> x in xs
    decreases |xs|
  {
    if xs == {} then []
    else
      var m := Least(xs);
      var rest := Ascending(xs - {m});
      assert forall i :: 0 <= i < |rest| ==> rest[i] in xs - {m};
      [m] + rest
  }

  /** Iterating over an ordered set from begin() to end(). */
  method InOrder(xs: set<int>) returns (v: seq<int>)
    ensures v == Ascending(xs)
  {
    hide Ascending;
    v := [];
    var todo := xs;
    while todo != {}
      invariant v + Ascending(todo) == Ascending(xs)
      decreases |todo|
    {
      HasLeast(todo);
      var m :| m in todo && forall x :: x in todo ==> m <= x;
      AscendingFrom(todo, m);
      assert v + ([m] + Ascending(todo - {m})) == (v + [m]) + Ascending(todo - {m});
      v := v + [m];
      todo := todo - {m};
    }
    assert |Ascending(todo)| == 0;
  }

  lemma AscendingFrom(xs: set<int>, m: int)
    requires m in xs && forall x :: x in xs ==> m <= x
    ensures Ascending(xs) == [m] + Ascending(xs - {m})
  {
    assert m == Least(xs);
  }

  /** A last element above all the others. */
  lemma IncreasingAppended(v: seq<int>, w: seq<int>)
    requires v != [] && Increasing(v) && Increasing(w) && forall x :: x in w ==> x in v[..|v| - 1]
    ensures Increasing(w + [v[|v| - 1]])
  {
    var n := |v| - 1;
    forall i | 0 <= i < |w| ensures w[i] < v[n] {
      assert w[i] in w;
      var k :| 0 <= k < n && v[..n][k] == w[i];
    }
  }

  /** The elements of v that are in xs, in the order of v. */
  ghost function Select(v: seq<int>, xs: set<int>): (w: seq<int>)
    ensures forall x :: x in w <==> x in v && x in xs
  {
    if v == [] then []
    else
      var w := Select(v[..|v| - 1], xs);
      var x := v[|v| - 1];
      assert v == v[..|v| - 1] + [x];
      if x in xs then w + [x] else w
  }

  lemma {:induction false} SelectIncreases(v: seq<int>, xs: set<int>)
    requires Increasing(v)
    ensures Increasing(Select(v, xs))
  {
    if v != [] {
      SelectIncreases(v[..|v| - 1], xs);
      IncreasingAppended(v, Select(v[..|v| - 1], xs));
    }
  }

  ghost function IndexOf(v: seq<int>, x: int): (k: nat)
    requires x in v
    ensures k < |v| && v[k] == x
  {
    var k :| 0 <= k < |v| && v[k] == x;
    k
  }

  lemma IndexIs(v: seq<int>, k: nat)
    requires Distinct(v) && k < |v|
    ensures v[k] in v && IndexOf(v, v[k]) == k
  {}

  ghost predicate Distinct(v: seq<int>) {
    forall i, j :: 0 <= i < j < |v| ==> v[i] != v[j]
  }

  lemma IncreasingDistinct(v: seq<int>)
    requires Increasing(v)
    ensures Distinct(v)
  {}

  lemma {:induction false} DistinctCounts(v: seq<int>, xs: set<int>)
    requires Distinct(v) && forall x :: x in v <==> x in xs
    ensures |v| == |xs|
  {
    if v == [] {
      if xs != {} { HasMember(xs); assert false; }
    } else {
      var x := v[|v| - 1];
      var w := v[..|v| - 1];
      assert v == w + [x];
      forall y ensures y in w <==> y in xs - {x} {
        if y in w { var i :| 0 <= i < |w| && w[i] == y; }
      }
      DistinctCounts(w, xs - {x});
      assert x in xs;
    }
  }

  lemma {:induction false} SelectPrefix(v: seq<int>, xs: set<int>, i: nat)
    requires i <= |v|
    ensures |Select(v[..i], xs)| <= |Select(v, xs)|
  {
    if i == |v| {
      assert v[..i] == v;
    } else {
      var w := v[..|v| - 1];
      SelectPrefix(w, xs, i);
      assert w[..i] == v[..i];
    }
  }
}
