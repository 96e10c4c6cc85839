/**
  Python's string order and `sorted(set(xs))`.

  Strings compare code point by code point, and a proper prefix is smaller.
  `SortedSet` is the deduplicated ascending sequence of the elements of
  `xs`; `SortedSetCanonical` shows it is determined by that set alone.
*/
module Order {

  /** `a < b` on Python strings. */
  predicate Less(a: string, b: string)
    decreases |a|
  {
    if a == [] then b != []
    else if b == [] then false
    else if a[0] == b[0] then Less(a[1..], b[1..])
    else a[0] < b[0]
  }

  lemma {:induction false} LessIrreflexive(a: string)
    ensures !Less(a, a)
    decreases |a|
  {
    if a != [] {
      LessIrreflexive(a[1..]);
    }
  }

  lemma {:induction false} LessTransitive(a: string, b: string, c: string)
    requires Less(a, b) && Less(b, c)
    ensures Less(a, c)
    decreases |a|
  {
    if a != [] && b != [] && c != [] && a[0] == b[0] == c[0] {
      LessTransitive(a[1..], b[1..], c[1..]);
    }
  }

  /** Any two different strings are ordered one way. */
  lemma {:induction false} LessTotal(a: string, b: string)
    requires a != b
    ensures Less(a, b) || Less(b, a)
    decreases |a|
  {
    if a != [] && b != [] && a[0] == b[0] {
      assert a == [a[0]] + a[1..] && b == [b[0]] + b[1..];
      LessTotal(a[1..], b[1..]);
    }
  }

  lemma {:induction false} LessAsymmetric(a: string, b: string)
    requires Less(a, b)
    ensures !Less(b, a)
  {
    if Less(b, a) {
      LessTransitive(a, b, a);
      LessIrreflexive(a);
    }
  }

  /** Each element is smaller than every later one; so no element repeats. */
  predicate StrictlyIncreasing(xs: seq<string>) {
    forall i, j :: 0 <= i < j < |xs| ==> Less(xs[i], xs[j])
  }

  lemma NoDuplicates(xs: seq<string>)
    requires StrictlyIncreasing(xs)
    ensures forall i, j :: 0 <= i < j < |xs| ==> xs[i] != xs[j]
  {
    forall i, j | 0 <= i < j < |xs| ensures xs[i] != xs[j] {
      LessIrreflexive(xs[i]);
    }
  }

  /** Adds `x` to a strictly increasing sequence unless it is already there. */
  function Insert(x: string, xs: seq<string>): (r: seq<string>)
    requires StrictlyIncreasing(xs)
    ensures StrictlyIncreasing(r)
    ensures forall y :: y in r <==> y in xs || y == x
    ensures |r| <= |xs| + 1
  {
    if xs == [] then [x]
    else if x == xs[0] then xs
    else if Less(x, xs[0]) then
      assert forall j :: 0 < j < |xs| ==> Less(x, xs[j]) by {
        forall j | 0 < j < |xs| ensures Less(x, xs[j]) {
          LessTransitive(x, xs[0], xs[j]);
        }
      }
      [x] + xs
    else
      LessTotal(x, xs[0]);
      var rest := Insert(x, xs[1..]);
      assert forall y :: y in rest ==> Less(xs[0], y);
      [xs[0]] + rest
  }

  /** `sorted(set(xs))` */
  function SortedSet(xs: seq<string>): (r: seq<string>)
    ensures StrictlyIncreasing(r)
    ensures forall y :: y in r <==> y in xs
    ensures |r| <= |xs|
  {
    if xs == [] then []
    else
      var init := xs[..|xs| - 1];
      assert xs == init + [xs[|xs| - 1]];
      Insert(xs[|xs| - 1], SortedSet(init))
  }

  /**
    A strictly increasing sequence is determined by its elements: two with
    the same elements are equal.
  */
  lemma {:induction false} SortedSetCanonical(a: seq<string>, b: seq<string>)
    requires StrictlyIncreasing(a) && StrictlyIncreasing(b)
    requires forall y :: y in a <==> y in b
    ensures a == b
    decreases |a|
  {
    SameElementsBothEmpty(a, b);
    if a != [] {
      assert a[0] == b[0] by {
        if a[0] != b[0] {
          assert a[0] in b;
          assert b[0] in a;
          var i :| 0 <= i < |a| && a[i] == b[0];
          var j :| 0 <= j < |b| && b[j] == a[0];
          LessAsymmetric(a[0], b[0]);
        }
      }
      forall y ensures y in a[1..] <==> y in b[1..] {
        if y in a[1..] {
          var i :| 0 <= i < |a[1..]| && a[1..][i] == y;
          assert Less(a[0], a[i + 1]);
          LessIrreflexive(y);
          assert y in b;
        }
        if y in b[1..] {
          var j :| 0 <= j < |b[1..]| && b[1..][j] == y;
          assert Less(b[0], b[j + 1]);
          LessIrreflexive(y);
          assert y in a;
        }
      }
      SortedSetCanonical(a[1..], b[1..]);
    }
  }

  lemma SameElementsBothEmpty(a: seq<string>, b: seq<string>)
    requires forall y :: y in a <==> y in b
    ensures a == [] <==> b == []
  {
    if a != [] {
      assert a[0] in b;
    }
    if b != [] {
      assert b[0] in a;
    }
  }

  /** The result depends on the set of elements only, not on order or repetition. */
  lemma SortedSetOfSameElements(xs: seq<string>, ys: seq<string>)
    requires forall y :: y in xs <==> y in ys
    ensures SortedSet(xs) == SortedSet(ys)
  {
    SortedSetCanonical(SortedSet(xs), SortedSet(ys));
  }

  /** A sequence that is already strictly increasing is its own `sorted(set(...))`. */
  lemma SortedSetOfSorted(xs: seq<string>)
    requires StrictlyIncreasing(xs)
    ensures SortedSet(xs) == xs
  {
    SortedSetCanonical(SortedSet(xs), xs);
  }

  /** The length of the result is the number of distinct elements. */
  lemma SortedSetLength(xs: seq<string>)
    ensures |SortedSet(xs)| == |set y | y in xs|
  {
    var r := SortedSet(xs);
    NoDuplicates(r);
    DistinctCardinality(r);
    assert (set y | y in r) == (set y | y in xs);
  }

  lemma {:induction false} DistinctCardinality(xs: seq<string>)
    requires forall i, j :: 0 <= i < j < |xs| ==> xs[i] != xs[j]
    ensures |set y | y in xs| == |xs|
    decreases |xs|
  {
    if xs != [] {
      var tail := xs[1..];
      DistinctCardinality(tail);
      assert (set y | y in xs) == {xs[0]} + (set y | y in tail);
      assert xs[0] !in tail;
    }
  }
}
