/**
 * Python's `<` on `str` (code point by code point, a proper prefix first) and
 * `sorted(set(...))`: the strictly increasing list of distinct strings.
 */
module Ordering {

  predicate Less(a: string, b: string)
    decreases |a|
  {
    if a == [] then b != []
    else if b == [] then false
    else if a[0] != b[0] then a[0] < b[0]
    else Less(a[1..], b[1..])
  }

  lemma {:induction false} LessIrreflexive(a: string)
    ensures !Less(a, a)
    decreases |a|
  {
    if a != [] {
      LessIrreflexive(a[1..]);
    }
  }

  lemma {:induction false} LessTransitive(a: string, b: string, c: string)
    requires Less(a, b) && Less(b, c)
    ensures Less(a, c)
    decreases |a|
  {
    if a != [] && a[0] == b[0] && b[0] == c[0] {
      LessTransitive(a[1..], b[1..], c[1..]);
    }
  }

  /** Any two different strings are ordered one way or the other. */
  lemma {:induction false} LessTotal(a: string, b: string)
    ensures a == b || Less(a, b) || Less(b, a)
    decreases |a|
  {
    if a != [] && b != [] && a[0] == b[0] {
      LessTotal(a[1..], b[1..]);
      if a[1..] == b[1..] {
        assert a == [a[0]] + a[1..] && b == [b[0]] + b[1..];
      }
    }
  }

  lemma LessAsymmetric(a: string, b: string)
    requires Less(a, b)
    ensures !Less(b, a)
  {
    if Less(b, a) {
      LessTransitive(a, b, a);
      LessIrreflexive(a);
    }
  }

  predicate StrictlySorted(xs: seq<string>) {
    forall i, j :: 0 <= i < j < |xs| ==> Less(xs[i], xs[j])
  }

  /** Adds `x` to a strictly sorted list, in its place, unless it is already there. */
  function Insert(x: string, xs: seq<string>): (r: seq<string>)
    requires StrictlySorted(xs)
    ensures StrictlySorted(r)
    ensures forall y :: y in r <==> y == x || y in xs
  {
    if xs == [] then [x]
    else if x == xs[0] then xs
    else if Less(x, xs[0]) then
      InsertFront(x, xs); [x] + xs
    else
      var tail := Insert(x, xs[1..]);
      InsertBehind(x, xs, tail); [xs[0]] + tail
  }

  lemma InsertFront(x: string, xs: seq<string>)
    requires StrictlySorted(xs) && xs != [] && Less(x, xs[0])
    ensures StrictlySorted([x] + xs)
  {
    forall j | 1 <= j < |xs| + 1
      ensures Less(x, ([x] + xs)[j])
    {
      if j > 1 {
        LessTransitive(x, xs[0], xs[j - 1]);
      }
    }
  }

  lemma InsertBehind(x: string, xs: seq<string>, tail: seq<string>)
    requires StrictlySorted(xs) && xs != [] && x != xs[0] && !Less(x, xs[0])
    requires StrictlySorted(tail) && forall y :: y in tail <==> y == x || y in xs[1..]
    ensures StrictlySorted([xs[0]] + tail)
  {
    LessTotal(x, xs[0]);
    forall j | 0 <= j < |tail|
      ensures Less(xs[0], tail[j])
    {
      assert tail[j] in tail;
    }
  }

  /** `sorted(set(xs))`: each distinct string once, in increasing order. */
  function SortedUnique(xs: seq<string>): (r: seq<string>)
    ensures StrictlySorted(r)
    ensures forall y :: y in r <==> y in xs
  {
    if xs == [] then [] else Insert(xs[|xs| - 1], SortedUnique(xs[..|xs| - 1]))
  }

  /** A strictly sorted list is fixed by its elements: sorting leaves no choice. */
  lemma {:induction false} SortedDetermined(a: seq<string>, b: seq<string>)
    requires StrictlySorted(a) && StrictlySorted(b)
    requires forall y :: y in a <==> y in b
    ensures a == b
    decreases |a|
  {
    assert a != [] ==> a[0] in b;
    assert b != [] ==> b[0] in a;
    if a != [] {
      assert a[0] == b[0] by {
        assert a[0] in b && b[0] in a;
        if a[0] != b[0] {
          var i :| 0 <= i < |b| && b[i] == a[0];
          var j :| 0 <= j < |a| && a[j] == b[0];
          assert i > 0 && j > 0;
          LessAsymmetric(b[0], a[0]);
        }
      }
      forall y
        ensures y in a[1..] <==> y in b[1..]
      {
        if y in a[1..] {
          FirstIsLeast(a, y);
          FirstIsLeast(b, y);
        }
        if y in b[1..] {
          FirstIsLeast(b, y);
          FirstIsLeast(a, y);
        }
      }
      SortedDetermined(a[1..], b[1..]);
    }
  }

  /** In a strictly sorted list the first element is the only one not above it. */
  lemma FirstIsLeast(a: seq<string>, y: string)
    requires StrictlySorted(a) && a != [] && y in a
    ensures y in a[1..] <==> y != a[0]
  {
    forall k | 1 <= k < |a|
      ensures a[k] != a[0]
    {
      LessIrreflexive(a[0]);
    }
    var i :| 0 <= i < |a| && a[i] == y;
    if i > 0 {
      assert a[1..][i - 1] == y;
    }
  }

  /** Removing duplicates and sorting does not depend on the order or repetition of the input. */
  lemma SortedUniqueSameElements(xs: seq<string>, ys: seq<string>)
    requires forall y :: y in xs <==> y in ys
    ensures SortedUnique(xs) == SortedUnique(ys)
  {
    SortedDetermined(SortedUnique(xs), SortedUnique(ys));
  }
}
