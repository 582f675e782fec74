/** List comprehensions over sequences: filtering and mapping, defined element by element from the end. */
module Seqs {

  /** `[x for x in xs if p(x)]`. */
  function Where<T>(xs: seq<T>, p: T -> bool): (ys: seq<T>)
    ensures |ys| <= |xs|
    ensures forall k :: 0 <= k < |ys| ==> p(ys[k])
  {
    if xs == [] then []
    else
      var init, x := xs[..|xs| - 1], xs[|xs| - 1];
      Where(init, p) + (if p(x) then [x] else [])
  }

  /** `[f(x) for x in xs]`. */
  function Map<T, U>(xs: seq<T>, f: T -> U): (ys: seq<U>)
    ensures |ys| == |xs|
  {
    if xs == [] then [] else Map(xs[..|xs| - 1], f) + [f(xs[|xs| - 1])]
  }

  /** Filtering distributes over concatenation, so it keeps the order of what it keeps. */
  lemma {:induction false} WhereAppend<T>(xs: seq<T>, ys: seq<T>, p: T -> bool)
    ensures Where(xs + ys, p) == Where(xs, p) + Where(ys, p)
    decreases |ys|
  {
    if ys == [] {
      assert xs + ys == xs;
    } else {
      var init, y := ys[..|ys| - 1], ys[|ys| - 1];
      assert (xs + ys)[..|xs + ys| - 1] == xs + init;
      WhereAppend(xs, init, p);
    }
  }

  /** An element is kept exactly when it is in the input and satisfies the condition. */
  lemma {:induction false} WhereMember<T>(xs: seq<T>, p: T -> bool, x: T)
    ensures x in Where(xs, p) <==> x in xs && p(x)
  {
    if xs != [] {
      var init := xs[..|xs| - 1];
      WhereMember(init, p, x);
      assert xs == init + [xs[|xs| - 1]];
    }
  }

  /** Keeping nothing gives the empty list. */
  lemma {:induction false} WhereNone<T>(xs: seq<T>, p: T -> bool)
    requires forall k :: 0 <= k < |xs| ==> !p(xs[k])
    ensures Where(xs, p) == []
  {
    if xs != [] {
      WhereNone(xs[..|xs| - 1], p);
    }
  }

  /** Keeping everything changes nothing. */
  lemma {:induction false} WhereAll<T>(xs: seq<T>, p: T -> bool)
    requires forall k :: 0 <= k < |xs| ==> p(xs[k])
    ensures Where(xs, p) == xs
  {
    if xs != [] {
      WhereAll(xs[..|xs| - 1], p);
    }
  }

  /** Mapping distributes over concatenation. */
  lemma {:induction false} MapAppend<T, U>(xs: seq<T>, ys: seq<T>, f: T -> U)
    ensures Map(xs + ys, f) == Map(xs, f) + Map(ys, f)
    decreases |ys|
  {
    if ys == [] {
      assert xs + ys == xs;
    } else {
      assert (xs + ys)[..|xs + ys| - 1] == xs + ys[..|ys| - 1];
      MapAppend(xs, ys[..|ys| - 1], f);
    }
  }

  /** The images of the elements are the elements of the image. */
  lemma MapMember<T, U>(xs: seq<T>, f: T -> U, u: U)
    ensures u in Map(xs, f) <==> exists k :: 0 <= k < |xs| && f(xs[k]) == u
  {
    forall k | 0 <= k < |xs|
      ensures Map(xs, f)[k] == f(xs[k])
    {
      MapAt(xs, f, k);
    }
  }

  /** The `k`-th output is `f` of the `k`-th input. */
  lemma {:induction false} MapAt<T, U>(xs: seq<T>, f: T -> U, k: nat)
    requires k < |xs|
    ensures Map(xs, f)[k] == f(xs[k])
  {
    if k < |xs| - 1 {
      MapAt(xs[..|xs| - 1], f, k);
    }
  }
}
