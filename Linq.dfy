/**
 * The LINQ operators the read-side pages use: `Where` and the stable
 * `OrderBy`/`ThenBy` family.  An ordering is given by a comparison
 * `before(a, b)`: `a` goes strictly before `b`.
 */
module Linq {

  /** `Where`: the elements satisfying `p`, in their original order. */
  function Where<T>(xs: seq<T>, p: T -> bool): (r: seq<T>)
    ensures multiset(r) <= multiset(xs)
    ensures forall i :: 0 <= i < |r| ==> p(r[i])
    ensures forall i :: 0 <= i < |xs| && p(xs[i]) ==> xs[i] in r
  {
    if xs == [] then []
    else
      var head, tail := xs[0], xs[1..];
      var rest := Where(tail, p);
      assert xs == [head] + tail;
      assert forall i :: 1 <= i < |xs| ==> xs[i] == tail[i - 1];
      if p(head) then
        assert multiset([head] + rest) == multiset{head} + multiset(rest);
        [head] + rest
      else
        rest
  }

  /**
   * `Where` keeps the order of its input: filtering a concatenation is
   * concatenating the filtered parts, so every match stays where it was
   * relative to the others, duplicates included.
   */
  lemma {:induction false} WhereAppend<T>(xs: seq<T>, ys: seq<T>, p: T -> bool)
    ensures Where(xs + ys, p) == Where(xs, p) + Where(ys, p)
  {
    if xs != [] {
      assert (xs + ys)[1..] == xs[1..] + ys;
      WhereAppend(xs[1..], ys, p);
    } else {
      assert xs + ys == ys;
    }
  }

  /**
   * The orders LINQ accepts: never both ways round, and "not before" is
   * transitive, so elements that neither precede each other form classes.
   */
  ghost predicate StrictWeakOrder<T(!new)>(before: (T, T) -> bool) {
    && (forall a, b :: before(a, b) ==> !before(b, a))
    && (forall a, b, c :: !before(a, b) && !before(b, c) ==> !before(a, c))
  }

  /** Neither goes before the other: a tie under `before`. */
  predicate Tied<T>(a: T, b: T, before: (T, T) -> bool) {
    !before(a, b) && !before(b, a)
  }

  /** No element goes strictly before an earlier one. */
  ghost predicate Sorted<T>(xs: seq<T>, before: (T, T) -> bool) {
    forall i, j :: 0 <= i < j < |xs| ==> !before(xs[j], xs[i])
  }

  /** `x` put after the leading elements that go strictly before it. */
  function Insert<T>(x: T, ys: seq<T>, before: (T, T) -> bool): (r: seq<T>)
    ensures multiset(r) == multiset(ys) + multiset{x}
    ensures |r| == |ys| + 1
  {
    if ys == [] then [x]
    else if before(ys[0], x) then
      assert ys == [ys[0]] + ys[1..];
      [ys[0]] + Insert(x, ys[1..], before)
    else [x] + ys
  }

  /** `OrderBy`: a stable insertion sort. */
  function Sort<T>(xs: seq<T>, before: (T, T) -> bool): (r: seq<T>)
    ensures multiset(r) == multiset(xs)
    ensures |r| == |xs|
  {
    if xs == [] then []
    else
      assert xs == [xs[0]] + xs[1..];
      Insert(xs[0], Sort(xs[1..], before), before)
  }

  lemma {:induction false} InsertSorted<T(!new)>(x: T, ys: seq<T>, before: (T, T) -> bool)
    requires StrictWeakOrder(before)
    requires Sorted(ys, before)
    ensures Sorted(Insert(x, ys, before), before)
  {
    if ys != [] && before(ys[0], x) {
      var tail := ys[1..];
      InsertSorted(x, tail, before);
      var r := Insert(x, tail, before);
      forall j | 0 <= j < |r| ensures !before(r[j], ys[0]) {
        assert r[j] in multiset(tail) + multiset{x};
        if r[j] != x {
          assert r[j] in tail;
          var t :| 0 <= t < |tail| && tail[t] == r[j];
          assert ys[t + 1] == r[j];
        }
      }
    } else if ys != [] {
      forall j | 0 <= j < |ys| ensures !before(ys[j], x) {
        if j > 0 {
          assert !before(ys[j], ys[0]);
        }
      }
    }
  }

  /** The result of `Sort` is sorted. */
  lemma {:induction false} SortSorted<T(!new)>(xs: seq<T>, before: (T, T) -> bool)
    requires StrictWeakOrder(before)
    ensures Sorted(Sort(xs, before), before)
  {
    if xs != [] {
      SortSorted(xs[1..], before);
      InsertSorted(xs[0], Sort(xs[1..], before), before);
    }
  }

  /**
   * `Where` then `OrderBy`: a sorted sub-multiset of `xs` holding exactly
   * the elements that satisfy `p`.
   */
  lemma OrderedWhere<T(!new)>(xs: seq<T>, p: T -> bool, before: (T, T) -> bool)
    requires StrictWeakOrder(before)
    ensures var r := Sort(Where(xs, p), before);
      && multiset(r) <= multiset(xs)
      && (forall x :: x in r <==> x in xs && p(x))
      && Sorted(r, before)
  {
    var w := Where(xs, p);
    var r := Sort(w, before);
    SortSorted(w, before);
    forall x ensures x in r <==> x in xs && p(x) {
      assert x in r <==> x in multiset(w);
      if x in w {
        var i :| 0 <= i < |w| && w[i] == x;
        assert x in multiset(xs);
      }
    }
  }

  /** The elements of `xs` tied with `k`, in their order in `xs`. */
  function Ties<T>(xs: seq<T>, k: T, before: (T, T) -> bool): seq<T> {
    if xs == [] then []
    else if Tied(xs[0], k, before) then [xs[0]] + Ties(xs[1..], k, before)
    else Ties(xs[1..], k, before)
  }

  lemma {:induction false} InsertTies<T(!new)>(x: T, ys: seq<T>, k: T, before: (T, T) -> bool)
    requires StrictWeakOrder(before)
    ensures Ties(Insert(x, ys, before), k, before)
         == (if Tied(x, k, before) then [x] else []) + Ties(ys, k, before)
  {
    if ys != [] && before(ys[0], x) {
      InsertTies(x, ys[1..], k, before);
      var r := Insert(x, ys, before);
      assert r[1..] == Insert(x, ys[1..], before);
      if Tied(x, k, before) {
        assert !Tied(ys[0], k, before);
      }
    } else if ys != [] {
      assert Insert(x, ys, before)[1..] == ys;
    }
  }

  /** `Sort` is stable: elements tied under the order keep their input order. */
  lemma {:induction false} SortStable<T(!new)>(xs: seq<T>, k: T, before: (T, T) -> bool)
    requires StrictWeakOrder(before)
    ensures Ties(Sort(xs, before), k, before) == Ties(xs, k, before)
  {
    if xs != [] {
      SortStable(xs[1..], k, before);
      InsertTies(xs[0], Sort(xs[1..], before), k, before);
    }
  }

  /**
   * Taking the ties of `k` commutes with `Where`: the tied elements of a
   * filtered sequence are the filtered tied elements of the original, in
   * the original's order.
   */
  lemma {:induction false} WhereTies<T>(xs: seq<T>, p: T -> bool, k: T, before: (T, T) -> bool)
    ensures Ties(Where(xs, p), k, before) == Where(Ties(xs, k, before), p)
  {
    if xs != [] {
      WhereTies(xs[1..], p, k, before);
      var rest := Where(xs[1..], p);
      if p(xs[0]) {
        assert Where(xs, p) == [xs[0]] + rest;
        assert ([xs[0]] + rest)[1..] == rest;
        if Tied(xs[0], k, before) {
          var tl := Ties(xs[1..], k, before);
          assert Ties(xs, k, before) == [xs[0]] + tl;
          assert ([xs[0]] + tl)[1..] == tl;
        }
      } else if Tied(xs[0], k, before) {
        var tl := Ties(xs[1..], k, before);
        assert Ties(xs, k, before) == [xs[0]] + tl;
        assert ([xs[0]] + tl)[1..] == tl;
      }
    }
  }
}
