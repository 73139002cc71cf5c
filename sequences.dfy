/** Searches and extrema over sequences, as the core uses Python's
    `next(...)`, early-returning `for` loops, `max` and `min`. */
module Sequences {
  import opened Wrappers

  /** The position of the first element satisfying `p`, or None when no
      element does: `next((i for i, x in enumerate(xs) if p(x)), None)`. */
  function FirstIndex<T>(xs: seq<T>, p: T -> bool): (r: Option<nat>)
    ensures r.Some? ==> r.value < |xs| && p(xs[r.value])
    ensures r.Some? ==> forall j :: 0 <= j < r.value ==> !p(xs[j])
    ensures r.None? <==> forall j :: 0 <= j < |xs| ==> !p(xs[j])
    decreases |xs|
  {
    if xs == [] then None
    else if p(xs[0]) then Some(0)
    else match FirstIndex(xs[1..], p)
      case None => None
      case Some(i) => Some(i + 1)
  }

  /** Python's `max` of a non-empty list of integers. */
  function MaxOf(xs: seq<int>): (m: int)
    requires |xs| > 0
    ensures m in xs
    ensures forall x :: x in xs ==> x <= m
    decreases |xs|
  {
    if |xs| == 1 then xs[0]
    else
      var rest := MaxOf(xs[1..]);
      assert xs == [xs[0]] + xs[1..];
      if xs[0] >= rest then xs[0] else rest
  }

  /** Python's `min` of a non-empty list of integers. */
  function MinOf(xs: seq<int>): (m: int)
    requires |xs| > 0
    ensures m in xs
    ensures forall x :: x in xs ==> m <= x
    decreases |xs|
  {
    if |xs| == 1 then xs[0]
    else
      var rest := MinOf(xs[1..]);
      assert xs == [xs[0]] + xs[1..];
      if xs[0] <= rest then xs[0] else rest
  }

  /** Python's `sum(1 for x in xs if f(x))`. */
  function CountWhere<T>(xs: seq<T>, f: T -> bool): (c: nat)
    ensures c <= |xs|
    decreases |xs|
  {
    if xs == [] then 0 else (if f(xs[0]) then 1 else 0) + CountWhere(xs[1..], f)
  }

  predicate OneWhere<T>(xs: seq<T>, f: T -> bool)
  {
    exists i :: 0 <= i < |xs| && f(xs[i])
  }

  predicate TwoWhere<T>(xs: seq<T>, f: T -> bool)
  {
    exists i, j :: 0 <= i < j < |xs| && f(xs[i]) && f(xs[j])
  }

  predicate ThreeWhere<T>(xs: seq<T>, f: T -> bool)
  {
    exists i, j, k :: 0 <= i < j < k < |xs| && f(xs[i]) && f(xs[j]) && f(xs[k])
  }

  /** The count is positive exactly when some element satisfies `f`. */
  lemma {:induction false} CountAtLeastOne<T>(xs: seq<T>, f: T -> bool)
    ensures CountWhere(xs, f) >= 1 <==> OneWhere(xs, f)
    decreases |xs|
  {
    if xs != [] {
      var tail := xs[1..];
      CountAtLeastOne(tail, f);
      if OneWhere(tail, f) {
        var i :| 0 <= i < |tail| && f(tail[i]);
        assert xs[i + 1] == tail[i];
      }
      if OneWhere(xs, f) && !f(xs[0]) {
        var i :| 0 <= i < |xs| && f(xs[i]);
        assert tail[i - 1] == xs[i];
      }
    }
  }

  /** The count reaches two exactly when two positions satisfy `f`. */
  lemma {:induction false} CountAtLeastTwo<T>(xs: seq<T>, f: T -> bool)
    ensures CountWhere(xs, f) >= 2 <==> TwoWhere(xs, f)
    decreases |xs|
  {
    if xs != [] {
      var tail := xs[1..];
      CountAtLeastTwo(tail, f);
      CountAtLeastOne(tail, f);
      if f(xs[0]) {
        if OneWhere(tail, f) {
          var j :| 0 <= j < |tail| && f(tail[j]);
          assert xs[j + 1] == tail[j];
          assert TwoWhere(xs, f);
        }
        if TwoWhere(xs, f) {
          var i, j :| 0 <= i < j < |xs| && f(xs[i]) && f(xs[j]);
          assert tail[j - 1] == xs[j];
        }
      } else {
        if TwoWhere(tail, f) {
          var i, j :| 0 <= i < j < |tail| && f(tail[i]) && f(tail[j]);
          assert xs[i + 1] == tail[i] && xs[j + 1] == tail[j];
        }
        if TwoWhere(xs, f) {
          var i, j :| 0 <= i < j < |xs| && f(xs[i]) && f(xs[j]);
          assert tail[i - 1] == xs[i] && tail[j - 1] == xs[j];
        }
      }
    }
  }

  lemma ThreeFromTail<T>(xs: seq<T>, f: T -> bool)
    requires xs != [] && ThreeWhere(xs[1..], f)
    ensures ThreeWhere(xs, f)
  {
    var tail := xs[1..];
    var i, j, k :| 0 <= i < j < k < |tail| && f(tail[i]) && f(tail[j]) && f(tail[k]);
    assert xs[i + 1] == tail[i] && xs[j + 1] == tail[j] && xs[k + 1] == tail[k];
  }

  lemma ThreeToTail<T>(xs: seq<T>, f: T -> bool)
    requires xs != [] && !f(xs[0]) && ThreeWhere(xs, f)
    ensures ThreeWhere(xs[1..], f)
  {
    var tail := xs[1..];
    var i, j, k :| 0 <= i < j < k < |xs| && f(xs[i]) && f(xs[j]) && f(xs[k]);
    assert tail[i - 1] == xs[i] && tail[j - 1] == xs[j] && tail[k - 1] == xs[k];
  }

  lemma ThreeFromHead<T>(xs: seq<T>, f: T -> bool)
    requires xs != [] && f(xs[0]) && TwoWhere(xs[1..], f)
    ensures ThreeWhere(xs, f)
  {
    var tail := xs[1..];
    var j, k :| 0 <= j < k < |tail| && f(tail[j]) && f(tail[k]);
    assert xs[j + 1] == tail[j] && xs[k + 1] == tail[k];
    assert f(xs[0]) && f(xs[j + 1]) && f(xs[k + 1]);
  }

  lemma ThreeLeavesTwo<T>(xs: seq<T>, f: T -> bool)
    requires xs != [] && ThreeWhere(xs, f)
    ensures TwoWhere(xs[1..], f)
  {
    var tail := xs[1..];
    var i, j, k :| 0 <= i < j < k < |xs| && f(xs[i]) && f(xs[j]) && f(xs[k]);
    assert tail[j - 1] == xs[j] && tail[k - 1] == xs[k];
  }

  /** The count reaches three exactly when three positions satisfy `f`. */
  lemma {:induction false} CountAtLeastThree<T>(xs: seq<T>, f: T -> bool)
    ensures CountWhere(xs, f) >= 3 <==> ThreeWhere(xs, f)
    decreases |xs|
  {
    if xs != [] {
      var tail := xs[1..];
      CountAtLeastThree(tail, f);
      CountAtLeastTwo(tail, f);
      if ThreeWhere(tail, f) {
        ThreeFromTail(xs, f);
      }
      if f(xs[0]) {
        if TwoWhere(tail, f) {
          ThreeFromHead(xs, f);
        }
        if ThreeWhere(xs, f) {
          ThreeLeavesTwo(xs, f);
        }
      } else if ThreeWhere(xs, f) {
        ThreeToTail(xs, f);
      }
    }
  }
}
