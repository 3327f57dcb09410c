/** Optional values: Python's `None`-or-value results. */
module Wrappers {

  datatype Option<+T> = None | Some(value: T) {

    /** The value, or `default` when absent (Python's `x if x else default`). */
    function GetOr(default: T): T
    {
      match this
      case Some(v) => v
      case None => default
    }
  }

  /** The present values of `xs`, in order (a filter-map's result). */
  function Somes<T>(xs: seq<Option<T>>): (r: seq<T>)
    ensures |r| <= |xs|
    ensures forall y :: y in r ==> Some(y) in xs
    ensures forall k :: 0 <= k < |xs| && xs[k].Some? ==> xs[k].value in r
  {
    if xs == [] then []
    else
      var rest := Somes(xs[1..]);
      assert forall k :: 1 <= k < |xs| ==> xs[k] == xs[1..][k - 1];
      if xs[0].Some? then [xs[0].value] + rest else rest
  }

  /** Filtering a concatenation filters each part: the present values keep their order. */
  lemma {:induction false} SomesAppend<T>(xs: seq<Option<T>>, ys: seq<Option<T>>)
    ensures Somes(xs + ys) == Somes(xs) + Somes(ys)
    decreases |xs|
  {
    if xs != [] {
      var zs := xs + ys;
      assert zs[0] == xs[0];
      assert zs[1..] == xs[1..] + ys;
      SomesAppend(xs[1..], ys);
      var head: seq<T> := if xs[0].Some? then [xs[0].value] else [];
      assert Somes(zs) == head + Somes(zs[1..]);
      assert Somes(xs) == head + Somes(xs[1..]);
      assert head + (Somes(xs[1..]) + Somes(ys)) == (head + Somes(xs[1..])) + Somes(ys);
    } else {
      assert xs + ys == ys;
    }
  }

  /** A filter-map yields nothing exactly when every entry is absent. */
  lemma {:induction false} SomesEmpty<T>(xs: seq<Option<T>>)
    ensures Somes(xs) == [] <==> forall k :: 0 <= k < |xs| ==> xs[k].None?
  {
    if xs != [] {
      SomesEmpty(xs[1..]);
      if xs[0].None? {
        forall k | 1 <= k < |xs| ensures xs[k] == xs[1..][k - 1] {}
      }
    }
  }

  /** Python's `[y for x in xs if (y := f(x)) is not None]`. */
  function MapSomes<T, U>(xs: seq<T>, f: T -> Option<U>): (r: seq<U>)
    ensures |r| <= |xs|
    ensures forall y :: y in r ==> exists k :: 0 <= k < |xs| && f(xs[k]) == Some(y)
    ensures forall k :: 0 <= k < |xs| && f(xs[k]).Some? ==> f(xs[k]).value in r
  {
    var ys := seq(|xs|, k requires 0 <= k < |xs| => f(xs[k]));
    var r := Somes(ys);
    assert forall y :: y in r ==> Some(y) in ys;
    assert forall k :: 0 <= k < |xs| ==> ys[k] == f(xs[k]);
    r
  }

  /**
   * Appending an element appends its image, if any: the results come out
   * in the order of the elements they were made from.
   */
  lemma MapSomesSnoc<T, U>(xs: seq<T>, x: T, f: T -> Option<U>)
    ensures MapSomes(xs + [x], f) == MapSomes(xs, f) + (if f(x).Some? then [f(x).value] else [])
  {
    var ys := seq(|xs|, k requires 0 <= k < |xs| => f(xs[k]));
    var zs := seq(|xs + [x]|, k requires 0 <= k < |xs + [x]| => f((xs + [x])[k]));
    assert zs == ys + [f(x)];
    SomesAppend(ys, [f(x)]);
    assert [f(x)][1..] == [];
  }

  /** A filter-map yields nothing exactly when `f` maps every element to `None`. */
  lemma MapSomesEmpty<T, U>(xs: seq<T>, f: T -> Option<U>)
    ensures MapSomes(xs, f) == [] <==> forall x :: x in xs ==> f(x).None?
  {
    var ys := seq(|xs|, k requires 0 <= k < |xs| => f(xs[k]));
    SomesEmpty(ys);
    if forall x :: x in xs ==> f(x).None? {
      forall k | 0 <= k < |xs| ensures ys[k].None? {
        assert xs[k] in xs;
      }
    } else {
      var x :| x in xs && f(x).Some?;
      var k :| 0 <= k < |xs| && xs[k] == x;
      assert ys[k].Some?;
    }
  }
}
