/**
 * Optional values, standing for Python's `None` and for results that may be missing, and
 * the two list traversals built on them and on predicates.
 */
module Wrappers {

  datatype Option<+T> = None | Some(value: T) {

    /** The value, or `default` when there is none. */
    function GetOr(default: T): T {
      match this
      case Some(v) => v
      case None => default
    }
  }

  /** `f` applied to every element in order, or `None` as soon as one application gives `None`. */
  function MapAll<A, B>(xs: seq<A>, f: A -> Option<B>): Option<seq<B>> {
    if xs == [] then Some([])
    else
      match MapAll(xs[..|xs| - 1], f)
      case None => None
      case Some(ys) =>
        match f(xs[|xs| - 1])
        case None => None
        case Some(y) => Some(ys + [y])
  }

  /** The whole fails exactly when one element fails. */
  lemma {:induction false} MapAllSome<A, B>(xs: seq<A>, f: A -> Option<B>)
    ensures MapAll(xs, f).Some? <==> forall i :: 0 <= i < |xs| ==> f(xs[i]).Some?
  {
    if xs != [] {
      var init := xs[..|xs| - 1];
      MapAllSome(init, f);
      assert forall i :: 0 <= i < |init| ==> init[i] == xs[i];
    }
  }

  /** Otherwise it holds the elements' values, in order. */
  lemma {:induction false} MapAllValues<A, B>(xs: seq<A>, f: A -> Option<B>)
    requires MapAll(xs, f).Some?
    ensures |MapAll(xs, f).value| == |xs|
    ensures forall i :: 0 <= i < |xs| ==> Some(MapAll(xs, f).value[i]) == f(xs[i])
  {
    if xs != [] {
      var init := xs[..|xs| - 1];
      MapAllValues(init, f);
      assert forall i :: 0 <= i < |init| ==> init[i] == xs[i];
    }
  }

  /** One more element: the prefix's values extended by its value. */
  lemma MapAllPrefix<A, B>(xs: seq<A>, f: A -> Option<B>, i: nat, ys: seq<B>, y: B)
    requires i < |xs| && MapAll(xs[..i], f) == Some(ys) && f(xs[i]) == Some(y)
    ensures MapAll(xs[..i + 1], f) == Some(ys + [y])
  {
    assert xs[..i + 1][..i] == xs[..i];
  }

  /** The elements satisfying `p`, in order, as a list comprehension with a condition. */
  function Filter<T(!new)>(xs: seq<T>, p: T -> bool): (r: seq<T>)
    ensures |r| <= |xs|
    ensures forall x :: x in r <==> x in xs && p(x)
  {
    if xs == [] then []
    else
      var last := xs[|xs| - 1];
      assert xs == xs[..|xs| - 1] + [last];
      Filter(xs[..|xs| - 1], p) + (if p(last) then [last] else [])
  }
}
