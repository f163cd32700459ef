/** Optional values and results: the scripts' "no value" and "raised" outcomes. */
module Wrappers {

  datatype Option<+T> = None | Some(value: T)

  /** `Err` carries the name of the Python exception that ends the script. */
  datatype Result<+T> = Ok(value: T) | Err(error: string)
}

/** Sequence helpers shared by the scripts' list comprehensions. */
module Seqs {
  import opened Wrappers

  /** `[f(x).value for x in xs if f(x) is Some]`, in the order of `xs`. */
  function FilterMap<R, T>(xs: seq<R>, f: R -> Option<T>): seq<T>
  {
    if xs == [] then []
    else (match f(xs[0]) case Some(t) => [t] case None => []) + FilterMap(xs[1..], f)
  }

  lemma {:induction false} FilterMapAppend<R, T>(xs: seq<R>, ys: seq<R>, f: R -> Option<T>)
    ensures FilterMap(xs + ys, f) == FilterMap(xs, f) + FilterMap(ys, f)
    decreases |xs|
  {
    if xs != [] {
      assert (xs + ys)[1..] == xs[1..] + ys;
      FilterMapAppend(xs[1..], ys, f);
    } else {
      assert xs + ys == ys;
    }
  }

  /** One more element appends its image, if it has one. */
  lemma FilterMapSnoc<R, T>(xs: seq<R>, x: R, f: R -> Option<T>)
    ensures FilterMap(xs + [x], f) == FilterMap(xs, f) + (match f(x) case Some(t) => [t] case None => [])
  {
    FilterMapAppend(xs, [x], f);
    assert [x][1..] == [];
  }

  /** An element of the result is the image of some element of the input, and
      every element with an image contributes it. */
  lemma {:induction false} FilterMapMembers<R, T>(xs: seq<R>, f: R -> Option<T>)
    ensures forall t :: t in FilterMap(xs, f) <==> exists x :: x in xs && f(x) == Some(t)
    decreases |xs|
  {
    if xs != [] {
      FilterMapMembers(xs[1..], f);
      forall t ensures t in FilterMap(xs, f) <==> exists x :: x in xs && f(x) == Some(t) {
        if t in FilterMap(xs, f) {
          if f(xs[0]) == Some(t) {
            assert xs[0] in xs;
          } else {
            assert t in FilterMap(xs[1..], f);
            var x :| x in xs[1..] && f(x) == Some(t);
            assert x in xs;
          }
        }
        if exists x :: x in xs && f(x) == Some(t) {
          var x :| x in xs && f(x) == Some(t);
          if x != xs[0] {
            assert x in xs[1..];
          }
        }
      }
    }
  }

  /** With a function that never drops an element, the result is the pointwise image. */
  lemma {:induction false} FilterMapTotal<R, T>(xs: seq<R>, f: R -> Option<T>)
    requires forall x :: x in xs ==> f(x).Some?
    ensures |FilterMap(xs, f)| == |xs|
    ensures forall i :: 0 <= i < |xs| ==> FilterMap(xs, f)[i] == f(xs[i]).value
    decreases |xs|
  {
    if xs != [] {
      assert forall x :: x in xs[1..] ==> x in xs;
      FilterMapTotal(xs[1..], f);
      forall i | 0 <= i < |xs| ensures FilterMap(xs, f)[i] == f(xs[i]).value {
        if i > 0 {
          assert xs[i] == xs[1..][i - 1];
        }
      }
    }
  }
}
