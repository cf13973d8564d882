/** Small shared helpers: an optional value and a pointwise map over sequences. */
module Wrappers {

  /** The source's `None`, or a present value. */
  datatype Option<+T> = None | Some(value: T) {
    predicate IsFailure() {
      None?
    }

    function PropagateFailure<U>(): Option<U>
      requires None?
    {
      None
    }

    function Extract(): T
      requires Some?
    {
      value
    }
  }
}

module Lists {
  import opened Wrappers

  /** `[f(x) for x in xs]`: one result per element, in the same order. */
  function Map<A, B>(xs: seq<A>, f: A -> B): (r: seq<B>)
    ensures |r| == |xs|
    ensures forall i :: 0 <= i < |xs| ==> r[i] == f(xs[i])
  {
    seq(|xs|, i requires 0 <= i < |xs| => f(xs[i]))
  }

  lemma MapAppend<A, B>(xs: seq<A>, ys: seq<A>, f: A -> B)
    ensures Map(xs + ys, f) == Map(xs, f) + Map(ys, f)
  {
  }

  /** Mapping a sequence extended by one element extends the result by its image. */
  lemma MapSnoc<A, B>(xs: seq<A>, x: A, f: A -> B)
    ensures Map(xs + [x], f) == Map(xs, f) + [f(x)]
  {
  }

  /** The present results of `f` over `xs`, in order: each `None` is dropped. */
  function Present<A, B>(xs: seq<A>, f: A -> Option<B>): (r: seq<B>)
    ensures |r| <= |xs|
  {
    if xs == [] then []
    else
      var last := f(xs[|xs| - 1]);
      Present(xs[..|xs| - 1], f) + (if last.Some? then [last.value] else [])
  }

  lemma {:induction false} PresentAppend<A, B>(a: seq<A>, b: seq<A>, f: A -> Option<B>)
    ensures Present(a + b, f) == Present(a, f) + Present(b, f)
  {
    if b == [] {
      assert a + b == a;
    } else {
      assert (a + b)[..|a + b| - 1] == a + b[..|b| - 1];
      PresentAppend(a, b[..|b| - 1], f);
    }
  }

  /** `y` is kept exactly when some element maps to it. */
  lemma {:induction false} PresentMembership<A, B>(xs: seq<A>, f: A -> Option<B>, y: B)
    ensures y in Present(xs, f) <==> exists i :: 0 <= i < |xs| && f(xs[i]) == Some(y)
  {
    if xs != [] {
      var n := |xs| - 1;
      var p := xs[..n];
      PresentMembership(p, f, y);
      if y in Present(p, f) {
        var i :| 0 <= i < |p| && f(p[i]) == Some(y);
        assert f(xs[i]) == Some(y);
      }
      if exists i :: 0 <= i < |xs| && f(xs[i]) == Some(y) {
        var i :| 0 <= i < |xs| && f(xs[i]) == Some(y);
        if i < n {
          assert f(p[i]) == Some(y);
        }
      }
    }
  }

  /** When no result is `None`, nothing is dropped and positions correspond. */
  lemma {:induction false} PresentAllSome<A, B>(xs: seq<A>, f: A -> Option<B>)
    requires forall i :: 0 <= i < |xs| ==> f(xs[i]).Some?
    ensures |Present(xs, f)| == |xs|
    ensures forall i :: 0 <= i < |xs| ==> Some(Present(xs, f)[i]) == f(xs[i])
  {
    if xs != [] {
      var n := |xs| - 1;
      PresentAllSome(xs[..n], f);
      assert forall i :: 0 <= i < n ==> xs[..n][i] == xs[i];
    }
  }
}
