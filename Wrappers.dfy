/** The Option type used wherever the Python code returns a value or None, and the
    values present in a sequence of options (a loop that appends only some of the
    values it computes). */
module Wrappers {
  datatype Option<+T> = None | Some(value: T)

  /** The values present in `xs`, in order. */
  function Present<T>(xs: seq<Option<T>>): seq<T>
  {
    if xs == [] then []
    else Present(xs[..|xs| - 1]) + (match xs[|xs| - 1] case None => [] case Some(v) => [v])
  }

  /** The indices of the values present in `xs`. */
  function PresentIndices<T>(xs: seq<Option<T>>): seq<nat>
  {
    if xs == [] then []
    else PresentIndices(xs[..|xs| - 1]) + (if xs[|xs| - 1].None? then [] else [|xs| - 1])
  }

  lemma PresentStep<T>(xs: seq<Option<T>>, i: nat)
    requires i < |xs|
    ensures Present(xs[..i + 1]) == Present(xs[..i]) + (match xs[i] case None => [] case Some(v) => [v])
  {
    assert xs[..i + 1][..i] == xs[..i];
  }

  /** The k-th present value sits at index `PresentIndices(xs)[k]`. */
  lemma {:induction false} PresentOrigin<T>(xs: seq<Option<T>>)
    ensures |PresentIndices(xs)| == |Present(xs)| <= |xs|
    ensures forall k :: 0 <= k < |PresentIndices(xs)| ==>
              PresentIndices(xs)[k] < |xs| && xs[PresentIndices(xs)[k]] == Some(Present(xs)[k])
  {
    if xs != [] {
      PresentOrigin(xs[..|xs| - 1]);
    }
  }

  /** The indices strictly increase. */
  lemma {:induction false} PresentIndicesIncrease<T>(xs: seq<Option<T>>)
    ensures forall k :: 0 <= k < |PresentIndices(xs)| ==> PresentIndices(xs)[k] < |xs|
    ensures forall k, l :: 0 <= k < l < |PresentIndices(xs)| ==> PresentIndices(xs)[k] < PresentIndices(xs)[l]
  {
    if xs != [] {
      PresentIndicesIncrease(xs[..|xs| - 1]);
    }
  }

  /** Every index that holds a value is listed. */
  lemma {:induction false} PresentIndicesComplete<T>(xs: seq<Option<T>>)
    ensures forall j :: 0 <= j < |xs| && xs[j].Some? ==> j in PresentIndices(xs)
  {
    if xs != [] {
      var n := |xs| - 1;
      var front := xs[..n];
      PresentIndicesComplete(front);
      forall j | 0 <= j < n && xs[j].Some? ensures j in PresentIndices(xs) {
        assert front[j] == xs[j];
      }
    }
  }
}
