/** Concatenating, in order, what a function gives for each element of a
    sequence: the shape of every collecting loop of the forging. */
module Sequences {

  /** `f(xs[0]) + f(xs[1]) + ... + f(xs[|xs| - 1])`. */
  function ConcatMap<T, U>(xs: seq<T>, f: T -> seq<U>): seq<U>
  {
    if |xs| == 0 then [] else ConcatMap(xs[..|xs| - 1], f) + f(xs[|xs| - 1])
  }

  /** One more element contributes its own part at the end. */
  lemma ConcatMapStep<T, U>(xs: seq<T>, i: nat, f: T -> seq<U>)
    requires i < |xs|
    ensures ConcatMap(xs[..i + 1], f) == ConcatMap(xs[..i], f) + f(xs[i])
  {
    assert xs[..i + 1][..i] == xs[..i];
  }

  /** The parts of two runs are those of the first followed by those of the
      second. */
  lemma {:induction false} ConcatMapAppend<T, U>(a: seq<T>, b: seq<T>, f: T -> seq<U>)
    ensures ConcatMap(a + b, f) == ConcatMap(a, f) + ConcatMap(b, f)
  {
    if |b| == 0 {
      assert a + b == a;
    } else {
      ConcatMapAppend(a, b[..|b| - 1], f);
      assert (a + b)[..|a + b| - 1] == a + b[..|b| - 1];
    }
  }

  /** Every element of the result is an element of the part of some
      element of `xs`. */
  lemma {:induction false} ConcatMapOrigin<T, U>(xs: seq<T>, f: T -> seq<U>, k: nat) returns (i: nat, j: nat)
    requires k < |ConcatMap(xs, f)|
    ensures i < |xs| && j < |f(xs[i])| && ConcatMap(xs, f)[k] == f(xs[i])[j]
  {
    var init := xs[..|xs| - 1];
    var before := ConcatMap(init, f);
    if k < |before| {
      i, j := ConcatMapOrigin(init, f, k);
      assert xs[i] == init[i];
    } else {
      i, j := |xs| - 1, k - |before|;
    }
  }

  /** When every part is empty, so is the result. */
  lemma {:induction false} ConcatMapEmpty<T, U>(xs: seq<T>, f: T -> seq<U>)
    requires forall x :: f(x) == []
    ensures ConcatMap(xs, f) == []
  {
    if |xs| > 0 {
      ConcatMapEmpty(xs[..|xs| - 1], f);
    }
  }

  /** Two functions that agree on the elements give the same result. */
  lemma {:induction false} ConcatMapAgree<T, U>(xs: seq<T>, f: T -> seq<U>, g: T -> seq<U>)
    requires forall i :: 0 <= i < |xs| ==> f(xs[i]) == g(xs[i])
    ensures ConcatMap(xs, f) == ConcatMap(xs, g)
  {
    if |xs| > 0 {
      ConcatMapAgree(xs[..|xs| - 1], f, g);
    }
  }

  /** When each element gives exactly one value, the result is those values
      in order. */
  lemma {:induction false} ConcatMapSingles<T, U>(xs: seq<T>, f: T -> seq<U>, ys: seq<U>)
    requires |xs| == |ys| && forall k :: 0 <= k < |xs| ==> f(xs[k]) == [ys[k]]
    ensures ConcatMap(xs, f) == ys
  {
    if |xs| > 0 {
      var n := |xs| - 1;
      ConcatMapSingles(xs[..n], f, ys[..n]);
      assert ys == ys[..n] + [ys[n]];
    }
  }
}
