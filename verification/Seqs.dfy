/** Bounds, the front of a sequence as Python's `s[:n]` takes it, and induction along a sequence. */
module Seqs {
  function Max(a: nat, b: nat): nat {
    if a < b then b else a
  }

  function Min(a: nat, b: nat): nat {
    if a < b then a else b
  }

  /** The first `n` elements, or all of them if there are fewer. */
  function FirstN<T>(s: seq<T>, n: nat): seq<T> {
    s[..Min(n, |s|)]
  }

  /** Once at `v`, the next step keeps it there. */
  ghost predicate Carries<T>(xs: seq<T>, v: T, k: nat)
    requires k + 1 < |xs|
  {
    xs[k] == v ==> xs[k + 1] == v
  }

  lemma {:induction false} StaysAt<T>(xs: seq<T>, v: T, i: nat, j: nat)
    requires i <= j < |xs| && xs[i] == v
    requires forall k :: i <= k < j ==> Carries(xs, v, k)
    ensures xs[j] == v
    decreases j
  {
    if i < j {
      StaysAt(xs, v, i, j - 1);
      assert Carries(xs, v, j - 1);
    }
  }
}
