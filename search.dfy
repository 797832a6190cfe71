/** The first element of a sequence that satisfies a test: the shape of
    every "read until a matching frame arrives" loop in the firmware, once
    the frames delivered within the time window are given as a sequence. */
module Search {
  import opened Wrappers

  function FirstFrom<T>(xs: seq<T>, p: T -> bool, k: nat): (r: Option<nat>)
    requires k <= |xs|
    ensures r.Some? ==> k <= r.value < |xs| && p(xs[r.value])
    ensures r.Some? ==> forall j :: k <= j < r.value ==> !p(xs[j])
    ensures r.None? ==> forall j :: k <= j < |xs| ==> !p(xs[j])
    decreases |xs| - k
  {
    if k == |xs| then None else if p(xs[k]) then Some(k) else FirstFrom(xs, p, k + 1)
  }

  function First<T>(xs: seq<T>, p: T -> bool): (r: Option<nat>)
    ensures r.Some? ==> r.value < |xs| && p(xs[r.value]) && forall j :: 0 <= j < r.value ==> !p(xs[j])
    ensures r.None? ==> forall j :: 0 <= j < |xs| ==> !p(xs[j])
  {
    FirstFrom(xs, p, 0)
  }

  /** The first match is determined by the prefix up to and including it:
      whatever arrives later does not change it. */
  lemma {:induction false} FirstFromPrefix<T>(xs: seq<T>, ys: seq<T>, p: T -> bool, k: nat)
    requires k <= |xs|
    requires FirstFrom(xs, p, k).Some?
    ensures FirstFrom(xs + ys, p, k) == FirstFrom(xs, p, k)
    decreases |xs| - k
  {
    assert (xs + ys)[k] == xs[k];
    if !p(xs[k]) {
      FirstFromPrefix(xs, ys, p, k + 1);
    }
  }
}
