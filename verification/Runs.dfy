/** Runs of a labelled machine: a log of events, folded from the initial state. */
module Runs {
  import opened Bytes

  /** The state after a log of events, if the machine can produce that log. */
  function Fold<S, E>(step: (S, E) -> Option<S>, init: S, h: seq<E>): Option<S> {
    if h == [] then Some(init) else
    match Fold(step, init, h[..|h| - 1])
    case None => None
    case Some(s) => step(s, h[|h| - 1])
  }

  lemma FoldSnoc<S, E>(step: (S, E) -> Option<S>, init: S, h: seq<E>, e: E)
    ensures Fold(step, init, h + [e]) ==
      match Fold(step, init, h) case None => None case Some(s) => step(s, e)
  {
    assert (h + [e])[..|h + [e]| - 1] == h;
  }

  lemma {:induction false} FoldPrefix<S, E>(step: (S, E) -> Option<S>, init: S, h: seq<E>, k: nat)
    requires Fold(step, init, h).Some? && k <= |h|
    ensures Fold(step, init, h[..k]).Some?
  {
    if k == |h| {
      assert h[..k] == h;
    } else {
      assert h[..|h| - 1][..k] == h[..k];
      FoldPrefix(step, init, h[..|h| - 1], k);
    }
  }

  /** The state after the first k events, and the k-th event taken from it. */
  lemma FoldStep<S, E>(step: (S, E) -> Option<S>, init: S, h: seq<E>, k: nat)
    requires Fold(step, init, h).Some? && k < |h|
    ensures Fold(step, init, h[..k]).Some? && Fold(step, init, h[..k + 1]).Some?
    ensures Fold(step, init, h[..k + 1]) == step(Fold(step, init, h[..k]).value, h[k])
  {
    FoldPrefix(step, init, h, k);
    FoldPrefix(step, init, h, k + 1);
    assert h[..k + 1] == h[..k] + [h[k]];
    FoldSnoc(step, init, h[..k], h[k]);
  }

  /** A log that continues another continues from the state it led to. */
  lemma {:induction false} FoldConcat<S, E>(step: (S, E) -> Option<S>, init: S, g: seq<E>, h: seq<E>)
    requires Fold(step, init, g).Some?
    ensures Fold(step, init, g + h) == Fold(step, Fold(step, init, g).value, h)
  {
    if h == [] {
      assert g + h == g;
    } else {
      FoldConcat(step, init, g, h[..|h| - 1]);
      assert (g + h)[..|g + h| - 1] == g + h[..|h| - 1];
    }
  }
}
