/** Runs of a step function over a list of events, and the invariant rule for them. */
module Runs {
  function Fold<W, E>(f: (W, E) -> W, w: W, evs: seq<E>): W
    decreases |evs|
  {
    if evs == [] then w else Fold(f, f(w, evs[0]), evs[1..])
  }

  /** `ready` holds before every step of the run. */
  predicate AllReady<W, E>(f: (W, E) -> W, ready: (W, E) -> bool, w: W, evs: seq<E>)
    decreases |evs|
  {
    evs == [] || (ready(w, evs[0]) && AllReady(f, ready, f(w, evs[0]), evs[1..]))
  }

  /** What every ready step keeps, every ready run keeps. */
  lemma {:induction false} FoldKeeps<W(!new), E(!new)>(
      f: (W, E) -> W, ready: (W, E) -> bool, good: W -> bool, w: W, evs: seq<E>)
    requires good(w) && AllReady(f, ready, w, evs)
    requires forall x, e :: good(x) && ready(x, e) ==> good(f(x, e))
    ensures good(Fold(f, w, evs))
    decreases |evs|
  {
    if evs != [] {
      FoldKeeps(f, ready, good, f(w, evs[0]), evs[1..]);
    }
  }
}
