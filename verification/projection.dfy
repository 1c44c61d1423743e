/**
 * The fold every read-model and every aggregate load is built on: Reactor's `reduce(seed, step)`
 * over an ordered slice of the event log.
 */
module Projection {
  import opened Events

  /** Left fold from the first event to the last. */
  function Reduce<A>(seed: A, s: Log, step: (A, Event) -> A): A
    decreases |s|
  {
    if s == [] then seed else Reduce(step(seed, s[0]), s[1..], step)
  }

  /** Folding a concatenation folds the second part from where the first part ended. */
  lemma {:induction false} ReduceAppend<A>(seed: A, a: Log, b: Log, step: (A, Event) -> A)
    ensures Reduce(seed, a + b, step) == Reduce(Reduce(seed, a, step), b, step)
    decreases |a|
  {
    if a == [] {
      assert a + b == b;
    } else {
      assert (a + b)[0] == a[0];
      assert (a + b)[1..] == a[1..] + b;
      ReduceAppend(step(seed, a[0]), a[1..], b, step);
    }
  }

  /** One more event at the end of the slice is one more step of the fold. */
  lemma ReduceSnoc<A>(seed: A, s: Log, e: Event, step: (A, Event) -> A)
    ensures Reduce(seed, s + [e], step) == step(Reduce(seed, s, step), e)
  {
    ReduceAppend(seed, s, [e], step);
    assert [e][1..] == [];
  }
}
