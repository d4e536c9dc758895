/** What one pass of a scraper loop does, as a value: the events it performs in order (the
    pages it requests, the downloads it starts) and, when an uncaught Python exception ends the
    program, the reason. Loops that run one step per listing item are `Sequence`s of steps. */
module Runs {
  import opened Wrappers

  datatype Run<E, C> = Run(events: seq<E>, crash: Option<C>)

  /** A run that performs `events` and goes on. */
  function Done<E, C>(events: seq<E>): Run<E, C> {
    Run(events, None)
  }

  /** Running `r1`, then `r2` unless `r1` ended the program. */
  function Then<E, C>(r1: Run<E, C>, r2: Run<E, C>): Run<E, C> {
    if r1.crash.Some? then r1 else Run(r1.events + r2.events, r2.crash)
  }

  /** One `step` per item of `xs`, in order, stopping at the first crash. */
  function Sequence<T, E, C>(xs: seq<T>, step: T -> Run<E, C>): Run<E, C>
    decreases |xs|
  {
    if |xs| == 0 then Done([]) else Then(Sequence(xs[..|xs| - 1], step), step(xs[|xs| - 1]))
  }

  lemma SequenceSnoc<T, E, C>(xs: seq<T>, x: T, step: T -> Run<E, C>)
    ensures Sequence(xs + [x], step) == Then(Sequence(xs, step), step(x))
  {
    assert (xs + [x])[..|xs|] == xs;
  }

  /** Once a prefix has crashed, the items after it are never processed. */
  lemma {:induction false} SequenceStuck<T, E, C>(xs: seq<T>, ys: seq<T>, step: T -> Run<E, C>)
    requires Sequence(xs, step).crash.Some?
    ensures Sequence(xs + ys, step) == Sequence(xs, step)
    decreases |ys|
  {
    if |ys| > 0 {
      var init := ys[..|ys| - 1];
      SequenceStuck(xs, init, step);
      assert xs + ys == (xs + init) + [ys[|ys| - 1]];
      SequenceSnoc(xs + init, ys[|ys| - 1], step);
    } else {
      assert xs + ys == xs;
    }
  }

  /** The step at index `k` of a loop, and the loop over the items up to it. */
  lemma SequencePrefix<T, E, C>(xs: seq<T>, k: nat, step: T -> Run<E, C>)
    requires k < |xs|
    ensures Sequence(xs[..k + 1], step) == Then(Sequence(xs[..k], step), step(xs[k]))
  {
    assert xs[..k + 1] == xs[..k] + [xs[k]];
    SequenceSnoc(xs[..k], xs[k], step);
  }

  /** A loop stopped by the crash of its step at `k` ends the same as the whole loop. */
  lemma SequenceStopsAt<T, E, C>(xs: seq<T>, k: nat, step: T -> Run<E, C>)
    requires k < |xs| && Sequence(xs[..k + 1], step).crash.Some?
    ensures Sequence(xs, step) == Sequence(xs[..k + 1], step)
  {
    assert xs == xs[..k + 1] + xs[k + 1..];
    SequenceStuck(xs[..k + 1], xs[k + 1..], step);
  }

  /** An event property that every step's events have holds of every event of the loop. */
  lemma {:induction false} SequenceEvents<T, E, C>(xs: seq<T>, step: T -> Run<E, C>, ok: E -> bool)
    requires forall x :: x in xs ==> forall e :: e in step(x).events ==> ok(e)
    ensures forall e :: e in Sequence(xs, step).events ==> ok(e)
    decreases |xs|
  {
    if |xs| > 0 {
      var init := xs[..|xs| - 1];
      assert forall x :: x in init ==> x in xs;
      SequenceEvents(init, step, ok);
    }
  }
}
