/** Where the stage outcomes of the join come from. Every detail goroutine
    starts when its entity's goroutine starts (instant 0) and makes its value
    ready at some instant. Each `select` starts when the previous one ended,
    arms a fresh timer, and ends at the earliest of: the value being ready,
    the timer firing, and (first `select` only) the context being done. When
    several of these happen at the same instant Go picks one at random, so a
    `select` may end in any of the tied ways. */
module SelectTiming {
  import opened Wrappers
  import opened Clock
  import opened Aggregate

  /** How a `select` ended and when. */
  datatype Ending<T> = Ending(outcome: Outcome<T>, at: Instant)

  function Max(a: int, b: int): int
  {
    if a < b then b else a
  }

  /** The instant a timer armed at `start` fires: `time.After` with a
      duration that is not positive fires at once. */
  function Fires(start: Instant, timeout: Duration): Instant
  {
    start + Max(timeout, 0)
  }

  /** The instant a `select` that starts at `start` ends, when its value is
      ready at `ready`, its timer is `timeout` and the context (if it is
      watched and ever done) is done at `done`. */
  function EndsAt(start: Instant, ready: Instant, timeout: Duration, done: Option<Instant>): (m: Instant)
    ensures start <= m
    ensures m <= Max(start, ready) && m <= Fires(start, timeout)
    ensures done.Some? ==> m <= Max(start, done.value)
    ensures m == Max(start, ready) || m == Fires(start, timeout) || (done.Some? && m == Max(start, done.value))
  {
    var first := if Max(start, ready) < Fires(start, timeout) then Max(start, ready) else Fires(start, timeout);
    if done.Some? && Max(start, done.value) < first then Max(start, done.value) else first
  }

  /** The ways one `select` may end. */
  ghost predicate MayEnd<T>(start: Instant, ready: Instant, value: T, timeout: Duration, done: Option<Instant>, e: Ending<T>)
  {
    var m := EndsAt(start, ready, timeout, done);
    && e.at == m
    && match e.outcome
       case Arrived(v) => v == value && Max(start, ready) == m
       case TimedOut => Fires(start, timeout) == m
       case Cancelled => done.Some? && Max(start, done.value) == m
  }

  /** When the three detail values are ready, and what they are. */
  datatype Readiness<A, B, C> = Readiness(readyA: Instant, a: A, readyB: Instant, b: B, readyC: Instant, c: C)

  /** A possible run of one entity's nested `select`s: the first watches the
      context, the later ones start when the previous one ended and are only
      entered when it delivered. */
  ghost predicate MayRun<A, B, C>(r: Readiness<A, B, C>, timeout: Duration, done: Option<Instant>,
                            e1: Ending<A>, e2: Ending<B>, e3: Ending<C>)
  {
    && MayEnd(0, r.readyA, r.a, timeout, done, e1)
    && (e1.outcome.Arrived? ==> MayEnd(e1.at, r.readyB, r.b, timeout, None, e2))
    && (e1.outcome.Arrived? && e2.outcome.Arrived? ==> MayEnd(e2.at, r.readyC, r.c, timeout, None, e3))
  }

  /** The instant the entity's goroutine finishes. */
  function Finish<A, B, C>(e1: Ending<A>, e2: Ending<B>, e3: Ending<C>): Instant
  {
    if !e1.outcome.Arrived? then e1.at
    else if !e2.outcome.Arrived? then e2.at
    else e3.at
  }

  /** A `select` never ends before it starts nor after its own timer. */
  lemma SelectBounded<T>(start: Instant, ready: Instant, value: T, timeout: Duration, done: Option<Instant>, e: Ending<T>)
    requires MayEnd(start, ready, value, timeout, done, e)
    ensures start <= e.at <= start + Max(timeout, 0)
  {
  }

  /** A timer that is not positive fires as the `select` starts, so a value
      that is not ready yet is reported as timed out at once. */
  lemma NonPositiveTimeoutFiresAtOnce<T>(start: Instant, ready: Instant, value: T, timeout: Duration, e: Ending<T>)
    requires timeout <= 0 && ready > start
    requires MayEnd(start, ready, value, timeout, None, e)
    ensures e == Ending(TimedOut, start)
  {
  }

  /** The inner `select`s have no context case: they arrive or time out. */
  lemma InnerNeverCancelled<T>(start: Instant, ready: Instant, value: T, timeout: Duration, e: Ending<T>)
    requires MayEnd(start, ready, value, timeout, None, e)
    ensures !e.outcome.Cancelled?
  {
  }

  /** Every timer is fresh, so one entity may wait up to three timeouts in
      all, but no longer. */
  lemma RunBounded<A, B, C>(r: Readiness<A, B, C>, timeout: Duration, done: Option<Instant>,
                            e1: Ending<A>, e2: Ending<B>, e3: Ending<C>)
    requires MayRun(r, timeout, done, e1, e2, e3)
    ensures 0 <= Finish(e1, e2, e3) <= 3 * Max(timeout, 0)
  {
    SelectBounded(0, r.readyA, r.a, timeout, done, e1);
    if e1.outcome.Arrived? {
      SelectBounded(e1.at, r.readyB, r.b, timeout, None, e2);
      if e2.outcome.Arrived? {
        SelectBounded(e2.at, r.readyC, r.c, timeout, None, e3);
      }
    }
  }

  /** Fields that are each ready just before their own stage's timer fire
      all arrive, although the entity finishes well after one timeout. */
  lemma FreshTimerPerStage<A, B, C>(a: A, b: B, c: C, timeout: Duration,
                                    e1: Ending<A>, e2: Ending<B>, e3: Ending<C>)
    requires timeout >= 2
    requires MayRun(Readiness(timeout - 1, a, 2 * timeout - 2, b, 3 * timeout - 3, c), timeout, None, e1, e2, e3)
    ensures e1 == Ending(Arrived(a), timeout - 1)
    ensures e2 == Ending(Arrived(b), 2 * timeout - 2)
    ensures e3 == Ending(Arrived(c), 3 * timeout - 3)
    ensures Finish(e1, e2, e3) > timeout
  {
  }

  /** A slow second field is reported as the cause, exactly at its timeout,
      without waiting for the value: fields A and C are ready at once, field B
      only after the timer. */
  lemma SlowSecondField<A, B, C>(a: A, b: B, c: C, readyB: Instant, timeout: Duration,
                                 e1: Ending<A>, e2: Ending<B>, e3: Ending<C>)
    requires timeout > 0 && readyB > timeout
    requires MayRun(Readiness(0, a, readyB, b, 0, c), timeout, None, e1, e2, e3)
    ensures e1 == Ending(Arrived(a), 0)
    ensures e2 == Ending(TimedOut, timeout)
    ensures Finish(e1, e2, e3) == timeout
  {
  }

  /** The context is watched only while awaiting the first field: once it
      has arrived, a context that is done before the second field is ready
      does not fail the entity. */
  lemma ContextIgnoredAfterFirstStage<A, B, C>(a: A, b: B, c: C, deadline: Instant, timeout: Duration,
                                               e1: Ending<A>, e2: Ending<B>, e3: Ending<C>)
    requires 0 < deadline && deadline + 1 < timeout
    requires MayRun(Readiness(0, a, deadline + 1, b, 0, c), timeout, Some(deadline), e1, e2, e3)
    ensures e1.outcome == Arrived(a) && e2.outcome == Arrived(b) && e3.outcome == Arrived(c)
    ensures Finish(e1, e2, e3) > deadline
  {
  }

  /** While awaiting the first field, a context done before the value is
      ready and before the timer is the only way the `select` can end. */
  lemma ContextWinsFirstStage<A, B, C>(r: Readiness<A, B, C>, deadline: Instant, timeout: Duration,
                                       e1: Ending<A>, e2: Ending<B>, e3: Ending<C>)
    requires 0 <= deadline < r.readyA && deadline < timeout
    requires MayRun(r, timeout, Some(deadline), e1, e2, e3)
    ensures e1 == Ending(Cancelled, deadline)
  {
  }

  /** A context already done when the first value is also ready leaves the
      choice to Go's `select`: both endings are possible. */
  lemma TieIsNondeterministic<A>(a: A, timeout: Duration)
    requires timeout > 0
    ensures MayEnd(0, 0, a, timeout, Some(0), Ending(Arrived(a), 0))
    ensures MayEnd(0, 0, a, timeout, Some(0), Ending(Cancelled, 0))
  {
  }
}
