/** The fan-out/fan-in join shared by the user and news detail services.

    Each entity's goroutine awaits three detail channels with three nested
    `select`s, in a fixed order. Each `select` races its channel against a
    fresh timer; only the outermost one also listens to the request context.
    The model abstracts one `select` into the way it ended (an `Outcome`),
    so the join becomes a pure function of three outcomes. Which ready case
    a `select` picks is left to the caller of the model: any outcome may be
    passed, which covers Go's random choice among ready cases. */
module Aggregate {
  import opened Wrappers
  import Decimal

  /** How one `select` on a detail channel ended. */
  datatype Outcome<T> = Arrived(value: T) | TimedOut | Cancelled

  /** The inner two `select`s have no context case, so they cannot end cancelled. */
  type Awaited<T> = o: Outcome<T> | !o.Cancelled? witness TimedOut

  /** The three awaited stages, in the order they are awaited. */
  datatype Stage = First | Second | Third

  /** The join of one entity's three stages. */
  datatype Joined<A, B, C> = AllArrived(a: A, b: B, c: C) | TimedOutAt(stage: Stage) | ContextDone

  /** What `ctx.Err()` reports once the context is done. */
  datatype ContextError = Canceled | DeadlineExceeded

  /** One entity's error. `StageTimeout` renders as
      `timeout getting <field> for <noun> <id>`. */
  datatype DetailError = StageTimeout(field: string, noun: string, id: nat) | ContextErr(err: ContextError)

  /** The text of one entity's error. */
  function Text(e: DetailError): string
  {
    match e
    case StageTimeout(field, noun, id) => "timeout getting " + field + " for " + noun + " " + Decimal.Dec(id)
    case ContextErr(Canceled) => "context canceled"
    case ContextErr(DeadlineExceeded) => "context deadline exceeded"
  }

  /** One entity's slot: its enriched record, or the single error it reported. */
  datatype Slot<R> = Filled(record: R) | Failed(error: DetailError)

  /** The aggregate error, `errors occurred while fetching <what> details: [...]`. */
  datatype BatchError = BatchError(what: string, errors: seq<DetailError>)

  /** The whole result: the repository error, or every slot together with
      the aggregate error when at least one entity failed. */
  datatype Batch<R, E> = ListFailed(error: E) | Collected(results: seq<R>, failure: Option<BatchError>)

  /** The names a service gives its three fields and its entities. */
  datatype Labels = Labels(first: string, second: string, third: string, noun: string)

  /** The nested `select`s of one entity: stages are awaited in order, the
      first stage that did not deliver decides the outcome, and the stages
      after it are never awaited. */
  function Join3<A, B, C>(s1: Outcome<A>, s2: Awaited<B>, s3: Awaited<C>): (r: Joined<A, B, C>)
    ensures r.AllArrived? <==> s1.Arrived? && s2.Arrived? && s3.Arrived?
    ensures r.AllArrived? ==> r.a == s1.value && r.b == s2.value && r.c == s3.value
    ensures r == TimedOutAt(First) <==> s1.TimedOut?
    ensures r == TimedOutAt(Second) <==> s1.Arrived? && s2.TimedOut?
    ensures r == TimedOutAt(Third) <==> s1.Arrived? && s2.Arrived? && s3.TimedOut?
    ensures r.ContextDone? <==> s1.Cancelled?
  {
    match s1
    case TimedOut => TimedOutAt(First)
    case Cancelled => ContextDone
    case Arrived(a) =>
      match s2
      case TimedOut => TimedOutAt(Second)
      case Arrived(b) =>
        match s3
        case TimedOut => TimedOutAt(Third)
        case Arrived(c) => AllArrived(a, b, c)
  }

  /** Once a stage has failed, what the later stages would have delivered is irrelevant. */
  lemma LaterStagesIgnored<A, B, C>(s1: Outcome<A>, s2: Awaited<B>, s3: Awaited<C>, s2': Awaited<B>, s3': Awaited<C>)
    ensures !s1.Arrived? ==> Join3(s1, s2, s3) == Join3(s1, s2', s3')
    ensures s1.Arrived? && !s2.Arrived? ==> Join3(s1, s2, s3) == Join3(s1, s2, s3')
  {
  }

  /** The field a stage's timeout message names. */
  function FieldOf(labels: Labels, stage: Stage): string
  {
    match stage
    case First => labels.first
    case Second => labels.second
    case Third => labels.third
  }

  /** The per-entity goroutine: join the stages, then either write the
      record built from the three values or report exactly one error. */
  function Settle<A, B, C, R>(labels: Labels, id: nat, ctxErr: ContextError, build: (A, B, C) -> R,
                              s1: Outcome<A>, s2: Awaited<B>, s3: Awaited<C>): (slot: Slot<R>)
    ensures slot.Filled? <==> s1.Arrived? && s2.Arrived? && s3.Arrived?
    ensures slot.Filled? ==> slot.record == build(s1.value, s2.value, s3.value)
    ensures s1.TimedOut? ==> slot == Failed(StageTimeout(labels.first, labels.noun, id))
    ensures s1.Arrived? && s2.TimedOut? ==> slot == Failed(StageTimeout(labels.second, labels.noun, id))
    ensures s1.Arrived? && s2.Arrived? && s3.TimedOut? ==> slot == Failed(StageTimeout(labels.third, labels.noun, id))
    ensures slot == Failed(ContextErr(ctxErr)) <==> s1.Cancelled?
  {
    match Join3(s1, s2, s3)
    case AllArrived(a, b, c) => Filled(build(a, b, c))
    case TimedOutAt(stage) => Failed(StageTimeout(FieldOf(labels, stage), labels.noun, id))
    case ContextDone => Failed(ContextErr(ctxErr))
  }

  /** The results slice: slot i holds entity i's record, or the zero value
      if entity i failed. */
  function Results<R>(slots: seq<Slot<R>>, zero: R): (rs: seq<R>)
    ensures |rs| == |slots|
    ensures forall i :: 0 <= i < |slots| ==> rs[i] == (if slots[i].Filled? then slots[i].record else zero)
  {
    seq(|slots|, i requires 0 <= i < |slots| => if slots[i].Filled? then slots[i].record else zero)
  }

  /** The errors read from the channel, one per failed entity (taken in
      entity order here; the channel delivers them in completion order). */
  function Errors<R>(slots: seq<Slot<R>>): (errs: seq<DetailError>)
    ensures |errs| <= |slots|
    ensures forall e :: e in errs <==> exists i :: 0 <= i < |slots| && slots[i] == Failed(e)
    decreases |slots|
  {
    if |slots| == 0 then []
    else
      var rest := Errors(slots[1..]);
      assert forall i :: 0 < i < |slots| ==> slots[i] == slots[1..][i - 1];
      if slots[0].Failed? then [slots[0].error] + rest else rest
  }

  /** The batch after the repository listing succeeded. */
  function Collect<R, E>(what: string, slots: seq<Slot<R>>, zero: R): (b: Batch<R, E>)
    ensures b.Collected?
    ensures b.results == Results(slots, zero)
    ensures b.failure.Some? <==> exists i :: 0 <= i < |slots| && slots[i].Failed?
    ensures b.failure.Some? ==> b.failure.value == BatchError(what, Errors(slots))
  {
    var errs := Errors(slots);
    if |errs| > 0 then
      assert errs[0] in errs;
      Collected(Results(slots, zero), Some(BatchError(what, errs)))
    else Collected(Results(slots, zero), None)
  }

  /** Every entity contributes exactly its own error, and nothing else:
      the error list of a concatenation is the concatenation of the lists. */
  lemma {:induction false} ErrorsAppend<R>(xs: seq<Slot<R>>, ys: seq<Slot<R>>)
    ensures Errors(xs + ys) == Errors(xs) + Errors(ys)
    decreases |xs|
  {
    if |xs| == 0 {
      assert xs + ys == ys;
    } else {
      assert (xs + ys)[0] == xs[0];
      assert (xs + ys)[1..] == xs[1..] + ys;
      ErrorsAppend(xs[1..], ys);
    }
  }

  /** A single entity contributes one error if it failed and none otherwise. */
  lemma ErrorsSingle<R>(slot: Slot<R>)
    ensures Errors([slot]) == if slot.Failed? then [slot.error] else []
  {
    assert [slot][1..] == [];
  }

  /** The error list is as long as the batch exactly when every entity failed. */
  lemma {:induction false} ErrorsFull<R>(slots: seq<Slot<R>>)
    ensures |Errors(slots)| == |slots| <==> forall i :: 0 <= i < |slots| ==> slots[i].Failed?
    decreases |slots|
  {
    if |slots| > 0 {
      ErrorsFull(slots[1..]);
      assert forall i :: 0 < i < |slots| ==> slots[i] == slots[1..][i - 1];
      if slots[0].Filled? {
        assert |Errors(slots)| == |Errors(slots[1..])| <= |slots| - 1;
      }
    }
  }
}
