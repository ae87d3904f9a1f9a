/**
 * The deferred result cell of the isolated-extension bridge
 * (packages/isolated-extension-api/src/api/lazy-promise.ts).
 *
 * A LazyPromise can be resolved before or after anyone consumes it. The
 * native promise behind it (`actual`) is created lazily, on the first
 * `then`/`catch`, and is modelled as a cell that settles at most once.
 */
module LazyPromises {
  import opened Wrappers

  /** The native promise created by `ensureActual`: once settled, later resolve/reject calls are ignored. */
  datatype Settlement<V, E> = Pending | Fulfilled(value: V) | Rejected(error: E)

  /** What `then` and `catch` hand back to the caller. */
  datatype Attached<V, E> =
    | Undefined                               // `then` on a canceled cell
    | Itself                                  // `catch` on a canceled cell returns the cell
    | Chained(settlement: Settlement<V, E>)   // a continuation on the native promise, which is in this state

  /**
   * Every field of a LazyPromise, plus the diagnostic sink (`console.error`).
   * `actual` is `None` until `ensureActual` runs; `actualOk`/`actualErr` exist
   * exactly when `actual` does, because the executor runs synchronously.
   */
  datatype Cell<V, E> = Cell(
    hasValue: bool, value: Option<V>,
    hasErr: bool, err: Option<E>,
    isCanceled: bool,
    actual: Option<Settlement<V, E>>,
    reported: seq<E>)

  /** The operations a producer and a consumer can apply to a cell. */
  datatype Op<V, E> = ResolveOkOp(v: V) | ResolveErrOp(e: E) | ThenOp | CatchOp

  /** The state the constructor establishes. */
  function Fresh<V, E>(): Cell<V, E> {
    Cell(false, None, false, None, false, None, [])
  }

  /** The consistency every reachable cell keeps. */
  predicate Valid<V, E>(c: Cell<V, E>) {
    && !(c.hasValue && c.hasErr)
    && (c.hasValue ==> c.value.Some?)
    && (c.hasErr ==> c.err.Some?)
    && (c.actual.Some? ==> (c.actual.value.Fulfilled? <==> c.hasValue) && (c.actual.value.Rejected? <==> c.hasErr))
  }

  /** Calling the native resolve/reject function: only a pending promise changes. */
  function Settle<V, E>(s: Settlement<V, E>, outcome: Settlement<V, E>): Settlement<V, E> {
    if s.Pending? then outcome else s
  }

  /** `ensureActual`: create the native promise once and replay a recorded value, then a recorded error. */
  function AfterEnsureActual<V, E>(c: Cell<V, E>): (r: Cell<V, E>)
    ensures r.actual.Some?
  {
    if c.actual.Some? then c
    else
      var afterOk := if c.hasValue && c.value.Some? then Fulfilled(c.value.value) else Pending;
      var afterErr := if c.hasErr && c.err.Some? then Settle(afterOk, Rejected(c.err.value)) else afterOk;
      c.(actual := Some(afterErr))
  }

  /** `resolveOk`: ignored once canceled or errored; otherwise records (overwrites) the value and forwards it. */
  function AfterResolveOk<V, E>(c: Cell<V, E>, v: V): Cell<V, E> {
    if c.isCanceled || c.hasErr then c
    else
      c.(hasValue := true, value := Some(v),
         actual := if c.actual.Some? then Some(Settle(c.actual.value, Fulfilled(v))) else None)
  }

  /** `resolveErr`: ignored once canceled or resolved; otherwise records the error and rejects, or reports it to the diagnostic sink. */
  function AfterResolveErr<V, E>(c: Cell<V, E>, e: E): Cell<V, E> {
    if c.isCanceled || c.hasValue then c
    else if c.actual.Some? then
      c.(hasErr := true, err := Some(e), actual := Some(Settle(c.actual.value, Rejected(e))))
    else
      c.(hasErr := true, err := Some(e), reported := c.reported + [e])
  }

  /** `then`: a canceled cell gives `undefined`; otherwise the continuation is chained to the native promise. */
  function AfterThen<V, E>(c: Cell<V, E>): (Cell<V, E>, Attached<V, E>) {
    if c.isCanceled then (c, Undefined)
    else var c' := AfterEnsureActual(c); (c', Chained(c'.actual.value))
  }

  /** `catch`: a canceled cell returns itself; otherwise the handler is chained to the native promise. */
  function AfterCatch<V, E>(c: Cell<V, E>): (Cell<V, E>, Attached<V, E>) {
    if c.isCanceled then (c, Itself)
    else var c' := AfterEnsureActual(c); (c', Chained(c'.actual.value))
  }

  function Apply<V, E>(c: Cell<V, E>, op: Op<V, E>): Cell<V, E> {
    match op
    case ResolveOkOp(v) => AfterResolveOk(c, v)
    case ResolveErrOp(e) => AfterResolveErr(c, e)
    case ThenOp => AfterThen(c).0
    case CatchOp => AfterCatch(c).0
  }

  /** The cell after a sequence of operations, in order. */
  function Run<V, E>(c: Cell<V, E>, ops: seq<Op<V, E>>): Cell<V, E>
    decreases |ops|
  {
    if ops == [] then c else Run(Apply(c, ops[0]), ops[1..])
  }

  predicate IsResolution<V, E>(op: Op<V, E>) {
    op.ResolveOkOp? || op.ResolveErrOp?
  }

  /** The kind of outcome a consumer observes, ignoring the carried value. */
  predicate SameKind<V, E>(s: Settlement<V, E>, t: Settlement<V, E>) {
    (s.Pending? <==> t.Pending?) && (s.Fulfilled? <==> t.Fulfilled?) && (s.Rejected? <==> t.Rejected?)
  }

  /** Every single operation keeps a cell valid. */
  lemma ApplyPreservesValid<V, E>(c: Cell<V, E>, op: Op<V, E>)
    requires Valid(c)
    ensures Valid(Apply(c, op))
  {
  }

  /** "Never both a value and an error", and the native promise agrees with the flags, after any sequence of calls. */
  lemma {:induction false} RunPreservesValid<V, E>(c: Cell<V, E>, ops: seq<Op<V, E>>)
    requires Valid(c)
    ensures Valid(Run(c, ops))
    ensures !(Run(c, ops).hasValue && Run(c, ops).hasErr)
    decreases |ops|
  {
    if ops != [] {
      ApplyPreservesValid(c, ops[0]);
      RunPreservesValid(Apply(c, ops[0]), ops[1..]);
    }
  }

  /** Once an error is recorded, no later call records a value: the cell stays rejected. */
  lemma {:induction false} ErrorIsSticky<V, E>(c: Cell<V, E>, ops: seq<Op<V, E>>)
    requires Valid(c) && c.hasErr
    ensures Run(c, ops).hasErr && !Run(c, ops).hasValue
    ensures Run(c, ops).actual.Some? ==> Run(c, ops).actual.value.Rejected?
    decreases |ops|
  {
    if ops != [] {
      ApplyPreservesValid(c, ops[0]);
      ErrorIsSticky(Apply(c, ops[0]), ops[1..]);
    }
  }

  /** Once a value is recorded, no later call records an error: the cell stays resolved. */
  lemma {:induction false} ValueIsSticky<V, E>(c: Cell<V, E>, ops: seq<Op<V, E>>)
    requires Valid(c) && c.hasValue
    ensures Run(c, ops).hasValue && !Run(c, ops).hasErr
    ensures Run(c, ops).actual.Some? ==> Run(c, ops).actual.value.Fulfilled?
    decreases |ops|
  {
    if ops != [] {
      ApplyPreservesValid(c, ops[0]);
      ValueIsSticky(Apply(c, ops[0]), ops[1..]);
    }
  }

  /** A canceled cell ignores everything: no value, no error, no native promise, no report. */
  lemma {:induction false} CanceledIsInert<V, E>(c: Cell<V, E>, ops: seq<Op<V, E>>)
    requires c.isCanceled
    ensures Run(c, ops) == c
    decreases |ops|
  {
    if ops != [] {
      CanceledIsInert(Apply(c, ops[0]), ops[1..]);
    }
  }

  /** Once the native promise exists, its settlement never changes after it leaves Pending. */
  lemma {:induction false} SettledPromiseIsImmutable<V, E>(c: Cell<V, E>, ops: seq<Op<V, E>>)
    requires c.actual.Some? && !c.actual.value.Pending?
    ensures Run(c, ops).actual == c.actual
    decreases |ops|
  {
    if ops != [] {
      SettledPromiseIsImmutable(Apply(c, ops[0]), ops[1..]);
    }
  }

  /** One step of the attach-early / attach-late simulation. */
  lemma AttachStep<V, E>(early: Cell<V, E>, late: Cell<V, E>, op: Op<V, E>)
    requires Valid(early) && Valid(late) && IsResolution(op)
    requires early.actual.Some? && late.actual.None?
    requires early.hasValue == late.hasValue && early.hasErr == late.hasErr && early.isCanceled == late.isCanceled
    ensures Apply(early, op).actual.Some? && Apply(late, op).actual.None?
    ensures Apply(early, op).hasValue == Apply(late, op).hasValue
    ensures Apply(early, op).hasErr == Apply(late, op).hasErr
    ensures Apply(early, op).isCanceled == Apply(late, op).isCanceled
  {
  }

  lemma {:induction false} AttachSimulation<V, E>(early: Cell<V, E>, late: Cell<V, E>, ops: seq<Op<V, E>>)
    requires Valid(early) && Valid(late)
    requires early.actual.Some? && late.actual.None?
    requires early.hasValue == late.hasValue && early.hasErr == late.hasErr && early.isCanceled == late.isCanceled
    requires forall i | 0 <= i < |ops| :: IsResolution(ops[i])
    ensures Run(early, ops).actual.Some? && Run(late, ops).actual.None?
    ensures Run(early, ops).hasValue == Run(late, ops).hasValue
    ensures Run(early, ops).hasErr == Run(late, ops).hasErr
    decreases |ops|
  {
    if ops != [] {
      AttachStep(early, late, ops[0]);
      ApplyPreservesValid(early, ops[0]);
      ApplyPreservesValid(late, ops[0]);
      AttachSimulation(Apply(early, ops[0]), Apply(late, ops[0]), ops[1..]);
    }
  }

  /**
   * Attaching before or after the producer settles the cell observes the same
   * kind of outcome (pending, fulfilled or rejected); with a single resolution
   * it observes the same value or error too. With several accepted
   * resolutions the early consumer sees the first and the late one the last,
   * because `value` and `err` are overwritten while the native promise settles once.
   */
  lemma AttachOrderIndependence<V, E>(ops: seq<Op<V, E>>)
    requires forall i | 0 <= i < |ops| :: IsResolution(ops[i])
    ensures Run(AfterEnsureActual(Fresh<V, E>()), ops).actual.Some?
    ensures SameKind(Run(AfterEnsureActual(Fresh<V, E>()), ops).actual.value, AfterEnsureActual(Run(Fresh<V, E>(), ops)).actual.value)
    ensures |ops| == 1 ==> Run(AfterEnsureActual(Fresh<V, E>()), ops).actual == AfterEnsureActual(Run(Fresh<V, E>(), ops)).actual
  {
    var early, late := AfterEnsureActual(Fresh<V, E>()), Fresh<V, E>();
    AttachSimulation(early, late, ops);
    RunPreservesValid(early, ops);
    RunPreservesValid(late, ops);
    ApplyPreservesValid(AfterEnsureActual(Run(late, ops)), ThenOp);
    if |ops| == 1 {
      assert Run(early, ops) == Apply(early, ops[0]);
      assert Run(late, ops) == Apply(late, ops[0]);
    }
  }

  /** Before anyone attaches, the last accepted value is the one a late consumer is given. */
  lemma LateAttachReplaysLastValue<V, E>(c: Cell<V, E>, v: V)
    requires Valid(c) && c.actual.None? && !c.isCanceled && !c.hasErr
    ensures AfterThen(AfterResolveOk(c, v)).1 == Chained(Fulfilled(v))
  {
  }

  /** An error recorded with no consumer is reported to the diagnostic sink, and a late consumer still sees it. */
  lemma UnconsumedErrorIsReported<V, E>(c: Cell<V, E>, e: E)
    requires Valid(c) && c.actual.None? && !c.isCanceled && !c.hasValue
    ensures AfterResolveErr(c, e).reported == c.reported + [e]
    ensures AfterCatch(AfterResolveErr(c, e)).1 == Chained(Rejected(e))
  {
  }

  /**
   * The LazyPromise object. Its fields are those of the source; `reported`
   * stands for the `console.error` sink.
   */
  class LazyPromise<V, E> {
    var actual: Option<Settlement<V, E>>
    var hasValue: bool
    var value: Option<V>
    var hasErr: bool
    var err: Option<E>
    var isCanceled: bool
    var reported: seq<E>

    function State(): Cell<V, E>
      reads this
    {
      Cell(hasValue, value, hasErr, err, isCanceled, actual, reported)
    }

    constructor ()
      ensures State() == Fresh()
      ensures !hasValue && !hasErr && !isCanceled && actual.None?
    {
      actual := None;
      hasValue := false;
      value := None;
      hasErr := false;
      err := None;
      isCanceled := false;
      reported := [];
    }

    method EnsureActual() returns (s: Settlement<V, E>)
      requires Valid(State())
      modifies this
      ensures State() == AfterEnsureActual(old(State()))
      ensures Valid(State()) && actual == Some(s)
      ensures old(actual).Some? ==> actual == old(actual)
    {
      if actual.None? {
        var settled: Settlement<V, E> := Pending;
        if hasValue && value.Some? {
          settled := Fulfilled(value.value);
        }
        if hasErr && err.Some? {
          settled := Settle(settled, Rejected(err.value));
        }
        actual := Some(settled);
      }
      s := actual.value;
    }

    method ResolveOk(v: V)
      requires Valid(State())
      modifies this
      ensures State() == AfterResolveOk(old(State()), v)
      ensures Valid(State())
      ensures old(isCanceled || hasErr) ==> State() == old(State())
      ensures !old(isCanceled || hasErr) ==> hasValue && value == Some(v)
    {
      if isCanceled || hasErr {
        return;
      }
      hasValue := true;
      value := Some(v);
      if actual.Some? {
        actual := Some(Settle(actual.value, Fulfilled(v)));
      }
    }

    method ResolveErr(e: E)
      requires Valid(State())
      modifies this
      ensures State() == AfterResolveErr(old(State()), e)
      ensures Valid(State())
      ensures old(isCanceled || hasValue) ==> State() == old(State())
      ensures !old(isCanceled || hasValue) ==> hasErr && err == Some(e)
      ensures !old(isCanceled || hasValue) && old(actual).None? ==> reported == old(reported) + [e]
    {
      if isCanceled || hasValue {
        return;
      }
      hasErr := true;
      err := Some(e);
      if actual.Some? {
        actual := Some(Settle(actual.value, Rejected(e)));
      } else {
        reported := reported + [e];
      }
    }

    method Then() returns (r: Attached<V, E>)
      requires Valid(State())
      modifies this
      ensures (State(), r) == AfterThen(old(State()))
      ensures Valid(State())
    {
      if isCanceled {
        return Undefined;
      }
      var s := EnsureActual();
      r := Chained(s);
    }

    method Catch() returns (r: Attached<V, E>)
      requires Valid(State())
      modifies this
      ensures (State(), r) == AfterCatch(old(State()))
      ensures Valid(State())
    {
      if isCanceled {
        return Itself;
      }
      var s := EnsureActual();
      r := Chained(s);
    }
  }
}
