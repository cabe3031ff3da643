/**
  Execution of an Atomic Operations request. The application's callbacks may succeed, fail or panic
  at every step and the caller may cancel between any two; the driver has to keep the protocol.
 */
module AtomicExecution {
  import opened Documents
  import opened Identity
  import opened Atomic

  datatype Phase = BeginPhase | ApplyPhase | ResultValidationPhase | CommitPhase

  /** How a callback ends: it returns, it returns an error, or it panics. */
  datatype Outcome<+T> = Returned(value: T) | Errored | Panicked

  /** Why an execution failed; a panic is remembered with the callback that raised it. */
  datatype Cause =
    | MissingBeginner
    | MissingContext
    | Cancelled
    | NilTransaction
    | CallbackError
    | CallbackPanic
    | InvalidResults

  datatype ExecutionError = ExecutionError(
    phase: Phase, operationIndex: int, cause: Cause, rollbackCause: Option<Cause>)

  datatype Execution =
    | InvalidRequest
    | Failed(error: ExecutionError)
    | Done(results: seq<OperationResult>)

  // What the callbacks do.

  /** One call of a callback. `usable` says that no error and a non-nil transaction came back. */
  datatype Event =
    | Begin(usable: bool)
    | Apply(operation: Operation, result: Option<OperationResult>)
    | Commit(succeeded: bool)
    | Rollback(succeeded: bool)

  /** The application: what applying one operation does to its state, and the result it reports. */
  datatype Application<!S> = Application(step: (S, Operation) -> (S, OperationResult))

  /** All operations applied in order. */
  ghost function Fold<S>(application: Application<S>, state: S, operations: seq<Operation>): (S, seq<OperationResult>) {
    if operations == [] then (state, [])
    else
      var before := Fold(application, state, operations[..|operations| - 1]);
      var after := application.step(before.0, operations[|operations| - 1]);
      (after.0, before.1 + [after.1])
  }

  /** A context whose cancellation can happen at any moment and is permanent. */
  class CallerContext {
    var cancelled: bool

    constructor ()
    {
      cancelled := *;
    }

    method Err() returns (cause: Option<Cause>)
      modifies this
      ensures old(cancelled) ==> cancelled
      ensures cause == if cancelled then Some(Cancelled) else None
    {
      var now: bool := *;
      cancelled := cancelled || now;
      cause := if cancelled then Some(Cancelled) else None;
    }
  }

  /**
    An application-owned store. Its transaction stages changes; a commit that succeeds publishes
    them, a commit that fails and a rollback publish nothing. Which callbacks fail is arbitrary.
   */
  class Store<!S(0)> {
    const application: Application<S>
    var committed: S
    var staged: S
    ghost var trace: seq<Event>
    /** Whether the last callback panicked. */
    ghost var panicked: bool

    constructor (application: Application<S>, initial: S)
      ensures committed == initial && trace == [] && this.application == application
    {
      this.application := application;
      committed, staged := initial, initial;
      trace, panicked := [], false;
    }

    method BeginAtomic() returns (outcome: Outcome<bool>)
      modifies this
      ensures committed == old(committed)
      ensures outcome == Returned(true) ==> staged == committed
      ensures trace == old(trace) + [Begin(outcome == Returned(true))]
      ensures panicked == outcome.Panicked?
    {
      outcome := *;
      staged := committed;
      panicked := outcome.Panicked?;
      trace := trace + [Begin(outcome == Returned(true))];
    }

    method ApplyAtomic(operation: Operation) returns (outcome: Outcome<OperationResult>)
      modifies this
      ensures committed == old(committed)
      ensures outcome.Returned? ==> (staged, outcome.value) == application.step(old(staged), operation)
      ensures trace == old(trace) + [Apply(operation, if outcome.Returned? then Some(outcome.value) else None)]
      ensures panicked == outcome.Panicked?
    {
      var effect := application.step(staged, operation);
      outcome := *;
      if outcome.Returned? {
        staged := effect.0;
        outcome := Returned(effect.1);
      } else {
        staged := *;
      }
      panicked := outcome.Panicked?;
      trace := trace + [Apply(operation, if outcome.Returned? then Some(outcome.value) else None)];
    }

    method CommitAtomic() returns (outcome: Outcome<()>)
      modifies this
      ensures committed == if outcome.Returned? then old(staged) else old(committed)
      ensures trace == old(trace) + [Commit(outcome.Returned?)]
      ensures panicked == outcome.Panicked?
    {
      outcome := *;
      if outcome.Returned? {
        committed := staged;
      }
      panicked := outcome.Panicked?;
      trace := trace + [Commit(outcome.Returned?)];
    }

    method RollbackAtomic() returns (outcome: Outcome<()>)
      modifies this
      ensures committed == old(committed)
      ensures trace == old(trace) + [Rollback(outcome.Returned?)]
      ensures panicked == outcome.Panicked?
    {
      outcome := *;
      staged := committed;
      panicked := outcome.Panicked?;
      trace := trace + [Rollback(outcome.Returned?)];
    }
  }

  // The recovering wrappers: a panic becomes an error, and what the callback returned is dropped.

  method BeginSafely<S(0)>(beginner: Store<S>) returns (usable: bool, failure: Option<Cause>)
    modifies beginner
    ensures beginner.committed == old(beginner.committed)
    ensures failure.None? && usable ==> beginner.staged == beginner.committed
    ensures beginner.trace == old(beginner.trace) + [Begin(failure.None? && usable)]
    ensures failure.Some? ==> failure.value == if beginner.panicked then CallbackPanic else CallbackError
    ensures beginner.panicked ==> failure.Some?
  {
    var outcome := beginner.BeginAtomic();
    match outcome {
      case Returned(transaction) => return transaction, None;
      case Errored => return false, Some(CallbackError);
      case Panicked => return false, Some(CallbackPanic);
    }
  }

  method ApplySafely<S(0)>(transaction: Store<S>, operation: Operation)
    returns (result: OperationResult, failure: Option<Cause>)
    modifies transaction
    ensures transaction.committed == old(transaction.committed)
    ensures failure.None? ==>
      (transaction.staged, result) == transaction.application.step(old(transaction.staged), operation)
    ensures transaction.trace ==
      old(transaction.trace) + [Apply(operation, if failure.None? then Some(result) else None)]
    ensures failure.Some? ==> failure.value == if transaction.panicked then CallbackPanic else CallbackError
    ensures transaction.panicked ==> failure.Some?
  {
    var outcome := transaction.ApplyAtomic(operation);
    match outcome {
      case Returned(value) => return value, None;
      case Errored => return OperationResult(None, None), Some(CallbackError);
      case Panicked => return OperationResult(None, None), Some(CallbackPanic);
    }
  }

  function Failure(outcome: Outcome<()>): Option<Cause> {
    match outcome
    case Returned(_) => None
    case Errored => Some(CallbackError)
    case Panicked => Some(CallbackPanic)
  }

  method CommitSafely<S(0)>(transaction: Store<S>) returns (failure: Option<Cause>)
    modifies transaction
    ensures transaction.committed == if failure.None? then old(transaction.staged) else old(transaction.committed)
    ensures transaction.trace == old(transaction.trace) + [Commit(failure.None?)]
    ensures failure.Some? ==> failure.value == if transaction.panicked then CallbackPanic else CallbackError
    ensures transaction.panicked ==> failure.Some?
  {
    var outcome := transaction.CommitAtomic();
    failure := Failure(outcome);
  }

  method RollbackSafely<S(0)>(transaction: Store<S>) returns (failure: Option<Cause>)
    modifies transaction
    ensures transaction.committed == old(transaction.committed)
    ensures transaction.trace == old(transaction.trace) + [Rollback(failure.None?)]
    ensures failure.Some? ==> failure.value == if transaction.panicked then CallbackPanic else CallbackError
    ensures transaction.panicked ==> failure.Some?
  {
    var outcome := transaction.RollbackAtomic();
    failure := Failure(outcome);
  }

  /** `atomicExecutionFailure`: one rollback, whose own failure is reported beside the cause. */
  method ExecutionFailure<S(0)>(transaction: Store<S>, phase: Phase, operationIndex: int, cause: Cause)
    returns (error: ExecutionError)
    modifies transaction
    ensures error.phase == phase && error.operationIndex == operationIndex && error.cause == cause
    ensures transaction.committed == old(transaction.committed)
    ensures transaction.trace == old(transaction.trace) + [Rollback(error.rollbackCause.None?)]
    ensures error.rollbackCause.Some? ==>
      error.rollbackCause.value == if transaction.panicked then CallbackPanic else CallbackError
  {
    var rollbackCause := RollbackSafely(transaction);
    error := ExecutionError(phase, operationIndex, cause, rollbackCause);
  }

  // The protocol.

  /** The events of applying operations successfully, in document order. */
  function Applies(operations: seq<Operation>, results: seq<OperationResult>): seq<Event>
    requires |operations| == |results|
  {
    seq(|operations|, i requires 0 <= i < |operations| => Apply(operations[i], Some(results[i])))
  }

  /**
    The call traces of an execution and the outcome each one comes with; `results` are what the
    successful calls of Apply returned.
   */
  ghost predicate IsRun(
    run: seq<Event>, operations: seq<Operation>, results: seq<OperationResult>, outcome: Execution)
  {
    match outcome
    case InvalidRequest => run == []
    case Done(response) =>
      response == results && |results| == |operations|
      && run == [Begin(true)] + Applies(operations, results) + [Commit(true)]
    case Failed(error) =>
      match error.phase
      case BeginPhase => error.operationIndex == -1 && error.rollbackCause.None? && run in {[], [Begin(false)]}
      case ApplyPhase =>
        && 0 <= error.operationIndex < |operations| && |results| == error.operationIndex
        && run == [Begin(true)] + Applies(operations[..|results|], results)
             + (if error.cause == Cancelled then [] else [Apply(operations[|results|], None)])
             + [Rollback(error.rollbackCause.None?)]
      case ResultValidationPhase =>
        && error.operationIndex == -1 && |results| == |operations| && error.cause == InvalidResults
        && run == [Begin(true)] + Applies(operations, results) + [Rollback(error.rollbackCause.None?)]
      case CommitPhase =>
        && error.operationIndex == -1 && |results| == |operations|
        && run == [Begin(true)] + Applies(operations, results)
             + (if error.cause == Cancelled then [] else [Commit(false)])
             + [Rollback(error.rollbackCause.None?)]
  }

  function ResponseDocument(results: seq<OperationResult>): AtomicDocument {
    AtomicDocument(None, None, None, Some(results), None, None)
  }

  /**
    `ExecuteAtomic`. Whatever the callbacks do and whenever the caller cancels, the calls made are a
    run of the protocol, and the store ends up either as it was or with every operation applied.
   */
  method ExecuteAtomic<S(0)>(ctx: CallerContext?, beginner: Store?<S>, document: AtomicDocument, shapes: Shapes)
    returns (outcome: Execution, ghost run: seq<Event>, ghost returned: seq<OperationResult>)
    modifies ctx, beginner
    ensures beginner != null ==> beginner.trace == old(beginner.trace) + run
    ensures beginner == null ==> run == []
    ensures outcome.InvalidRequest? <==> !ValidDocument(document, Options(Request, 0, None), shapes)
    ensures IsRun(run, Items(document.operations), returned, outcome)
    ensures ctx != null && old(ctx.cancelled) ==> run == []
    ensures outcome.Done? ==> Answers(outcome.results, Items(document.operations), shapes)
    ensures outcome.Failed? && outcome.error.phase == ResultValidationPhase ==>
      Misfits(returned, Items(document.operations), shapes)
    ensures Commit(false) in run || Commit(true) in run ==> Answers(returned, Items(document.operations), shapes)
    ensures outcome.Done? ==>
      && beginner != null
      && (beginner.committed, outcome.results)
         == Fold(beginner.application, old(beginner.committed), Items(document.operations))
    ensures !outcome.Done? && beginner != null ==> beginner.committed == old(beginner.committed)
  {
    hide Fold, ValidDocument, Answers, Misfits, IsRun, Applies;
    NothingIsCalled(Items(document.operations));
    run, returned := [], [];
    var violations := ValidateWith(document, Options(Request, 0, None), shapes);
    if violations != 0 {
      return InvalidRequest, run, returned;
    }
    AcceptedRequest(document, shapes);
    if beginner == null {
      return Failed(ExecutionError(BeginPhase, -1, MissingBeginner, None)), run, returned;
    }
    if ctx == null {
      return Failed(ExecutionError(BeginPhase, -1, MissingContext, None)), run, returned;
    }
    var contextErr := ctx.Err();
    if contextErr.Some? {
      return Failed(ExecutionError(BeginPhase, -1, contextErr.value, None)), run, returned;
    }
    var usable, failure := BeginSafely(beginner);
    run := [Begin(failure.None? && usable)];
    if failure.Some? {
      return Failed(ExecutionError(BeginPhase, -1, failure.value, None)), run, returned;
    }
    if !usable {
      return Failed(ExecutionError(BeginPhase, -1, NilTransaction, None)), run, returned;
    }
    var applied, results, applyError := ApplyAll(ctx, beginner, document.operations.value);
    returned := results;
    run := run + applied;
    if applyError.Some? {
      ApplyingFails(run, document.operations.value, results, applyError.value);
      return Failed(applyError.value), run, returned;
    }
    var finalError;
    ghost var final;
    finalError, final := Finish(ctx, beginner, document.operations.value, results, shapes);
    run := run + final;
    outcome := if finalError.Some? then Failed(finalError.value) else Done(results);
    FinishingEnds(run, document.operations.value, results, final, outcome);
  }

  lemma NothingIsCalled(operations: seq<Operation>)
    ensures IsRun([], operations, [], InvalidRequest)
    ensures forall cause :: IsRun([], operations, [], Failed(ExecutionError(BeginPhase, -1, cause, None)))
    ensures forall cause :: IsRun([Begin(false)], operations, [], Failed(ExecutionError(BeginPhase, -1, cause, None)))
  {
  }

  lemma ApplyingFails(
    run: seq<Event>, operations: seq<Operation>, results: seq<OperationResult>, error: ExecutionError)
    requires error.phase == ApplyPhase && error.operationIndex == |results| < |operations|
    requires run == [Begin(true)] + (Applies(operations[..|results|], results)
      + (if error.cause == Cancelled then [] else [Apply(operations[|results|], None)])
      + [Rollback(error.rollbackCause.None?)])
    ensures IsRun(run, operations, results, Failed(error))
    ensures forall succeeded :: Commit(succeeded) !in run
  {
    hide Applies;
    NoCommitAmongApplies(operations[..|results|], results);
  }

  lemma NoCommitAmongApplies(operations: seq<Operation>, results: seq<OperationResult>)
    requires |results| == |operations|
    ensures forall succeeded :: Commit(succeeded) !in Applies(operations, results)
  {
  }

  lemma FinishingEnds(
    run: seq<Event>, operations: seq<Operation>, results: seq<OperationResult>, final: seq<Event>, outcome: Execution)
    requires |results| == |operations| && run == [Begin(true)] + Applies(operations, results) + final
    requires outcome.Done? || (outcome.Failed? && outcome.error.operationIndex == -1)
    requires outcome.Done? ==> outcome.results == results && final == [Commit(true)]
    requires outcome.Failed? ==>
      || (outcome.error.phase == ResultValidationPhase && outcome.error.cause == InvalidResults
          && final == [Rollback(outcome.error.rollbackCause.None?)])
      || (outcome.error.phase == CommitPhase
          && final == (if outcome.error.cause == Cancelled then [] else [Commit(false)])
               + [Rollback(outcome.error.rollbackCause.None?)])
    ensures IsRun(run, operations, results, outcome)
    ensures forall succeeded :: Commit(succeeded) in run ==> Commit(succeeded) in final
  {
    hide Applies;
    NoCommitAmongApplies(operations, results);
  }

  /** The results of a response that passes validation against its request. */
  ghost predicate Answers(results: seq<OperationResult>, operations: seq<Operation>, shapes: Shapes) {
    |results| == |operations| && forall i :: 0 <= i < |results| ==> Fits(results[i], operations[i], shapes.resource)
  }

  /** One result for each operation, and one that does not answer its own. */
  ghost predicate Misfits(results: seq<OperationResult>, operations: seq<Operation>, shapes: Shapes) {
    |results| == |operations| && exists i :: 0 <= i < |results| && !Fits(results[i], operations[i], shapes.resource)
  }

  /** The loop over the operations, up to the first failure. */
  method ApplyAll<S(0)>(ctx: CallerContext, transaction: Store<S>, operations: seq<Operation>)
    returns (ghost events: seq<Event>, results: seq<OperationResult>, error: Option<ExecutionError>)
    modifies ctx, transaction
    ensures transaction.trace == old(transaction.trace) + events
    ensures transaction.committed == old(transaction.committed)
    ensures error.None? ==> |results| == |operations| && events == Applies(operations, results)
    ensures error.None? ==>
      (transaction.staged, results) == Fold(transaction.application, old(transaction.staged), operations)
    ensures error.Some? ==>
      && error.value.phase == ApplyPhase && error.value.operationIndex == |results| < |operations|
      && events == Applies(operations[..|results|], results)
           + (if error.value.cause == Cancelled then [] else [Apply(operations[|results|], None)])
           + [Rollback(error.value.rollbackCause.None?)]
  {
    results, events := [], [];
    for index := 0 to |operations|
      invariant |results| == index
      invariant events == Applies(operations[..index], results)
      invariant transaction.trace == old(transaction.trace) + events
      invariant transaction.committed == old(transaction.committed)
      invariant (transaction.staged, results)
        == Fold(transaction.application, old(transaction.staged), operations[..index])
    {
      var operation := operations[index];
      var contextErr := ctx.Err();
      if contextErr.Some? {
        var failure := ExecutionFailure(transaction, ApplyPhase, index, contextErr.value);
        events := events + [Rollback(failure.rollbackCause.None?)];
        return events, results, Some(failure);
      }
      var result, applyErr := ApplySafely(transaction, operation);
      if applyErr.Some? {
        var failure := ExecutionFailure(transaction, ApplyPhase, index, applyErr.value);
        events := events + [Apply(operation, None)] + [Rollback(failure.rollbackCause.None?)];
        return events, results, Some(failure);
      }
      assert operations[..index + 1][..index] == operations[..index];
      events := events + [Apply(operation, Some(result))];
      results := results + [result];
    }
    assert operations[..|operations|] == operations;
    error := None;
  }

  /** What happens after the last operation: cancellation check, validation, commit. */
  method Finish<S(0)>(
    ctx: CallerContext, transaction: Store<S>, operations: seq<Operation>, results: seq<OperationResult>, shapes: Shapes)
    returns (error: Option<ExecutionError>, ghost events: seq<Event>)
    requires operations != [] && |results| == |operations|
    modifies ctx, transaction
    ensures transaction.trace == old(transaction.trace) + events
    ensures error.None? ==>
      && Answers(results, operations, shapes) && events == [Commit(true)]
      && transaction.committed == old(transaction.staged)
    ensures error.Some? ==> transaction.committed == old(transaction.committed) && error.value.operationIndex == -1
    ensures error.Some? ==>
      || (error.value.phase == ResultValidationPhase && error.value.cause == InvalidResults
          && Misfits(results, operations, shapes) && events == [Rollback(error.value.rollbackCause.None?)])
      || (error.value.phase == CommitPhase
          && (error.value.cause != Cancelled ==> Answers(results, operations, shapes))
          && events == (if error.value.cause == Cancelled then [] else [Commit(false)])
               + [Rollback(error.value.rollbackCause.None?)])
  {
    events := [];
    var contextErr := ctx.Err();
    if contextErr.Some? {
      var failure := ExecutionFailure(transaction, CommitPhase, -1, contextErr.value);
      return Some(failure), [Rollback(failure.rollbackCause.None?)];
    }
    AcceptedResponse(results, operations, shapes);
    var violations := ValidateWith(
      ResponseDocument(results), Options(Response, |operations|, Some(operations)), shapes);
    if violations != 0 {
      var failure := ExecutionFailure(transaction, ResultValidationPhase, -1, InvalidResults);
      return Some(failure), [Rollback(failure.rollbackCause.None?)];
    }
    var commitErr := CommitSafely(transaction);
    if commitErr.Some? {
      var failure := ExecutionFailure(transaction, CommitPhase, -1, commitErr.value);
      return Some(failure), [Commit(false), Rollback(failure.rollbackCause.None?)];
    }
    return None, [Commit(true)];
  }

  // What every run has in common.

  /** Rollback is called once exactly when a usable transaction was obtained and an error is returned. */
  lemma RollbackExactlyOnce(
    run: seq<Event>, operations: seq<Operation>, results: seq<OperationResult>, outcome: Execution)
    requires IsRun(run, operations, results, outcome)
    ensures Rollbacks(run) == if Begin(true) in run && !outcome.Done? then {|run| - 1} else {}
  {
    forall i | 0 <= i < |run| ensures run[i].Begin? <==> i == 0 {
      AppliedInOrder(run, operations, results, outcome, i);
    }
    assert Begin(true) in run <==> run != [] && run[0] == Begin(true);
  }

  /** The positions at which Rollback is called. */
  ghost function Rollbacks(run: seq<Event>): set<nat> {
    set i | 0 <= i < |run| && run[i].Rollback?
  }

  /** The run applies the first operations successfully, right after Begin. */
  ghost predicate AppliedUpTo(run: seq<Event>, operations: seq<Operation>, results: seq<OperationResult>, count: nat) {
    count < |run| && forall j :: 0 <= j < count ==>
      j < |operations| && j < |results| && run[j + 1] == Apply(operations[j], Some(results[j]))
  }

  /** What comes after Begin and the successful calls of Apply in a run with this outcome. */
  function Ending(operations: seq<Operation>, outcome: Execution): seq<Event>
    requires outcome.Failed? && outcome.error.phase == ApplyPhase ==>
      0 <= outcome.error.operationIndex < |operations|
  {
    match outcome
    case InvalidRequest => []
    case Done(_) => [Commit(true)]
    case Failed(error) =>
      match error.phase
      case BeginPhase => []
      case ApplyPhase =>
        (if error.cause == Cancelled then [] else [Apply(operations[error.operationIndex], None)])
        + [Rollback(error.rollbackCause.None?)]
      case ResultValidationPhase => [Rollback(error.rollbackCause.None?)]
      case CommitPhase =>
        (if error.cause == Cancelled then [] else [Commit(false)]) + [Rollback(error.rollbackCause.None?)]
  }

  /** Either nothing is called after Begin, or the run continues with some operations and an ending. */
  lemma RunsHaveEndings(
    run: seq<Event>, operations: seq<Operation>, results: seq<OperationResult>, outcome: Execution)
    requires IsRun(run, operations, results, outcome)
    ensures |run| > 1 ==>
      && |results| <= |operations|
      && (outcome.Failed? && outcome.error.phase == ApplyPhase ==> outcome.error.operationIndex == |results| < |operations|)
      && (!(outcome.Failed? && outcome.error.phase == ApplyPhase) ==> |results| == |operations|)
      && run == [Begin(true)] + Applies(operations[..|results|], results) + Ending(operations, outcome)
    ensures |run| <= 1 ==> run in {[], [Begin(false)]}
  {
    hide Applies;
    assert operations[..|operations|] == operations;
    if |results| <= |operations| {
      AppliesAll(operations[..|results|], results);
    }
  }

  lemma AppliesAll(operations: seq<Operation>, results: seq<OperationResult>)
    requires |operations| == |results|
    ensures |Applies(operations, results)| == |results|
    ensures forall i :: 0 <= i < |results| ==> Applies(operations, results)[i] == Apply(operations[i], Some(results[i]))
  {
  }

  lemma ShapeOfRun(run: seq<Event>, operations: seq<Operation>, results: seq<OperationResult>, rest: seq<Event>)
    requires |results| <= |operations| && run == [Begin(true)] + Applies(operations[..|results|], results) + rest
    ensures |run| == 1 + |results| + |rest| && run[0] == Begin(true)
    ensures forall i :: 0 < i <= |results| ==> run[i] == Apply(operations[i - 1], Some(results[i - 1]))
    ensures forall i :: |results| < i < |run| ==> run[i] == rest[i - 1 - |results|]
  {
    hide Applies;
    AppliesAll(operations[..|results|], results);
  }

  lemma ShapeApplies(run: seq<Event>, operations: seq<Operation>, results: seq<OperationResult>, count: nat)
    requires count <= |results| <= |operations| && count < |run|
    requires forall i :: 0 < i <= |results| && i < |run| ==> run[i] == Apply(operations[i - 1], Some(results[i - 1]))
    ensures AppliedUpTo(run, operations, results, count)
  {
  }

  /** Every operation handed to the application comes in document order, and Commit only after all of them. */
  lemma AppliedInOrder(
    run: seq<Event>, operations: seq<Operation>, results: seq<OperationResult>, outcome: Execution, i: nat)
    requires IsRun(run, operations, results, outcome) && i < |run|
    ensures run[i].Begin? <==> i == 0
    ensures run[i].Apply? ==>
      && 0 < i <= |operations| && run[i].operation == operations[i - 1]
      && AppliedUpTo(run, operations, results, i - 1)
    ensures run[i].Commit? ==>
      i == |operations| + 1 && |results| == |operations| && AppliedUpTo(run, operations, results, |operations|)
  {
    hide IsRun, Applies, AppliedUpTo;
    RunsHaveEndings(run, operations, results, outcome);
    if |run| > 1 {
      ShapeOfRun(run, operations, results, Ending(operations, outcome));
      if 0 < i <= |results| + 1 {
        ShapeApplies(run, operations, results, i - 1);
      }
    }
  }

  /**
    Whenever Apply is called for an operation, the target it names by a local identifier was added by
    an Apply that has already succeeded, and so was everything its data names, unless by itself.
   */
  lemma LocalReferencesAreApplied(
    run: seq<Event>, operations: seq<Operation>, results: seq<OperationResult>, outcome: Execution, i: nat)
    requires IsRun(run, operations, results, outcome) && NothingUnresolved(operations)
    requires i < |run| && run[i].Apply?
    ensures RefLid(run[i].operation).Some? ==> AppliedBefore(run, i, Key(RefLid(run[i].operation).value))
    ensures forall alias :: alias in DataLids(run[i].operation) ==>
      AppliedBefore(run, i, Key(alias)) || Introduces(run[i].operation, Key(alias))
  {
    hide IsRun, DataLids, Introduces, Assigned, AppliedBefore, NothingUnresolved, AppliedUpTo;
    var k := i - 1;
    AppliedInOrder(run, operations, results, outcome, i);
    if RefLid(operations[k]).Some? {
      TargetIsAssigned(operations, k);
      AddsAreApplied(run, operations, results, i, k, Key(RefLid(operations[k]).value));
    }
    forall alias | alias in DataLids(operations[k])
      ensures AppliedBefore(run, i, Key(alias)) || Introduces(operations[k], Key(alias))
    {
      DataIsAssigned(operations, k, alias);
      if !Introduces(operations[k], Key(alias)) {
        AddsAreApplied(run, operations, results, i, k, Key(alias));
      }
    }
  }

  lemma TargetIsAssigned(operations: seq<Operation>, k: nat)
    requires NothingUnresolved(operations) && k < |operations| && RefLid(operations[k]).Some?
    ensures Assigned(operations, k, Key(RefLid(operations[k]).value))
  {
    assert !IsUnresolved(operations, Unresolved(k, true, RefLid(operations[k]).value));
  }

  lemma DataIsAssigned(operations: seq<Operation>, k: nat, alias: Alias)
    requires NothingUnresolved(operations) && k < |operations| && alias in DataLids(operations[k])
    ensures Assigned(operations, k, Key(alias)) || Introduces(operations[k], Key(alias))
  {
    hide DataLids;
    assert !IsUnresolved(operations, Unresolved(k, false, alias));
  }

  /** Before position `i` of the run, an operation that adds a resource under this key has been applied. */
  ghost predicate AppliedBefore(run: seq<Event>, i: nat, key: string) {
    exists j :: 0 <= j < i && j < |run| && run[j].Apply? && run[j].result.Some? && Introduces(run[j].operation, key)
  }

  lemma AddsAreApplied(
    run: seq<Event>, operations: seq<Operation>, results: seq<OperationResult>, i: nat, k: nat, key: string)
    requires k + 1 == i < |run| && AppliedUpTo(run, operations, results, k) && Assigned(operations, k, key)
    ensures AppliedBefore(run, i, key)
  {
    var j :| 0 <= j < k && j < |operations| && Introduces(operations[j], key);
    assert run[j + 1] == Apply(operations[j], Some(results[j]));
  }

  /** Before position `i` of the run, an operation that adds this local identifier has been applied. */
  ghost predicate AddApplied(run: seq<Event>, i: nat, resourceType: string, lid: string) {
    exists j :: 0 <= j < i && j < |run| && run[j].Apply? && run[j].result.Some? && Adds(run[j].operation, resourceType, lid)
  }

  /** The same on the fields of the operations, over plain types. */
  lemma ReferencesAreAppliedOnFields(
    run: seq<Event>, operations: seq<Operation>, results: seq<OperationResult>, outcome: Execution, i: nat,
    resourceType: string, lid: string)
    requires IsRun(run, operations, results, outcome) && NothingUnresolved(operations)
    requires forall j :: 0 <= j < |operations| ==> PlainOperation(operations[j])
    requires i < |run| && run[i].Apply?
    ensures Targets(run[i].operation, resourceType, lid) ==> AddApplied(run, i, resourceType, lid)
    ensures Mentions(run[i].operation, resourceType, lid) ==>
      AddApplied(run, i, resourceType, lid) || Adds(run[i].operation, resourceType, lid)
  {
    hide IsRun, Adds, Targets, Mentions, AppliedUpTo, Dangles, NothingUnresolved, PlainOperation;
    AppliedInOrder(run, operations, results, outcome, i);
    var k := i - 1;
    ResolutionOnFields(operations);
    assert !Dangles(operations, k, true, resourceType, lid) && !Dangles(operations, k, false, resourceType, lid);
    InTime(operations, k, resourceType, lid);
    AddsHaveBeenApplied(run, operations, results, i, k, resourceType, lid);
  }

  lemma InTime(operations: seq<Operation>, k: nat, resourceType: string, lid: string)
    requires k < |operations|
    requires !Dangles(operations, k, true, resourceType, lid) && !Dangles(operations, k, false, resourceType, lid)
    ensures Targets(operations[k], resourceType, lid) ==> AddedUpTo(operations, k, resourceType, lid)
    ensures Mentions(operations[k], resourceType, lid) ==>
      AddedUpTo(operations, k, resourceType, lid) || Adds(operations[k], resourceType, lid)
  {
    hide Adds, Targets, Mentions;
  }

  lemma AddsHaveBeenApplied(
    run: seq<Event>, operations: seq<Operation>, results: seq<OperationResult>, i: nat, k: nat,
    resourceType: string, lid: string)
    requires k + 1 == i < |run| && AppliedUpTo(run, operations, results, k)
    ensures AddedUpTo(operations, k, resourceType, lid) ==> AddApplied(run, i, resourceType, lid)
  {
    hide Adds;
    if AddedUpTo(operations, k, resourceType, lid) {
      var j :| 0 <= j < k && j < |operations| && Adds(operations[j], resourceType, lid);
      assert run[j + 1] == Apply(operations[j], Some(results[j]));
    }
  }
}
