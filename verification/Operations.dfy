/** Durable AI operations: the persisted row, what every service call decides
    about it, and what a whole history of calls can and cannot do to it.

    The rows meant here are those of installs and activations. They are written
    by the store's compare-and-set update (`Apply`): each service method reads
    the row, refuses or plans a change (`Decide`), and hands the plan to that
    update. The store's other writers of such rows plan the same changes: a
    queue claim plans what `Start` plans, an activation commit what `Succeed`
    plans, and start-up recovery what `Fail` plans. The jobs of other kinds
    have writers of their own, which may queue a row again or replace its
    total, and are not modelled. */
module Operations {
  import opened Wrappers

  /** Milliseconds, the store's resolution; the zero time is `ZERO_TIME`. */
  type Time = int
  const ZERO_TIME: Time := 0
  type Instant = t: int | t != ZERO_TIME witness 1

  const MAX_ERROR_CODE: nat := 128

  datatype Kind =
    | ModelInstall | ModelActivate
    | SemanticMissing | SemanticRebuild | SemanticClear
    | TagSuggestionMissing | TagSuggestionRebuild | TagReviewClear
    | VideoSemanticMissing | VideoSemanticRebuild
    | FaceMissing | FaceRebuild | FaceDerivedClear | FaceManualClear
    | AutomaticTagsMissing | AutomaticTagsRebuild
    | UnknownKind(kindText: string)

  datatype State =
    | Queued | Running | Cancelling | Succeeded | Failed | Cancelled
    | UnknownState(stateText: string)

  datatype Phase =
    | PhaseQueued | Scanning | Verifying | Copying | Loading | Building
    | Validating | Clearing | Finalizing | PhaseCompleted
    | UnknownPhase(phaseText: string)

  datatype Operation = Operation(
    id: string, kind: Kind, state: State, phase: Phase, modelId: string, libraryId: int,
    completed: int, total: Option<int>, errorCode: string, revision: int,
    createdAt: Time, updatedAt: Time, finishedAt: Option<Time>)

  datatype Error =
    | NotFound | AlreadyFinished | InvalidTransition | PreconditionFailed
    | RepositoryState | ContextCanceled | ModelUnavailable

  // ---------------------------------------------------------------- rows

  predicate IsTerminal(state: State) {
    state == Succeeded || state == Failed || state == Cancelled
  }

  predicate IsActivePhase(phase: Phase) {
    !phase.UnknownPhase? && phase != PhaseQueued && phase != PhaseCompleted
  }

  /** What the service accepts as a well-formed row. */
  predicate ValidOperation(op: Operation) {
    && op.id != "" && !op.kind.UnknownKind? && !op.state.UnknownState? && !op.phase.UnknownPhase?
    && op.completed >= 0 && op.revision >= 1
    && op.createdAt != ZERO_TIME && op.updatedAt >= op.createdAt && |op.errorCode| <= MAX_ERROR_CODE
    && (op.total.Some? ==> 0 <= op.total.value && op.completed <= op.total.value)
    && (IsTerminal(op.state) <==> op.finishedAt.Some?)
    && (IsTerminal(op.state) ==> op.phase == PhaseCompleted)
    && match op.state {
         case Queued => op.phase == PhaseQueued && op.errorCode == ""
         case Running => IsActivePhase(op.phase) && op.errorCode == ""
         case Cancelling => IsActivePhase(op.phase) && op.errorCode == ""
         case Succeeded => op.errorCode == ""
         case Failed => op.errorCode != ""
         case Cancelled => op.errorCode != ""
         case UnknownState(_) => false
       }
  }

  /** The row every admission inserts. */
  predicate FreshOperation(op: Operation) {
    && op.id != "" && !op.kind.UnknownKind? && op.state == Queued && op.phase == PhaseQueued
    && op.completed == 0 && op.errorCode == "" && op.revision == 1
    && (op.total.Some? ==> op.total.value >= 0)
    && op.createdAt != ZERO_TIME && op.updatedAt == op.createdAt && op.finishedAt == None
  }

  function Max(a: int, b: int): int { if a >= b then a else b }

  // --------------------------------------------------------- service calls

  datatype Call =
    | Start(phase: Phase)
    | Progress(progressPhase: Phase, done: int, outOf: Option<int>)
    | RequestCancel
    | Succeed
    | FinishCancelled
    | Fail(code: string)

  datatype Change = Change(
    state: State, phase: Phase, completed: int, total: Option<int>, errorCode: string, finishedAt: Option<Time>)

  datatype Plan = Refuse(error: Error) | Keep | Write(change: Change)

  function Finish(op: Operation, state: State, code: string, at: Time): Plan {
    Write(Change(state, PhaseCompleted, op.completed, op.total, code, Some(at)))
  }

  /** What a call plans for the row it has just read, the revision having
      matched. `at` is the clock reading for a finish time. */
  function Decide(op: Operation, call: Call, at: Time): Plan {
    match call
    case Start(phase) =>
      if op.state != Queued || !IsActivePhase(phase) then Refuse(InvalidTransition)
      else Write(Change(Running, phase, op.completed, op.total, "", None))
    case Progress(phase, done, outOf) =>
      if op.state != Running || !IsActivePhase(phase) || done < op.completed
         || (outOf.Some? && (done > outOf.value || outOf.value < 0))
         || (op.total.Some? && outOf != op.total)
      then Refuse(InvalidTransition)
      else Write(Change(Running, phase, done, outOf, "", None))
    case RequestCancel => (
      match op.state
      case Queued => Finish(op, Cancelled, "cancelled", at)
      case Running => Write(Change(Cancelling, op.phase, op.completed, op.total, "", None))
      case Cancelling => Keep
      case _ => Refuse(AlreadyFinished))
    case Succeed =>
      if op.state != Running then Refuse(InvalidTransition) else Finish(op, Succeeded, "", at)
    case FinishCancelled =>
      if op.state != Cancelling && op.state != Running then Refuse(InvalidTransition)
      else Finish(op, Cancelled, "cancelled", at)
    case Fail(code) =>
      if IsTerminal(op.state) || code == "" || |code| > MAX_ERROR_CODE then Refuse(InvalidTransition)
      else Finish(op, Failed, code, at)
  }

  /** The store's update: one revision on, times never before creation. */
  function Apply(op: Operation, change: Change, at: Time): Operation {
    op.(state := change.state, phase := change.phase, completed := change.completed,
        total := change.total, errorCode := change.errorCode, revision := op.revision + 1,
        updatedAt := Max(op.createdAt, at),
        finishedAt := match change.finishedAt
                      case None => None
                      case Some(f) => Some(Max(op.createdAt, f)))
  }

  /** One call as an administrator or worker issues it: the revision it
      expects and its two clock readings. */
  datatype Event = Event(expected: int, call: Call, finishClock: Instant, updateClock: Instant)

  function Perform(op: Operation, event: Event): Operation {
    if op.revision != event.expected then op
    else match Decide(op, event.call, event.finishClock)
         case Write(change) => Apply(op, change, event.updateClock)
         case _ => op
  }

  function Play(op: Operation, events: seq<Event>): Operation
    decreases |events|
  {
    if events == [] then op else Play(Perform(op, events[0]), events[1..])
  }

  /** How many of the events changed the row. */
  function Writes(op: Operation, events: seq<Event>): nat
    decreases |events|
  {
    if events == [] then 0
    else (if Perform(op, events[0]) == op then 0 else 1) + Writes(Perform(op, events[0]), events[1..])
  }

  // ------------------------------------------------------ whole histories

  /** `later` is a version of the row `earlier` that can follow it. */
  predicate Descends(earlier: Operation, later: Operation) {
    && later.id == earlier.id && later.kind == earlier.kind
    && later.modelId == earlier.modelId && later.libraryId == earlier.libraryId
    && later.createdAt == earlier.createdAt
    && earlier.revision <= later.revision
    && (later.revision == earlier.revision ==> later == earlier)
    && earlier.completed <= later.completed
    && (earlier.total.Some? ==> later.total == earlier.total)
    && (IsTerminal(earlier.state) ==> later == earlier)
    && (earlier.state == Cancelling ==>
          || later == earlier
          || (later.revision == earlier.revision + 1 && (later.state == Failed || later.state == Cancelled)))
    && (later.state == Queued ==> earlier == later)
  }

  lemma FreshIsValid(op: Operation)
    requires FreshOperation(op)
    ensures ValidOperation(op)
  {
  }

  lemma DescendsIsReflexive(op: Operation)
    ensures Descends(op, op)
  {
  }

  lemma DescendsIsTransitive(a: Operation, b: Operation, c: Operation)
    requires Descends(a, b) && Descends(b, c)
    ensures Descends(a, c)
  {
  }

  lemma PerformKeeps(op: Operation, event: Event)
    requires ValidOperation(op)
    ensures ValidOperation(Perform(op, event))
    ensures Descends(op, Perform(op, event))
    ensures Perform(op, event).revision == op.revision + (if Perform(op, event) == op then 0 else 1)
  {
  }

  /** Every history of calls, with any clocks: rows stay valid, the revision
      counts the changes, progress and identity only move forward, terminal
      rows are fixed, and a cancelling row makes at most one more move. */
  lemma {:induction false} HistoriesKeepOperationsValid(op: Operation, events: seq<Event>)
    requires ValidOperation(op)
    ensures ValidOperation(Play(op, events))
    ensures Descends(op, Play(op, events))
    ensures Play(op, events).revision == op.revision + Writes(op, events)
    decreases |events|
  {
    if events != [] {
      var next := Perform(op, events[0]);
      PerformKeeps(op, events[0]);
      HistoriesKeepOperationsValid(next, events[1..]);
      DescendsIsTransitive(op, next, Play(op, events));
    }
  }

  // ---------------------------------------------- one call as a relation

  function FinishClock(op: Operation): Time {
    if op.finishedAt.Some? then op.finishedAt.value else ZERO_TIME
  }

  /** `after` is what an accepted `call` makes of `before`, at some clocks. */
  predicate Effect(before: Operation, call: Call, after: Operation) {
    var plan := Decide(before, call, FinishClock(after));
    plan.Write? && after == Apply(before, plan.change, after.updatedAt)
  }

  lemma PerformIsEffect(op: Operation, event: Event)
    ensures Perform(op, event) == op || Effect(op, event.call, Perform(op, event))
  {
  }

  // --------------------------------------------- what the six calls are for

  /** The calls that change a row, by its state. */
  predicate Accepts(op: Operation, call: Call) {
    match op.state
    case Queued => call == RequestCancel || Fails(call) || (call.Start? && IsActivePhase(call.phase))
    case Running =>
      || call == RequestCancel || call == Succeed || call == FinishCancelled || Fails(call)
      || (call.Progress? && IsActivePhase(call.progressPhase) && op.completed <= call.done
          && (call.outOf.Some? ==> call.done <= call.outOf.value)
          && (op.total.Some? ==> call.outOf == op.total))
    case Cancelling => call == FinishCancelled || Fails(call)
    case _ => false
  }

  predicate Fails(call: Call) {
    call.Fail? && 0 < |call.code| <= MAX_ERROR_CODE
  }

  /** What the row is after an accepted call, field by field. */
  predicate Written(before: Operation, call: Call, after: Operation) {
    && after.id == before.id && after.kind == before.kind && after.modelId == before.modelId
    && after.libraryId == before.libraryId && after.createdAt == before.createdAt
    && after.revision == before.revision + 1 && after.updatedAt >= before.createdAt
    && after.state == (match call
                       case Start(_) => Running
                       case Progress(_, _, _) => Running
                       case RequestCancel => if before.state == Queued then Cancelled else Cancelling
                       case Succeed => Succeeded
                       case FinishCancelled => Cancelled
                       case Fail(_) => Failed)
    && after.phase == (if IsTerminal(after.state) then PhaseCompleted
                       else if call.Start? then call.phase
                       else if call.Progress? then call.progressPhase
                       else before.phase)
    && after.completed == (if call.Progress? then call.done else before.completed)
    && after.total == (if call.Progress? then call.outOf else before.total)
    && after.errorCode == (if after.state == Cancelled then "cancelled" else if call.Fail? then call.code else "")
    && (if IsTerminal(after.state) then after.finishedAt.Some? && after.finishedAt.value >= before.createdAt
        else after.finishedAt == None)
  }

  /** A relation of `Effect` without its plans: a call has an effect on a row
      exactly if it is accepted, and then exactly that one. */
  lemma EffectsAreWritten(before: Operation, call: Call, after: Operation)
    requires ValidOperation(before)
    ensures Effect(before, call, after) <==> Accepts(before, call) && Written(before, call, after)
  {
  }

  /** Each of the six calls on any row: what is accepted and what it writes, at
      which times; which call is answered without a write; and which error
      meets a refused one. */
  lemma CallsDoExactly(op: Operation, event: Event)
    requires ValidOperation(op) && event.expected == op.revision
    ensures
      var next := Perform(op, event);
      if Accepts(op, event.call) then
        && Written(op, event.call, next) && next.updatedAt == Max(op.createdAt, event.updateClock)
        && (next.finishedAt.Some? ==> next.finishedAt.value == Max(op.createdAt, event.finishClock))
      else next == op
    ensures !Accepts(op, event.call) ==>
      Decide(op, event.call, event.finishClock) ==
        if event.call == RequestCancel then if op.state == Cancelling then Keep else Refuse(AlreadyFinished)
        else Refuse(InvalidTransition)
  {
  }

  /** Every row that any history makes of a new one, by its state. */
  lemma FromCreationOn(op: Operation, events: seq<Event>)
    requires FreshOperation(op)
    ensures
      var row := Play(op, events);
      && row.id == op.id && row.kind == op.kind && row.modelId == op.modelId && row.libraryId == op.libraryId
      && row.createdAt == op.createdAt && row.updatedAt >= op.createdAt && row.revision == 1 + Writes(op, events)
      && 0 <= row.completed && (row.total.Some? ==> row.completed <= row.total.value)
      && (op.total.Some? ==> row.total == op.total)
      && match row.state
         case Queued => row == op
         case Running => IsActivePhase(row.phase) && row.errorCode == "" && row.finishedAt == None
         case Cancelling => IsActivePhase(row.phase) && row.errorCode == "" && row.finishedAt == None
         case Succeeded => row.phase == PhaseCompleted && row.errorCode == "" && row.finishedAt.Some?
         case Failed => row.phase == PhaseCompleted && 0 < |row.errorCode| <= 128 && row.finishedAt.Some?
         case Cancelled => row.phase == PhaseCompleted && 0 < |row.errorCode| <= 128 && row.finishedAt.Some?
         case UnknownState(_) => false
  {
    FreshIsValid(op);
    HistoriesKeepOperationsValid(op, events);
  }

  /** Where any number of cancellations can take a row. */
  predicate CancelReaches(before: Operation, after: Operation) {
    after == before || Effect(before, RequestCancel, after)
  }

  lemma {:induction false} CancellationsCollapse(op: Operation, events: seq<Event>)
    requires ValidOperation(op)
    requires forall i :: 0 <= i < |events| ==> events[i].call == RequestCancel
    ensures CancelReaches(op, Play(op, events))
    ensures op.state == Running ==> Play(op, events) == op || Play(op, events).state == Cancelling
    decreases |events|
  {
    if events != [] {
      var next := Perform(op, events[0]);
      PerformKeeps(op, events[0]);
      PerformIsEffect(op, events[0]);
      CancellationsCollapse(next, events[1..]);
    }
  }

  lemma CancellationDescends(before: Operation, after: Operation)
    requires ValidOperation(before) && CancelReaches(before, after)
    ensures Descends(before, after)
  {
  }

  // ------------------------------------------------- reading a write back

  /** The check a service call makes on the row it reads back after its write. */
  function ReadBack(current: Operation, change: Change, seen: Operation): (r: Result<Operation, Error>)
    ensures r == Success(seen) || r == Failure(RepositoryState)
  {
    if !ValidOperation(seen) then Failure(RepositoryState)
    else if seen.id != current.id || seen.kind != current.kind || seen.modelId != current.modelId
            || seen.libraryId != current.libraryId || seen.state != change.state || seen.phase != change.phase
            || seen.completed != change.completed || seen.total != change.total
            || seen.errorCode != change.errorCode || seen.revision != current.revision + 1
            || seen.createdAt != current.createdAt || seen.updatedAt < current.updatedAt
    then Failure(RepositoryState)
    else Success(seen)
  }

  /** The write and the read-back are separate statements, so the check can
      fail although the write took effect: it passes exactly when nothing
      changed the row in between and the clock had not gone back past the
      row's last update. */
  lemma ReadBackAcceptsExactly(current: Operation, call: Call, finishAt: Instant, updateAt: Instant, seen: Operation)
    requires ValidOperation(current) && Decide(current, call, finishAt).Write?
    requires ValidOperation(seen)
    requires Descends(Apply(current, Decide(current, call, finishAt).change, updateAt), seen)
    ensures
      var change := Decide(current, call, finishAt).change;
      (ReadBack(current, change, seen).Success? <==>
        (seen == Apply(current, change, updateAt) && Max(current.createdAt, updateAt) >= current.updatedAt))
  {
    var written := Apply(current, Decide(current, call, finishAt).change, updateAt);
    PerformKeeps(current, Event(current.revision, call, finishAt, updateAt));
    assert written == Perform(current, Event(current.revision, call, finishAt, updateAt));
  }

  /** So a faithful store and a steady clock can still yield a repository-state
      error: progress is written, a cancellation is accepted, and only then is
      the row read back. */
  lemma ReadBackCanMissItsOwnWrite()
    ensures
      var running := Operation("aio_1", ModelInstall, Running, Verifying, "", 0, 0, None, "", 2, 10, 11, None);
      var progress := Progress(Copying, 5, Some(9));
      var written := Perform(running, Event(2, progress, 12, 12));
      var seen := Perform(written, Event(3, RequestCancel, 13, 13));
      && ValidOperation(running) && Effect(running, progress, written) && seen.state == Cancelling
      && ReadBack(running, Decide(running, progress, 12).change, seen) == Failure(RepositoryState)
  {
    var running := Operation("aio_1", ModelInstall, Running, Verifying, "", 0, 0, None, "", 2, 10, 11, None);
    assert Decide(running, Progress(Copying, 5, Some(9)), 12).Write?;
  }
}
