/** The service calls on a persisted operation, with interference between any
    two store statements, and the settlement of a worker's failure. */
module OperationService {
  import opened Wrappers
  import opened Operations
  import opened AiStores

  /** One service call: read, compare the revision, decide, transition. The six
      calls share this body and differ in `Decide`. `revision` is one the
      caller has read earlier. */
  method Invoke(store: AiStore, revision: int, call: Call, scope: Scope)
    returns (r: Result<Operation, Error>, ghost wrote: Option<Operation>)
    requires store.Valid() && revision <= store.row.revision
    modifies store
    ensures store.Valid()
    ensures old(store.shuttingDown) ==> store.shuttingDown
    ensures store.activeGeneration == old(store.activeGeneration) && store.commits == old(store.commits)
    ensures wrote.None? ==> Drift(old(store.trail), store.trail)
    ensures store.ModelSince(old(store.modelRevision), old(store.modelAvailable))
    ensures wrote.Some? ==>
      && old(store.row).revision == revision && Effect(old(store.row), call, wrote.value)
      && Accepts(old(store.row), call) && Written(old(store.row), call, wrote.value)
      && wrote.value.revision == revision + 1 && Drift(old(store.trail) + [wrote.value], store.trail)
    ensures r.Success? && wrote.Some? ==> r.value == store.row == wrote.value
    ensures r.Success? && wrote.None? ==>
      call == RequestCancel && old(store.row).state == Cancelling && r.value == old(store.row)
    ensures r.Failure? ==>
      match r.error
      case PreconditionFailed => wrote.None? && store.row.revision > revision
      case RepositoryState =>
        wrote.Some? && (store.row != wrote.value || wrote.value.updatedAt < old(store.row).updatedAt)
      case ContextCanceled => store.Stoppable(scope)
      case _ =>
        && wrote.None? && old(store.row).revision == revision && !Accepts(old(store.row), call)
        && r.error == if call == RequestCancel then AlreadyFinished else InvalidTransition
    ensures CancelHonoured(old(store.trail)) && (call == FinishCancelled || old(store.row).state == Running)
            ==> CancelHonoured(store.trail)
  {
    hide ValidOperation, Effect, Accepts, Written, Decide;
    wrote := None;
    var got := store.Get(scope);
    if got.Failure? {
      return got, wrote;
    }
    var current := got.value;
    if current.revision != revision {
      return Failure(PreconditionFailed), wrote;
    }
    var finishAt: Instant := *;
    RevisionsIdentify(old(store.trail), store.trail);
    AcceptedIsPlanned(current, call, finishAt);
    match Decide(current, call, finishAt) {
      case Refuse(error) => return Failure(error), wrote;
      case Keep => return Success(current), wrote;
      case Write(_) =>
        r, wrote := store.Transition(current, call, finishAt, scope);
        if wrote.Some? {
          EffectsAreWritten(current, call, wrote.value);
        }
    }
  }

  lemma AcceptedIsPlanned(op: Operation, call: Call, at: Time)
    requires ValidOperation(op)
    ensures
      match Decide(op, call, at)
      case Refuse(error) =>
        !Accepts(op, call) && error == if call == RequestCancel then AlreadyFinished else InvalidTransition
      case Keep => call == RequestCancel && op.state == Cancelling
      case Write(_) => Accepts(op, call)
  {
  }

  /** Interference that leaves the revision leaves the row. */
  lemma RevisionsIdentify(before: seq<Operation>, after: seq<Operation>)
    requires IsTrail(before) && IsTrail(after) && Drift(before, after)
    ensures ValidOperation(after[|after| - 1])
    ensures after[|after| - 1].revision == before[|before| - 1].revision ==> after == before
  {
  }

  /** `after` ends with the write that settled the row: as cancelled exactly
      when the row was cancelling before it, else as failed with `code`. */
  ghost predicate SettledBy(after: seq<Operation>, code: string) {
    && |after| > 1
    && var before, last := after[|after| - 2], after[|after| - 1];
       || (before.state == Cancelling && last.state == Cancelled)
       || (before.state == Running && last.state == Failed && last.errorCode == code)
  }

  /** The settling call on a row just read; `retry` when it lost the race. */
  method SettleRead(store: AiStore, current: Operation, code: string, scope: Scope) returns (retry: bool)
    requires store.Valid() && CancelHonoured(store.trail) && current == store.row
    requires current.state == Running || current.state == Cancelling
    requires 0 < |code| <= MAX_ERROR_CODE && scope != Watched
    modifies store
    ensures store.Valid() && CancelHonoured(store.trail)
    ensures old(store.shuttingDown) ==> store.shuttingDown
    ensures store.activeGeneration == old(store.activeGeneration) && store.commits == old(store.commits)
    ensures store.ModelSince(old(store.modelRevision), old(store.modelAvailable)) && old(store.trail) <= store.trail
    ensures retry ==>
      current.state == Running && store.row.state == Cancelling && Drift(old(store.trail), store.trail)
    ensures !retry ==>
      || SettledBy(store.trail, code)
      || (Drift(old(store.trail), store.trail) && store.Stoppable(scope))
  {
    hide ValidOperation, Decide, Effect, Accepts, Written, SettledBy, Drift, CancelHonoured, IsTrail;
    var call := if current.state == Cancelling then FinishCancelled else Fail(code);
    SettlementIsAccepted(current, code);
    TrailsAreValid(store.trail);
    var r, wrote := Invoke(store, current.revision, call, scope);
    retry := r.Failure? && r.error == PreconditionFailed;
    if wrote.None? {
      DriftExtends(old(store.trail), store.trail);
      OvertakenRow(old(store.trail), store.trail);
    } else {
      WriteSettles(old(store.trail), wrote.value, store.trail, code);
    }
  }

  /** One pass of the settlement loop; `retry` when it lost the race. */
  method SettleOnce(store: AiStore, code: string, scope: Scope) returns (retry: bool)
    requires store.Valid() && CancelHonoured(store.trail)
    requires 0 < |code| <= MAX_ERROR_CODE && scope != Watched
    modifies store
    ensures store.Valid() && CancelHonoured(store.trail)
    ensures old(store.shuttingDown) ==> store.shuttingDown
    ensures store.activeGeneration == old(store.activeGeneration) && store.commits == old(store.commits)
    ensures store.ModelSince(old(store.modelRevision), old(store.modelAvailable)) && old(store.trail) <= store.trail
    ensures retry ==>
      old(store.row).state == Running && store.row.state == Cancelling && Drift(old(store.trail), store.trail)
    ensures !retry && (old(store.row).state == Running || old(store.row).state == Cancelling) ==>
      || SettledBy(store.trail, code)
      || (Drift(old(store.trail), store.trail) && store.Stoppable(scope))
    ensures !retry && old(store.row).state != Running && old(store.row).state != Cancelling ==>
      Drift(old(store.trail), store.trail)
  {
    hide ValidOperation, SettledBy, Drift, CancelHonoured, IsTrail;
    var got := store.Get(scope);
    DriftExtends(old(store.trail), store.trail);
    OvertakenRow(old(store.trail), store.trail);
    if got.Failure? {
      return false;
    }
    var current := got.value;
    if current.state != Cancelling && current.state != Running {
      return false;
    }
    ghost var read := store.trail;
    retry := SettleRead(store, current, code, scope);
    if Drift(read, store.trail) {
      DriftComposes(old(store.trail), read, store.trail);
    }
  }

  lemma SettlementIsAccepted(current: Operation, code: string)
    requires current.state == Cancelling || current.state == Running
    requires 0 < |code| <= MAX_ERROR_CODE
    ensures Accepts(current, if current.state == Cancelling then FinishCancelled else Fail(code))
  {
  }

  /** A terminal write is the last one: nothing drifts past it. */
  lemma WriteSettles(read: seq<Operation>, written: Operation, after: seq<Operation>, code: string)
    requires |read| > 0 && Drift(read + [written], after)
    requires
      || (read[|read| - 1].state == Cancelling && Effect(read[|read| - 1], FinishCancelled, written))
      || (read[|read| - 1].state == Running && Effect(read[|read| - 1], Fail(code), written))
    ensures after == read + [written] && SettledBy(after, code) && read <= after
  {
    assert (read + [written])[|read|] == written;
  }

  /** Settlement after a worker failure: a cancelling row is finished as
      cancelled, a running one as failed, and one lost race is retried. Two
      passes are enough, whatever cancellations are accepted meanwhile. */
  method SettleWorkerFailure(store: AiStore, code: string, scope: Scope)
    requires store.Valid() && CancelHonoured(store.trail)
    requires 0 < |code| <= MAX_ERROR_CODE && scope != Watched
    modifies store
    ensures store.Valid() && CancelHonoured(store.trail)
    ensures old(store.shuttingDown) ==> store.shuttingDown
    ensures store.activeGeneration == old(store.activeGeneration) && store.commits == old(store.commits)
    ensures store.ModelSince(old(store.modelRevision), old(store.modelAvailable)) && old(store.trail) <= store.trail
    ensures old(store.row).state == Running || old(store.row).state == Cancelling ==>
      || SettledBy(store.trail, code)
      || (Drift(old(store.trail), store.trail) && store.Stoppable(scope))
    ensures old(store.row).state != Running && old(store.row).state != Cancelling ==>
      Drift(old(store.trail), store.trail)
  {
    var attempt, retry := 0, true;
    while attempt < 2 && retry
      invariant 0 <= attempt <= 2
      invariant store.Valid() && CancelHonoured(store.trail)
      invariant old(store.shuttingDown) ==> store.shuttingDown
      invariant store.activeGeneration == old(store.activeGeneration) && store.commits == old(store.commits)
      invariant store.ModelSince(old(store.modelRevision), old(store.modelAvailable)) && old(store.trail) <= store.trail
      invariant attempt == 0 ==> retry && store.trail == old(store.trail)
      invariant 0 < attempt && retry ==>
        attempt == 1 && old(store.row).state == Running
        && store.row.state == Cancelling && Drift(old(store.trail), store.trail)
      invariant !retry && (old(store.row).state == Running || old(store.row).state == Cancelling) ==>
        || SettledBy(store.trail, code)
        || (Drift(old(store.trail), store.trail) && store.Stoppable(scope))
      invariant !retry && old(store.row).state != Running && old(store.row).state != Cancelling ==>
        Drift(old(store.trail), store.trail)
    {
      ghost var before := store.trail;
      retry := SettleOnce(store, code, scope);
      if attempt == 1 && Drift(before, store.trail) {
        DriftComposes(old(store.trail), before, store.trail);
      }
      attempt := attempt + 1;
    }
  }

  /** One pass is not enough: a cancellation accepted between its read and its
      conditional update leaves the row cancelling; the second pass ends it. */
  lemma OnePassIsNotEnough(row: Operation, code: string, request: Event, settle: Event, again: Event)
    requires row.state == Running && request.call == RequestCancel && settle.call == Fail(code)
    requires request.expected == settle.expected == row.revision
    requires again.call == FinishCancelled && again.expected == row.revision + 1
    ensures Perform(Perform(row, request), settle).state == Cancelling
    ensures Perform(Perform(Perform(row, request), settle), again).state == Cancelled
  {
    var cancelling := Perform(row, request);
    assert Perform(cancelling, settle) == cancelling;
  }

  const INTERNAL_ERROR := "internal_error"

  /** How a worker run may leave its row: unfinished only under shutdown, and
      cancelled exactly when a cancellation was accepted. */
  ghost predicate RunConcluded(trail: seq<Operation>, shuttingDown: bool) {
    && |trail| > 0 && CancelHonoured(trail)
    && var last := trail[|trail| - 1];
       && (!shuttingDown ==> IsTerminal(last.state))
       && (IsTerminal(last.state) ==> (last.state == Cancelled <==> CancelAccepted(trail)))
  }

  lemma SettledRunConcludes(trail: seq<Operation>, code: string, shuttingDown: bool)
    requires |trail| > 0 && CancelHonoured(trail) && SettledBy(trail, code)
    ensures RunConcluded(trail, shuttingDown) && trail[|trail| - 1].state != Succeeded
  {
    var before := trail[|trail| - 2];
  }

  lemma CancellingIsAccepted(trail: seq<Operation>)
    requires |trail| > 0 && trail[|trail| - 1].state == Cancelling
    ensures CancelAccepted(trail)
  {
  }

  lemma UnfinishedConcludes(trail: seq<Operation>)
    requires |trail| > 0 && CancelHonoured(trail) && trail[|trail| - 1].state == Running
    ensures RunConcluded(trail, true)
  {
  }

  lemma SuccessConcludes(trail: seq<Operation>, shuttingDown: bool)
    requires |trail| > 0 && CancelHonoured(trail) && trail[|trail| - 1].state == Succeeded
    ensures RunConcluded(trail, shuttingDown)
  {
  }

  /** Settlement as the last act of a run. */
  method Conclude(store: AiStore, code: string, scope: Scope)
    requires store.Valid() && CancelHonoured(store.trail)
    requires 0 < |code| <= MAX_ERROR_CODE && scope != Watched
    requires store.row.state == Running || store.row.state == Cancelling || store.row.state == Succeeded
    modifies store
    ensures store.Valid() && RunConcluded(store.trail, store.shuttingDown)
    ensures store.activeGeneration == old(store.activeGeneration) && store.commits == old(store.commits)
    ensures store.ModelSince(old(store.modelRevision), old(store.modelAvailable)) && old(store.trail) <= store.trail
    ensures store.row.state == Succeeded <==> old(store.row).state == Succeeded
    ensures store.row.state == Succeeded ==> store.row == old(store.row)
    ensures old(store.shuttingDown) ==> store.shuttingDown
    ensures old(store.row).state == Running && !CancelAccepted(store.trail) && !store.shuttingDown ==>
      store.row.state == Failed && store.row.errorCode == code
  {
    hide ValidOperation, Effect;
    ghost var before := store.trail;
    SettleWorkerFailure(store, code, scope);
    if Drift(before, store.trail) {
      OvertakenRow(before, store.trail);
    }
    if SettledBy(store.trail, code) {
      SettledRunConcludes(store.trail, code, store.shuttingDown);
    }
  }
}
