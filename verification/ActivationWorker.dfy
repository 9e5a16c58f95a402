/** One run of the activation worker on a claimed operation. Loading the model
    and preparing the generation are arbitrary outcomes; cancellations,
    availability changes and shutdown may happen between any two steps. */
module ActivationWorker {
  import opened Wrappers
  import opened Operations
  import opened AiStores
  import opened OperationService
  import opened WorkerErrors

  /** How a run ends that is neither cancelled nor shut down: failed with the
      code of what went wrong first; or succeeded, if the model stayed as the
      request expects it; or else one of these two. */
  ghost predicate EndsAsAnswered(
      row: Operation, loaded: Result<string, set<Sentinel>>, newId: Option<string>, prepared: Option<set<Sentinel>>,
      modelStayed: bool)
  {
    if loaded.Failure? then row.state == Failed && row.errorCode == ActivationErrorCode(loaded.error)
    else if newId.None? then row.state == Failed && row.errorCode == INTERNAL_ERROR
    else if prepared.Some? then row.state == Failed && row.errorCode == ActivationErrorCode(prepared.value)
    else row.state == Succeeded || (!modelStayed && row.state == Failed && row.errorCode == "model_unavailable")
  }

  method Process(
      store: AiStore, expectedAvailability: int, loaded: Result<string, set<Sentinel>>,
      newId: Option<string>, prepared: Option<set<Sentinel>>)
    requires store.Valid() && store.row.state == Running && CancelHonoured(store.trail)
    requires store.row.kind == ModelActivate
    modifies store
    ensures store.Valid()
    // An accepted cancellation is never overtaken by success or failure.
    ensures RunConcluded(store.trail, store.shuttingDown)
    // The activation takes effect exactly when the operation ends succeeded.
    ensures
      if store.row.state == Succeeded
      then && newId.Some? && store.activeGeneration == newId.value
           && store.commits == old(store.commits) + [Commit(newId.value, expectedAvailability, true)]
      else store.activeGeneration == old(store.activeGeneration) && store.commits == old(store.commits)
    // Without a cancellation or shutdown it does what it was asked to.
    ensures !CancelAccepted(store.trail) && !store.shuttingDown ==>
      EndsAsAnswered(store.row, loaded, newId, prepared,
                     && old(store.modelAvailable)
                     && old(store.modelRevision) == expectedAvailability == store.modelRevision)
  {
    hide ValidOperation, Effect, CancelHonoured, RunConcluded, Drift;
    ghost var start := store.trail;
    var got := store.Get(Detached);
    var current := got.value;
    OvertakenRow(start, store.trail);
    if current.state == Cancelling {
      ghost var read := store.trail;
      CancellingIsAccepted(read);
      Conclude(store, INTERNAL_ERROR, Detached);
      CancelsStay(read, store.trail);
      return;
    }
    var stopped := store.CutOff(Parent);
    if stopped {
      UnfinishedConcludes(store.trail);
      return;
    }
    if loaded.Failure? {
      Conclude(store, ActivationErrorCode(loaded.error), Parent);
      return;
    }
    if newId.None? {
      Conclude(store, INTERNAL_ERROR, Parent);
      return;
    }
    Activate(store, current, expectedAvailability, newId.value, prepared);
  }

  /** Preparing and committing the new generation. Whatever goes wrong is
      settled, which leaves a commit alone whose row could not be read back. */
  method Activate(
      store: AiStore, current: Operation, expectedAvailability: int, newId: string, prepared: Option<set<Sentinel>>)
    requires store.Valid() && CancelHonoured(store.trail) && current == store.row && current.state == Running
    requires current.kind == ModelActivate
    modifies store
    ensures store.Valid() && RunConcluded(store.trail, store.shuttingDown)
    ensures
      if store.row.state == Succeeded
      then && store.activeGeneration == newId
           && store.commits == old(store.commits) + [Commit(newId, expectedAvailability, true)]
      else store.activeGeneration == old(store.activeGeneration) && store.commits == old(store.commits)
    ensures store.ModelSince(old(store.modelRevision), old(store.modelAvailable))
    ensures !CancelAccepted(store.trail) && !store.shuttingDown ==>
      EndsAsAnswered(store.row, Success(newId), Some(newId), prepared,
                     && old(store.modelAvailable)
                     && old(store.modelRevision) == expectedAvailability == store.modelRevision)
  {
    hide ValidOperation, Effect, RunConcluded, CancelHonoured, Drift, IsTrail, Written, CancelAccepted;
    hide ActivationErrorCode, Matches;
    if prepared.Some? {
      Conclude(store, ActivationErrorCode(prepared.value), Detached);
      return;
    }
    ghost var read := store.trail;
    var error := store.CommitActivation(current.revision, expectedAvailability, newId, Parent);
    ghost var answered := store.trail;
    if store.commits == old(store.commits) {
      OvertakenRow(read, answered);
      if store.row.state == Cancelling {
        CancellingIsAccepted(answered);
      }
    }
    if error.None? {
      SuccessConcludes(store.trail, store.shuttingDown);
      return;
    }
    CommitErrorCodes(error.value);
    Conclude(store, ActivationErrorCode(Matches(error.value)), Detached);
    if CancelAccepted(answered) {
      CancelsStay(answered, store.trail);
    }
  }

  lemma CommitErrorCodes(error: Error)
    ensures error == PreconditionFailed || error == ModelUnavailable ==>
      ActivationErrorCode(Matches(error)) == "model_unavailable"
  {
  }
}
