/** One run of the install worker: the installer copies a package through a
    counting reader, the progress callback persists what has been counted, and
    the worker finishes or settles the operation. Cancellations and shutdown
    may happen between any two steps. */
module InstallWorker {
  import opened Wrappers
  import opened Operations
  import opened AiStores
  import opened OperationService
  import opened WorkerErrors

  datatype StorageMode = Managed | Direct

  function Min(a: int, b: int): int { if a <= b then a else b }

  /** Nondecreasing, from 0, within the package size. */
  ghost predicate Ascending(reports: seq<int>, size: int) {
    && (forall i :: 0 <= i < |reports| ==> 0 <= reports[i] <= size)
    && (forall i, j :: 0 <= i < j < |reports| ==> reports[i] <= reports[j])
    && (|reports| > 0 ==> reports[0] == 0)
  }

  lemma AscendingExtends(reports: seq<int>, done: int, size: int)
    requires Ascending(reports, size) && 0 <= done <= size
    requires if |reports| == 0 then done == 0 else reports[|reports| - 1] <= done
    ensures Ascending(reports + [done], size)
  {
  }

  /** What the reads of the package files add up to. */
  function Sum(chunks: seq<nat>): nat {
    if chunks == [] then 0 else Sum(chunks[..|chunks| - 1]) + chunks[|chunks| - 1]
  }

  /** The counts reported for the reads: one for every read that got bytes. */
  function Counts(chunks: seq<nat>, size: int): seq<int> {
    if chunks == [] then []
    else
      Counts(chunks[..|chunks| - 1], size)
      + if chunks[|chunks| - 1] > 0 then [Min(Sum(chunks), size)] else []
  }

  lemma OneMoreChunk(chunks: seq<nat>, n: nat, size: int)
    requires n < |chunks|
    ensures Sum(chunks[..n + 1]) == Sum(chunks[..n]) + chunks[n]
    ensures
      Counts(chunks[..n + 1], size)
      == Counts(chunks[..n], size) + if chunks[n] > 0 then [Min(Sum(chunks[..n + 1]), size)] else []
  {
    assert chunks[..n + 1][..n] == chunks[..n];
  }

  lemma NoChunks(chunks: seq<nat>, size: int)
    ensures Sum(chunks[..0]) == 0 && [0] + Counts(chunks[..0], size) == [0]
  {
  }

  /** What can disturb a run: a shutdown, an accepted cancellation, or a clock
      that falls back between two versions of the row. */
  ghost predicate Disturbed(store: AiStore)
    reads store
  {
    store.shuttingDown || CancelAccepted(store.trail) || ClockFellBack(store.trail)
  }

  /** An accepted call on a running row that ends in an error has been
      disturbed. */
  lemma FailureIsDisturbance(
      read: seq<Operation>, call: Call, wrote: Option<Operation>, error: Error, after: seq<Operation>)
    requires IsTrail(read) && read[|read| - 1].state == Running && (call.Progress? || call == Succeed)
    requires if wrote.None? then Drift(read, after)
             else Effect(read[|read| - 1], call, wrote.value) && Drift(read + [wrote.value], after)
    requires error == PreconditionFailed ==> wrote.None? && after != read
    requires error == RepositoryState ==>
      wrote.Some? && (after[|after| - 1] != wrote.value || wrote.value.updatedAt < read[|read| - 1].updatedAt)
    requires error == PreconditionFailed || error == RepositoryState
    ensures CancelAccepted(after) || ClockFellBack(after)
  {
    hide ValidOperation, CancelAccepted, ClockFellBack;
    DriftExtends(if wrote.None? then read else read + [wrote.value], after);
    if wrote.None? {
      OvertakenRow(read, after);
    } else if wrote.value.updatedAt < read[|read| - 1].updatedAt {
      FallsStay(read + [wrote.value], after, |read| - 1);
    }
    if after[|after| - 1].state == Cancelling {
      CancellingIsAccepted(after);
    }
  }

  /** What the installer's surroundings answer: the check of a direct source,
      the sizes of the reads while a package is published and how that ends,
      and the registration of the installed model. */
  datatype Answers = Answers(
    source: Result<(), set<Sentinel>>, chunks: seq<nat>,
    published: Result<(), set<Sentinel>>, registered: Result<(), set<Sentinel>>)
  {
    /** The first error among the answers that a storage mode asks for. */
    function Error(mode: StorageMode): Option<set<Sentinel>> {
      if mode == Direct && source.Failure? then Some(source.error)
      else if mode == Managed && published.Failure? then Some(published.error)
      else if registered.Failure? then Some(registered.error)
      else None
    }
  }

  class InstallRun {
    const store: AiStore
    const size: int
    var completed: int          // the installer's running byte count
    var reportedOnce: bool      // the callback's `last` time has been set
    ghost var reports: seq<int> // every value handed to the callback

    ghost predicate Valid()
      reads this, store
    {
      && size > 0 && store.Valid() && CancelHonoured(store.trail)
      && (store.row.state == Running || store.row.state == Cancelling)
      && Ascending(reports, size) && completed >= 0
    }

    /** The persisted progress never runs ahead of what was reported. */
    ghost predicate Tracks()
      reads this, store
    {
      && (store.row.total == None || store.row.total == Some(size))
      && (if |reports| == 0 then store.row.completed == 0
          else store.row.completed <= reports[|reports| - 1] <= Min(completed, size))
      && (reportedOnce ==> |reports| > 0)
    }

    constructor (store: AiStore, size: int)
      requires size > 0 && store.Valid() && CancelHonoured(store.trail)
      requires store.row.state == Running || store.row.state == Cancelling
      ensures Valid() && this.store == store && this.size == size
      ensures completed == 0 && !reportedOnce && reports == []
    {
      this.store, this.size := store, size;
      completed, reportedOnce, reports := 0, false, [];
    }

    /** The unthrottled part of the callback: read the row and persist `done`.
        It never meets the service's refusal of falling or inconsistent
        progress. */
    method Persist(done: int) returns (error: Option<Error>)
      requires store.Valid() && CancelHonoured(store.trail)
      requires store.row.state == Running || store.row.state == Cancelling
      requires store.row.completed <= done <= size
      requires store.row.total == None || store.row.total == Some(size)
      modifies this`reportedOnce, store
      ensures store.Valid() && CancelHonoured(store.trail)
      ensures old(store.shuttingDown) ==> store.shuttingDown
      ensures store.row.state == Running || store.row.state == Cancelling
      ensures store.row.completed == old(store.row).completed || store.row.completed == done
      ensures store.row.total == old(store.row).total || store.row.total == Some(size)
      ensures error == None ==>
        && store.row.state == Running && store.row.phase == Copying
        && store.row.completed == done && store.row.total == Some(size)
      ensures error.Some? ==> Disturbed(store)
    {
      hide ValidOperation, Effect, Decide, Drift, CancelHonoured, Accepts, Written, CancelAccepted, ClockFellBack;
      ghost var start := store.trail;
      var got := store.Get(Watched);
      OvertakenRow(start, store.trail);
      if store.row.state == Cancelling {
        CancellingIsAccepted(store.trail);
      }
      if got.Failure? {
        return Some(got.error);
      }
      var current := got.value;
      if current.state == Cancelling {
        return Some(ContextCanceled);
      }
      ghost var read := store.trail;
      var r, wrote := Invoke(store, current.revision, Progress(Copying, done, Some(size)), Watched);
      reportedOnce := true;
      ProgressOutcome(read, done, size, wrote, store.trail);
      if store.row.state == Cancelling {
        CancellingIsAccepted(store.trail);
      }
      if r.Failure? && (r.error == PreconditionFailed || r.error == RepositoryState) {
        FailureIsDisturbance(read, Progress(Copying, done, Some(size)), wrote, r.error, store.trail);
      }
      error := if r.Success? then None else Some(r.error);
    }

    /** The worker's progress callback. A report that follows the last persisted
        one too soon (`recent`) is dropped, unless it is complete. */
    method Report(done: int, recent: bool) returns (error: Option<Error>)
      requires Valid() && Tracks()
      requires if |reports| == 0 then done == 0 else reports[|reports| - 1] <= done
      requires 0 <= done <= size
      modifies this`reportedOnce, this`reports, store
      ensures Valid() && reports == old(reports) + [done]
      ensures done <= Min(completed, size) ==> Tracks()
      ensures old(store.shuttingDown) ==> store.shuttingDown
      ensures error.Some? ==> Disturbed(store)
      ensures error == None && (done == size || !old(reportedOnce) || !recent) ==>
        && store.row.state == Running && store.row.phase == Copying
        && store.row.completed == done && store.row.total == Some(size)
      ensures error == None && done != size && old(reportedOnce) && recent ==> store.trail == old(store.trail)
    {
      hide CancelHonoured, Ascending, CancelAccepted, ClockFellBack, ValidOperation;
      AscendingExtends(reports, done, size);
      reports := reports + [done];
      var stopped := store.CutOff(Watched);
      if stopped {
        if store.row.state == Cancelling {
          CancellingIsAccepted(store.trail);
        }
        return Some(ContextCanceled);
      }
      if reportedOnce && done != size && recent {
        return None;
      }
      error := Persist(done);
    }

    /** Copying the package into managed storage: the opening report, any
        reads of any sizes (files may be reopened), the closing report. A
        failed report fails the read, and with it the copy. */
    method Copy(chunks: seq<nat>, published: Result<(), set<Sentinel>>) returns (error: Option<set<Sentinel>>)
      requires Valid() && Tracks() && reports == [] && completed == 0 && !reportedOnce
      modifies this, store
      ensures Valid()
      ensures old(store.shuttingDown) ==> store.shuttingDown
      ensures error == None ==> published.Success? && reports == [0] + Counts(chunks, size) + [size]
      ensures error == None ==>
        store.row.state == Running && store.row.completed == size && store.row.total == Some(size)
      ensures error.Some? && !Disturbed(store) ==> published.Failure? && error.value == published.error
    {
      hide Disturbed, Ascending, CancelHonoured, Counts, Sum, ValidOperation, IsTrail, Matches;
      var recent: bool := *;
      var failure := Report(0, recent);
      if failure.Some? {
        return Some(Matches(failure.value));
      }
      NoChunks(chunks, size);
      for n := 0 to |chunks|
        invariant Valid() && Tracks() && |reports| > 0
        invariant completed == Sum(chunks[..n]) && reports == [0] + Counts(chunks[..n], size)
        invariant old(store.shuttingDown) ==> store.shuttingDown
      {
        OneMoreChunk(chunks, n, size);
        if chunks[n] > 0 {
          completed := completed + chunks[n];
          recent := *;
          failure := Report(Min(completed, size), recent);
          if failure.Some? {
            return Some(Matches(failure.value));
          }
        }
      }
      assert chunks[..|chunks|] == chunks;
      if published.Failure? {
        return Some(published.error);
      }
      recent := *;
      failure := Report(size, recent);
      error := if failure.Some? then Some(Matches(failure.value)) else None;
    }

    /** The whole installation: undisturbed, it fails only with the error of
        its source, its publisher or its registration. */
    method InstallWithProgress(mode: StorageMode, answers: Answers) returns (error: Option<set<Sentinel>>)
      requires Valid() && Tracks() && reports == [] && completed == 0 && !reportedOnce
      modifies this, store
      ensures Valid()
      ensures old(store.shuttingDown) ==> store.shuttingDown
      ensures error == None && mode == Managed ==>
        && store.row.completed == size && store.row.total == Some(size)
        && reports == [0] + Counts(answers.chunks, size) + [size]
      ensures !Disturbed(store) ==> error == answers.Error(mode)
      ensures error == None ==> answers.Error(mode) == None
    {
      hide Disturbed;
      error := None;
      match mode {
        case Direct => if answers.source.Failure? { return Some(answers.source.error); }
        case Managed => error := Copy(answers.chunks, answers.published);
      }
      if error == None && answers.registered.Failure? {
        error := Some(answers.registered.error);
      }
    }
  }

  /** An accepted progress write of a running row, and what may follow it. */
  lemma ProgressOutcome(read: seq<Operation>, done: int, size: int, wrote: Option<Operation>, after: seq<Operation>)
    requires IsTrail(read) && read[|read| - 1].state == Running
    requires read[|read| - 1].completed <= done <= size
    requires read[|read| - 1].total == None || read[|read| - 1].total == Some(size)
    requires if wrote.None? then Drift(read, after)
             else Effect(read[|read| - 1], Progress(Copying, done, Some(size)), wrote.value)
                  && Drift(read + [wrote.value], after)
    ensures Accepts(read[|read| - 1], Progress(Copying, done, Some(size)))
    ensures wrote.None? ==> after == read || after[|after| - 1].state == Cancelling
    ensures
      var row := after[|after| - 1];
      && (row.state == Running || row.state == Cancelling)
      && (wrote.None? ==> row.completed == read[|read| - 1].completed && row.total == read[|read| - 1].total)
      && (wrote.Some? ==> row.completed == done && row.total == Some(size))
      && (wrote.Some? && row == wrote.value ==> row.state == Running && row.phase == Copying)
  {
  }

  method Process(store: AiStore, mode: StorageMode, size: int, answers: Answers)
    requires size > 0 && store.Valid() && CancelHonoured(store.trail)
    requires store.row.state == Running && store.row.completed == 0 && store.row.total == None
    modifies store
    ensures store.Valid()
    // An accepted cancellation is never overtaken by success or failure.
    ensures RunConcluded(store.trail, store.shuttingDown)
    // Undisturbed, the run succeeds exactly if nothing went wrong, and
    // otherwise fails with the code of what did.
    ensures !Disturbed(store) ==>
      if answers.Error(mode).None? then store.row.state == Succeeded
      else store.row.state == Failed && store.row.errorCode == InstallErrorCode(answers.Error(mode).value)
    // Throttling never loses the final count of a managed installation.
    ensures store.row.state == Succeeded && mode == Managed ==>
      store.row.completed == size && store.row.total == Some(size)
  {
    hide ValidOperation, Effect, Decide, CancelHonoured, RunConcluded, ClockFellBack, Drift, IsTrail, Accepts, Written;
    hide InstallErrorCode, CancelAccepted, Counts;
    var run := new InstallRun(store, size);
    var installError := run.InstallWithProgress(mode, answers);
    ghost var done := store.trail;
    var got := store.Get(Detached);
    OvertakenRow(done, store.trail);
    DriftExtends(done, store.trail);
    var current := got.value;
    if current.state == Cancelling {
      CancellingIsAccepted(store.trail);
      ghost var read := store.trail;
      Conclude(store, INTERNAL_ERROR, Detached);
      CancelsStay(read, store.trail);
      return;
    }
    var stopped := store.CutOff(Parent);
    if stopped {
      UnfinishedConcludes(store.trail);
      return;
    }
    if installError.Some? {
      Conclude(store, InstallErrorCode(installError.value), Parent);
    } else {
      Finalize(store, current);
    }
    CausesStay(done, store.trail);
  }

  /** Finalizing keeps the counts; any failure on the way is settled. Nothing
      but a cancellation, a shutdown or a clock that falls back can fail it. */
  method Finalize(store: AiStore, current: Operation)
    requires store.Valid() && CancelHonoured(store.trail)
    requires current == store.row && current.state == Running
    modifies store
    ensures store.Valid() && RunConcluded(store.trail, store.shuttingDown) && old(store.trail) <= store.trail
    ensures !Disturbed(store) ==> store.row.state == Succeeded
    ensures store.row.state == Succeeded ==>
      store.row.completed == current.completed && store.row.total == current.total
  {
    hide ValidOperation, Effect, Decide, Accepts, Written, CancelHonoured, RunConcluded, ClockFellBack, Drift;
    var finalizing := Progress(Finalizing, current.completed, current.total);
    ghost var read := store.trail;
    var r, wrote := Invoke(store, current.revision, finalizing, Parent);
    FinalOutcome(read, finalizing, wrote, r, store.trail);
    if r.Failure? {
      ghost var failed := store.trail;
      SettleFinalizationFailure(store);
      CausesStay(failed, store.trail);
      return;
    }
    FinishInstall(store, r.value);
  }

  /** The last write of a run, on a row that says it is finalizing. */
  method FinishInstall(store: AiStore, current: Operation)
    requires store.Valid() && CancelHonoured(store.trail)
    requires current == store.row && current.state == Running && current.phase == Finalizing
    modifies store
    ensures store.Valid() && RunConcluded(store.trail, store.shuttingDown) && old(store.trail) <= store.trail
    ensures !Disturbed(store) ==> store.row.state == Succeeded
    ensures store.row.state == Succeeded ==>
      store.row.completed == current.completed && store.row.total == current.total
  {
    hide ValidOperation, Effect, Decide, Accepts, Written, CancelHonoured, RunConcluded, ClockFellBack, Drift;
    ghost var read := store.trail;
    var r, wrote := Invoke(store, current.revision, Succeed, Parent);
    FinalOutcome(read, Succeed, wrote, r, store.trail);
    if r.Failure? {
      ghost var failed := store.trail;
      SettleFinalizationFailure(store);
      CausesStay(failed, store.trail);
    } else {
      SuccessConcludes(store.trail, store.shuttingDown);
    }
  }

  /** What made a finalizing call fail is still in the trail when it has been
      settled. */
  lemma CausesStay(failed: seq<Operation>, settled: seq<Operation>)
    requires failed <= settled
    ensures CancelAccepted(failed) ==> CancelAccepted(settled)
    ensures ClockFellBack(failed) ==> ClockFellBack(settled)
  {
    if CancelAccepted(failed) {
      CancelsStay(failed, settled);
    }
    if ClockFellBack(failed) {
      var i :| FallsAt(failed, i);
      FallsStay(failed, settled, i);
    }
  }

  method SettleFinalizationFailure(store: AiStore)
    requires store.Valid() && CancelHonoured(store.trail)
    requires store.row.state == Running || store.row.state == Cancelling || store.row.state == Succeeded
    modifies store
    ensures store.Valid() && RunConcluded(store.trail, store.shuttingDown) && old(store.trail) <= store.trail
    ensures old(store.shuttingDown) ==> store.shuttingDown
    ensures store.row.state == Succeeded <==> old(store.row).state == Succeeded
    ensures store.row.state == Succeeded ==> store.row == old(store.row)
  {
    var stopped := store.CutOff(Parent);
    if stopped {
      return;
    }
    Conclude(store, INTERNAL_ERROR, Detached);
  }

  /** A finalizing call on a running row: only `Succeed` can have ended it; and
      if it failed, then by shutdown, by an accepted cancellation, or because
      the update time fell back, or else it had succeeded. */
  lemma FinalOutcome(
      read: seq<Operation>, call: Call, wrote: Option<Operation>, r: Result<Operation, Error>, after: seq<Operation>)
    requires IsTrail(read) && read[|read| - 1].state == Running
    requires
      || call == Succeed
      || call == Progress(Finalizing, read[|read| - 1].completed, read[|read| - 1].total)
    requires if wrote.None? then Drift(read, after)
             else Effect(read[|read| - 1], call, wrote.value) && Drift(read + [wrote.value], after)
    requires r.Failure? && r.error == PreconditionFailed ==> wrote.None? && after != read
    requires r.Failure? && r.error == RepositoryState ==>
      wrote.Some? && (after[|after| - 1] != wrote.value || wrote.value.updatedAt < read[|read| - 1].updatedAt)
    ensures Accepts(read[|read| - 1], call) && read <= after
    ensures
      var row := after[|after| - 1];
      && (row.state == Running || row.state == Cancelling || (wrote.Some? && row.state == Succeeded))
      && (wrote.Some? && row == wrote.value && call != Succeed ==> row.state == Running && row.phase == Finalizing)
      && (wrote.Some? && call == Succeed ==> row.state == Succeeded)
      && row.completed == read[|read| - 1].completed && row.total == read[|read| - 1].total
    ensures r.Failure? && (r.error == PreconditionFailed || r.error == RepositoryState) ==>
      CancelAccepted(after) || ClockFellBack(after)
  {
    FinalCallIsAccepted(read, call);
    DriftExtends(if wrote.None? then read else read + [wrote.value], after);
    hide ValidOperation, CancelAccepted, ClockFellBack;
    if r.Failure? && (r.error == PreconditionFailed || r.error == RepositoryState) {
      FailureIsDisturbance(read, call, wrote, r.error, after);
    }
  }

  lemma FinalCallIsAccepted(read: seq<Operation>, call: Call)
    requires IsTrail(read) && read[|read| - 1].state == Running
    requires
      || call == Succeed
      || call == Progress(Finalizing, read[|read| - 1].completed, read[|read| - 1].total)
    ensures Accepts(read[|read| - 1], call)
  {
    TrailsAreValid(read);
  }
}
