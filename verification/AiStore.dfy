/** The persisted row of one operation and the calls made on it, with every
    other actor allowed to move between any two store statements.

    `Environment` is that allowance: at each point it may accept one
    cancellation of the row (`CancellationsCollapse` shows that any number
    comes to this), start the process shutdown, or change the availability of
    the model being activated. */
module AiStores {
  import opened Wrappers
  import opened Operations

  /** A committed activation: the generation it made active, and the model
      availability revision it was committed under. */
  datatype Commit = Commit(generation: string, availabilityRevision: int, available: bool)

  /** A trail is every version a row has had, oldest first. */
  ghost predicate IsTrail(trail: seq<Operation>) {
    && |trail| > 0
    && (forall i :: 0 <= i < |trail| ==> ValidOperation(trail[i]))
    && (forall i :: 0 <= i < |trail| ==> trail[i].revision == trail[0].revision + i)
  }

  /** A cancellation of the running row has been accepted at some point. */
  ghost predicate CancelAccepted(trail: seq<Operation>) {
    exists i :: 0 <= i < |trail| && trail[i].state == Cancelling
  }

  /** No accepted cancellation has been overridden. */
  ghost predicate CancelHonoured(trail: seq<Operation>)
    requires |trail| > 0
  {
    CancelAccepted(trail) ==> trail[|trail| - 1].state == Cancelling || trail[|trail| - 1].state == Cancelled
  }

  lemma ExtendTrail(trail: seq<Operation>, next: Operation)
    requires IsTrail(trail) && ValidOperation(next) && next.revision == trail[|trail| - 1].revision + 1
    ensures IsTrail(trail + [next])
    ensures
      CancelHonoured(trail)
      && (trail[|trail| - 1].state == Running || next.state == Cancelled || next.state == Cancelling)
      ==> CancelHonoured(trail + [next])
  {
    var longer := trail + [next];
    forall i | 0 <= i < |longer| ensures ValidOperation(longer[i]) {
      if i < |trail| {
        assert longer[i] == trail[i];
      }
    }
    assert trail[|trail| - 1].state == Running && CancelHonoured(trail) ==> !CancelAccepted(trail);
    assert forall i :: 0 <= i < |trail| ==> longer[i] == trail[i];
  }

  /** What the environment can do to a row's trail between two calls. */
  ghost predicate Drift(before: seq<Operation>, after: seq<Operation>) {
    || after == before
    || (|before| > 0 && |after| == |before| + 1 && after[..|before|] == before
        && Effect(before[|before| - 1], RequestCancel, after[|before|]))
  }

  /** The update time of version `i + 1` is before that of version `i`. */
  ghost predicate FallsAt(trail: seq<Operation>, i: int) {
    0 <= i < |trail| - 1 && trail[i + 1].updatedAt < trail[i].updatedAt
  }

  ghost predicate ClockFellBack(trail: seq<Operation>) {
    exists i :: FallsAt(trail, i)
  }

  lemma FallsStay(before: seq<Operation>, after: seq<Operation>, i: int)
    requires before <= after && FallsAt(before, i)
    ensures ClockFellBack(after)
  {
    assert FallsAt(after, i);
  }

  lemma CancelsStay(before: seq<Operation>, after: seq<Operation>)
    requires before <= after && CancelAccepted(before)
    ensures CancelAccepted(after)
  {
    var i :| 0 <= i < |before| && before[i].state == Cancelling;
    assert after[i].state == Cancelling;
  }

  lemma DriftExtends(before: seq<Operation>, after: seq<Operation>)
    requires Drift(before, after)
    ensures before <= after
  {
  }

  lemma DriftComposes(a: seq<Operation>, b: seq<Operation>, c: seq<Operation>)
    requires IsTrail(a) && Drift(a, b) && Drift(b, c)
    ensures Drift(a, c)
  {
  }

  /** What drift can make of the last row, by its state. */
  lemma OvertakenRow(before: seq<Operation>, after: seq<Operation>)
    requires IsTrail(before) && Drift(before, after)
    ensures |after| > 0 && after[|after| - 1].kind == before[|before| - 1].kind
    ensures
      var was, now := before[|before| - 1], after[|after| - 1];
      match was.state
      case Running =>
        after == before
        || (now.state == Cancelling && now.completed == was.completed && now.total == was.total)
      case Queued => after == before || now.state == Cancelled
      case _ => after == before
  {
  }

  /** What a planned change writes. */
  lemma PlannedWrites(current: Operation, call: Call, finishAt: Instant, updateAt: Instant)
    requires ValidOperation(current) && Decide(current, call, finishAt).Write?
    ensures
      var next := Apply(current, Decide(current, call, finishAt).change, updateAt);
      && ValidOperation(next) && next.revision == current.revision + 1 && Effect(current, call, next)
      && (call == FinishCancelled ==> next.state == Cancelled)
      && next.updatedAt == Max(current.createdAt, updateAt)
  {
    var request := Event(current.revision, call, finishAt, updateAt);
    PerformKeeps(current, request);
    PerformIsEffect(current, request);
    assert Perform(current, request) == Apply(current, Decide(current, call, finishAt).change, updateAt);
    hide ValidOperation, Effect, Descends;
  }

  lemma TrailsAreValid(trail: seq<Operation>)
    requires IsTrail(trail)
    ensures |trail| > 0 && ValidOperation(trail[|trail| - 1])
  {
  }

  lemma SucceedEndsRunning(row: Operation, event: Event)
    requires ValidOperation(row)
    requires row.state == Running && event == Event(row.revision, Succeed, event.finishClock, event.updateClock)
    ensures Perform(row, event).state == Succeeded && Perform(row, event).revision == row.revision + 1
    ensures Written(row, Succeed, Perform(row, event))
  {
    CallsDoExactly(row, event);
    hide Perform, ValidOperation;
  }

  /** The context a store call runs under: detached from shutdown, the
      worker's own, or the one its cancellation watcher can also cancel. */
  datatype Scope = Detached | Parent | Watched

  class AiStore {
    var row: Operation
    var shuttingDown: bool
    var modelAvailable: bool
    var modelRevision: int
    var activeGeneration: string
    ghost var trail: seq<Operation>   // every version the row has had
    ghost var commits: seq<Commit>

    ghost predicate Valid()
      reads this
    {
      IsTrail(trail) && trail[|trail| - 1] == row
    }

    constructor (claimed: Operation, available: bool, revision: int, active: string)
      requires ValidOperation(claimed)
      ensures Valid() && trail == [claimed] && row == claimed && commits == []
      ensures activeGeneration == active && modelRevision == revision && modelAvailable == available
      ensures CancelHonoured(trail) && !shuttingDown
    {
      row, shuttingDown := claimed, false;
      modelAvailable, modelRevision, activeGeneration := available, revision, active;
      trail, commits := [claimed], [];
    }

    method Environment()
      requires Valid()
      modifies this
      ensures Valid()
      ensures Drift(old(trail), trail)
      ensures old(shuttingDown) ==> shuttingDown
      ensures activeGeneration == old(activeGeneration) && commits == old(commits)
      ensures ModelSince(old(modelRevision), old(modelAvailable))
      ensures CancelHonoured(old(trail)) ==> CancelHonoured(trail)
    {
      hide ValidOperation;
      var cancel: bool, finishAt: Instant, updateAt: Instant := *, *, *;
      if cancel {
        var request := Event(row.revision, RequestCancel, finishAt, updateAt);
        PerformKeeps(row, request);
        PerformIsEffect(row, request);
        var next := Perform(row, request);
        if next != row {
          ExtendTrail(trail, next);
          row, trail := next, trail + [next];
        }
      }
      var stop: bool, toggle: bool := *, *;
      if stop {
        shuttingDown := true;
      }
      if toggle {
        modelAvailable, modelRevision := !modelAvailable, modelRevision + 1;
      }
    }

    /** Every change of the model's availability has a revision of its own. */
    ghost predicate ModelSince(revision: int, available: bool)
      reads this
    {
      revision <= modelRevision && (revision == modelRevision ==> available == modelAvailable)
    }

    /** Whether a call in `scope` may be cut off now. The watcher cancels its
        context only after it has read a cancelling row. */
    ghost predicate Stoppable(scope: Scope)
      reads this
    {
      match scope
      case Detached => false
      case Parent => shuttingDown
      case Watched => shuttingDown || row.state == Cancelling
    }

    method CutOff(scope: Scope) returns (stopped: bool)
      ensures stopped ==> Stoppable(scope)
    {
      var noticed: bool := *;
      stopped := noticed && (match scope
                             case Detached => false
                             case Parent => shuttingDown
                             case Watched => shuttingDown || row.state == Cancelling);
    }

    method Get(scope: Scope) returns (r: Result<Operation, Error>)
      requires Valid()
      modifies this
      ensures Valid()
      ensures Drift(old(trail), trail)
      ensures old(shuttingDown) ==> shuttingDown
      ensures activeGeneration == old(activeGeneration) && commits == old(commits)
      ensures ModelSince(old(modelRevision), old(modelAvailable))
      ensures CancelHonoured(old(trail)) ==> CancelHonoured(trail)
      ensures r.Success? ==> r.value == row
      ensures r.Failure? ==> r.error == ContextCanceled && Stoppable(scope)
    {
      Environment();
      var stopped := CutOff(scope);
      if stopped {
        return Failure(ContextCanceled);
      }
      return Success(row);
    }

    /** The store's conditional update: writes the planned change if the row
        still has the revision that was read. */
    method Update(current: Operation, next: Operation, scope: Scope) returns (error: Option<Error>)
      requires Valid()
      requires current.revision <= row.revision && (current.revision == row.revision ==> current == row)
      requires ValidOperation(next) && next.revision == current.revision + 1
      modifies this
      ensures Valid()
      ensures old(shuttingDown) ==> shuttingDown
      ensures activeGeneration == old(activeGeneration) && commits == old(commits)
      ensures ModelSince(old(modelRevision), old(modelAvailable))
      ensures error == None ==> current == old(row) && row == next && trail == old(trail) + [row]
      ensures error.Some? ==>
        && Drift(old(trail), trail)
        && (|| (error.value == PreconditionFailed && row.revision > current.revision)
            || (error.value == ContextCanceled && Stoppable(scope)))
      ensures CancelHonoured(old(trail)) && (current.state == Running || next.state == Cancelled)
              ==> CancelHonoured(trail)
    {
      hide ValidOperation, Effect;
      Environment();
      var stopped := CutOff(scope);
      if stopped {
        return Some(ContextCanceled);
      }
      if row.revision != current.revision {
        return Some(PreconditionFailed);
      }
      ExtendTrail(trail, next);
      row, trail := next, trail + [next];
      error := None;
    }

    /** One transition as the service makes it: the conditional update, then
        the read-back and its check. */
    method Transition(current: Operation, call: Call, finishAt: Instant, scope: Scope)
      returns (r: Result<Operation, Error>, ghost wrote: Option<Operation>)
      requires Valid() && ValidOperation(current)
      requires current.revision <= row.revision && (current.revision == row.revision ==> current == row)
      requires Decide(current, call, finishAt).Write?
      modifies this
      ensures Valid()
      ensures old(shuttingDown) ==> shuttingDown
      ensures activeGeneration == old(activeGeneration) && commits == old(commits)
      ensures ModelSince(old(modelRevision), old(modelAvailable))
      ensures wrote.None? ==>
        && Drift(old(trail), trail)
        && r.Failure?
        && (|| (r.error == PreconditionFailed && row.revision > current.revision)
            || (r.error == ContextCanceled && Stoppable(scope)))
      ensures wrote.Some? ==>
        && current == old(row) && Effect(current, call, wrote.value)
        && wrote.value.revision == current.revision + 1
        && Drift(old(trail) + [wrote.value], trail)
        && (r.Success? ==> r.value == row == wrote.value)
        && (r.Failure? ==>
              || (r.error == ContextCanceled && Stoppable(scope))
              || (r.error == RepositoryState
                  && (row != wrote.value || wrote.value.updatedAt < current.updatedAt)))
      ensures CancelHonoured(old(trail)) && (current.state == Running || call == FinishCancelled)
              ==> CancelHonoured(trail)
    {
      hide ValidOperation, Effect, Descends, Apply, Decide, ReadBack, IsTrail, CancelHonoured;
      var updateAt: Instant := *;
      PlannedWrites(current, call, finishAt, updateAt);
      TrailsAreValid(trail);
      var next := Apply(current, Decide(current, call, finishAt).change, updateAt);
      var refused := Update(current, next, scope);
      if refused.Some? {
        return Failure(refused.value), None;
      }
      wrote := Some(row);
      var seen := Get(scope);
      if seen.Failure? {
        return seen, wrote;
      }
      TrailsAreValid(trail);
      CancellationDescends(wrote.value, seen.value);
      ReadBackAcceptsExactly(current, call, finishAt, updateAt, seen.value);
      r := ReadBack(current, Decide(current, call, finishAt).change, seen.value);
    }

    /** The activation commit, one transaction: it retires the previous
        generation, activates the new one and finishes the operation, or does
        none of these. */
    method CommitAtOnce(expectedRevision: int, expectedAvailability: int, generation: string)
      returns (error: Option<Error>)
      requires Valid()
      modifies this
      ensures Valid() && shuttingDown == old(shuttingDown)
      ensures modelRevision == old(modelRevision) && modelAvailable == old(modelAvailable)
      ensures error.Some? ==>
        && unchanged(this)
        && match error.value
           case PreconditionFailed => row.revision != expectedRevision || modelRevision != expectedAvailability
           case InvalidTransition => row.kind != ModelActivate || row.state != Running
           case ModelUnavailable => modelRevision == expectedAvailability && !modelAvailable
           case _ => false
      ensures error.None? ==>
        && commits == old(commits) + [Commit(generation, expectedAvailability, true)]
        && activeGeneration == generation
        && old(row).revision == expectedRevision && old(row).state == Running
        && row.state == Succeeded && Written(old(row), Succeed, row)
        && trail == old(trail) + [row]
        && (CancelHonoured(old(trail)) ==> CancelHonoured(trail))
    {
      hide ValidOperation, Effect, Perform, Descends, Accepts;
      if row.revision != expectedRevision {
        return Some(PreconditionFailed);
      }
      if row.kind != ModelActivate || row.state != Running {
        return Some(InvalidTransition);
      }
      if modelRevision != expectedAvailability {
        return Some(PreconditionFailed);
      }
      if !modelAvailable {
        return Some(ModelUnavailable);
      }
      var finishAt: Instant, updateAt: Instant := *, *;
      var next := Perform(row, Event(row.revision, Succeed, finishAt, updateAt));
      TrailsAreValid(trail);
      PerformKeeps(row, Event(row.revision, Succeed, finishAt, updateAt));
      SucceedEndsRunning(row, Event(row.revision, Succeed, finishAt, updateAt));
      ExtendTrail(trail, next);
      row, trail := next, trail + [next];
      activeGeneration, commits := generation, commits + [Commit(generation, modelRevision, modelAvailable)];
      error := None;
    }

    /** The commit as the worker calls it. Only the final read of the row is a
        statement of its own. */
    method CommitActivation(expectedRevision: int, expectedAvailability: int, generation: string, scope: Scope)
      returns (error: Option<Error>)
      requires Valid()
      modifies this
      ensures Valid()
      ensures old(shuttingDown) ==> shuttingDown
      ensures CancelHonoured(old(trail)) ==> CancelHonoured(trail)
      ensures commits == old(commits) ==> activeGeneration == old(activeGeneration) && Drift(old(trail), trail)
      ensures commits == old(commits) ==> error.Some?
      ensures commits != old(commits) ==>
        && commits == old(commits) + [Commit(generation, expectedAvailability, true)]
        && activeGeneration == generation
        && old(row).revision == expectedRevision && old(row).state == Running
        && row.state == Succeeded && Written(old(row), Succeed, row)
        && trail == old(trail) + [row]
      ensures ModelSince(old(modelRevision), old(modelAvailable))
      ensures error.Some? ==>
        match error.value
        case ContextCanceled => Stoppable(scope)
        case PreconditionFailed => row.revision != expectedRevision || modelRevision != expectedAvailability
        case InvalidTransition => row.kind != ModelActivate || row.state != Running
        case ModelUnavailable => modelRevision == expectedAvailability && !modelAvailable
        case _ => false
    {
      hide ValidOperation, Effect, Perform, Descends, IsTrail, CancelHonoured, Drift, Accepts;
      ghost var start := trail;
      Environment();
      OvertakenRow(start, trail);
      var stopped := CutOff(scope);
      if stopped {
        return Some(ContextCanceled);
      }
      error := CommitAtOnce(expectedRevision, expectedAvailability, generation);
      if error.Some? {
        return;
      }
      ghost var done := trail;
      Environment();
      OvertakenRow(done, trail);
      stopped := CutOff(scope);
      error := if stopped then Some(ContextCanceled) else None;
    }
  }
}
