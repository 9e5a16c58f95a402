/** Idempotent admission of installs and activations: any number of callers
    use one idempotency key at the same time. Each caller looks the key up,
    inserts if it found nothing, and reads the stored request back; other
    actors may move the stored operation between any two of these steps, and a
    caller's context may cut off any of its store calls.

    Installs and activations follow the same protocol on two queues, each with
    its own keys. A `System` is one queue under one key. A request is known by
    its hash; an install also carries the candidate it was made from
    (`payload`). */
module Admission {
  import opened Wrappers
  import opened Operations
  import opened RequestHash

  datatype Subject =
    | Installing(candidateId: string, storageMode: string)
    | Activating(modelId: string, availabilityRevision: int)

  /** `admissible` says whether the candidate or model, the storage mode and the
      key pass the checks made before anything is looked up. */
  datatype Request = Request(
    kind: Kind, modelId: string, subject: Subject, hash: string, payload: string, admissible: bool)

  function InstallRequest(candidateId: string, storageMode: string, candidate: string, admissible: bool): Request {
    Request(ModelInstall, "", Installing(candidateId, storageMode), InstallPreimage(candidateId, storageMode),
            candidate, admissible)
  }

  function ActivationRequest(modelId: string, availabilityRevision: int, admissible: bool): Request {
    Request(ModelActivate, modelId, Activating(modelId, availabilityRevision),
            ActivationPreimage(modelId, availabilityRevision), "", admissible)
  }

  /** A stored request and the present state of its operation. */
  datatype Work = Work(request: Request, op: Operation)

  datatype Reason = InvalidRequest | Conflict | Inconsistent | StoreRefused | CutOff
  datatype Outcome = Admitted(op: Operation, created: bool, replayed: bool) | Rejected(reason: Reason)

  type OperationId = s: string | s != "" witness "aio_"

  function NewOperation(id: OperationId, request: Request, now: Instant): Operation {
    Operation(id, request.kind, Queued, PhaseQueued, request.modelId, 0, 0, None, "", 1, now, now, None)
  }

  /** The stored request is for the same candidate and storage mode, or model
      and revision; a stored candidate still passes its checks; and the
      operation fits. */
  predicate ValidWork(work: Work, request: Request) {
    && work.request.kind == request.kind && work.request.modelId == request.modelId
    && work.request.subject == request.subject
    && (request.kind == ModelInstall ==> work.request.admissible)
    && ValidOperation(work.op) && work.op.kind == request.kind && work.op.modelId == request.modelId
  }

  predicate SameCreation(value: Operation, requested: Operation) {
    && value.id == requested.id && value.kind == requested.kind && value.modelId == requested.modelId
    && value.libraryId == requested.libraryId && value.state == requested.state && value.phase == requested.phase
    && value.completed == requested.completed && value.total == requested.total
    && value.errorCode == requested.errorCode && value.revision == requested.revision
  }

  /** The answer when the key is found at the start. */
  function ReplayVerdict(work: Work, request: Request): Outcome {
    if work.request.hash != request.hash then Rejected(Conflict)
    else if !ValidWork(work, request) then Rejected(Inconsistent)
    else Admitted(work.op, false, true)
  }

  /** The answer after an insertion attempt and its read-back. */
  function CreateVerdict(work: Work, request: Request, requested: Operation, created: bool): Outcome {
    if work.request.hash != request.hash then Rejected(Conflict)
    else if !ValidWork(work, request) then Rejected(Inconsistent)
    else if work.request.payload != request.payload || (created && !SameCreation(work.op, requested))
    then Rejected(Inconsistent)
    else Admitted(work.op, created, !created)
  }

  // ----------------------------------------------------------- the system

  datatype Caller =
    | Waiting(request: Request)
    | Missed(request: Request, requested: Operation)
    | Stored(request: Request, requested: Operation, created: bool)
    | Finished(request: Request, outcome: Outcome)

  /** The row under one key, its callers, the log of insertions by caller, and
      how often the worker was woken. */
  datatype System = System(row: Option<Work>, callers: seq<Caller>, insertions: seq<nat>, wakes: nat)

  datatype Step =
    | Find(caller: nat, newId: OperationId, now: Instant)
    | Insert(caller: nat)
    | RefuseInsert(caller: nat)
    | Cut(caller: nat)
    | ReadItBack(caller: nat)
    | Move(event: Event)

  function Initial(requests: seq<Request>): System {
    System(None, seq(|requests|, i requires 0 <= i < |requests| => Waiting(requests[i])), [], 0)
  }

  function Become(sys: System, i: nat, caller: Caller): System
    requires i < |sys.callers|
  {
    sys.(callers := sys.callers[i := caller])
  }

  function Next(sys: System, step: Step): System {
    match step
    case Find(i, id, now) =>
      if i >= |sys.callers| || !sys.callers[i].Waiting? then sys
      else
        var request := sys.callers[i].request;
        if !request.admissible then Become(sys, i, Finished(request, Rejected(InvalidRequest)))
        else if sys.row.Some? then Become(sys, i, Finished(request, ReplayVerdict(sys.row.value, request)))
        else Become(sys, i, Missed(request, NewOperation(id, request, now)))
    case Insert(i) =>
      if i >= |sys.callers| || !sys.callers[i].Missed? then sys
      else
        var me := sys.callers[i];
        if sys.row.Some? then Become(sys, i, Stored(me.request, me.requested, false))
        else Become(sys, i, Stored(me.request, me.requested, true)).(
          row := Some(Work(me.request, me.requested)), insertions := sys.insertions + [i])
    case RefuseInsert(i) =>
      if i >= |sys.callers| || !sys.callers[i].Missed? then sys
      else Become(sys, i, Finished(sys.callers[i].request, Rejected(StoreRefused)))
    case Cut(i) =>
      if i >= |sys.callers| || sys.callers[i].Finished? || !sys.callers[i].request.admissible then sys
      else Become(sys, i, Finished(sys.callers[i].request, Rejected(CutOff)))
    case ReadItBack(i) =>
      if i >= |sys.callers| || !sys.callers[i].Stored? || sys.row.None? then sys
      else
        var me := sys.callers[i];
        var outcome := CreateVerdict(sys.row.value, me.request, me.requested, me.created);
        Become(sys, i, Finished(me.request, outcome)).(
          wakes := sys.wakes + if outcome.Admitted? && outcome.created then 1 else 0)
    case Move(event) =>
      if sys.row.None? then sys
      else sys.(row := Some(sys.row.value.(op := Perform(sys.row.value.op, event))))
  }

  function Run(sys: System, steps: seq<Step>): System
    decreases |steps|
  {
    if steps == [] then sys else Run(Next(sys, steps[0]), steps[1..])
  }

  /** Equal hashes come from requests for the same thing. */
  ghost predicate HashesIdentify(requests: seq<Request>) {
    && (forall i :: 0 <= i < |requests| ==> !requests[i].kind.UnknownKind?)
    && (forall i, j ::
          0 <= i < |requests| && 0 <= j < |requests| && requests[i].hash == requests[j].hash ==>
          SameSubject(requests[i], requests[j]))
  }

  predicate SameSubject(a: Request, b: Request) {
    a.kind == b.kind && a.modelId == b.modelId && a.subject == b.subject
  }

  predicate SawCreated(caller: Caller) {
    caller.Finished? && caller.outcome.Admitted? && caller.outcome.created
  }

  // ------------------------------------------------------------ invariant

  predicate Requested(request: Request, requested: Operation) {
    FreshOperation(requested) && requested.kind == request.kind && requested.modelId == request.modelId
  }

  /** What a caller has seen, against the row as it is now. */
  ghost predicate CallerOk(row: Option<Work>, inserted: bool, caller: Caller) {
    match caller
    case Waiting(_) => !inserted
    case Missed(request, requested) => !inserted && request.admissible && Requested(request, requested)
    case Stored(request, requested, created) =>
      && request.admissible && row.Some? && Requested(request, requested) && (created <==> inserted)
      && (created ==> row.value.request == request && Descends(requested, row.value.op))
    case Finished(request, Admitted(op, created, replayed)) =>
      && request.admissible && row.Some? && created != replayed && (created <==> inserted)
      && row.value.request.hash == request.hash && Descends(op, row.value.op)
    case Finished(request, Rejected(Conflict)) =>
      request.admissible && row.Some? && row.value.request.hash != request.hash && !inserted
    case Finished(request, Rejected(Inconsistent)) =>
      && request.admissible && row.Some? && row.value.request.hash == request.hash
      && (if inserted then row.value.op.revision > 1 else row.value.request.payload != request.payload)
    case Finished(request, Rejected(CutOff)) => request.admissible
    case Finished(request, Rejected(StoreRefused)) => request.admissible && !inserted
    case Finished(request, Rejected(InvalidRequest)) => !request.admissible && !inserted
  }

  ghost predicate Inv(sys: System, requests: seq<Request>) {
    && HashesIdentify(requests)
    && |sys.callers| == |requests|
    && (forall i :: 0 <= i < |requests| ==>
          sys.callers[i].request == requests[i] && CallerOk(sys.row, i in sys.insertions, sys.callers[i]))
    && |sys.insertions| == (if sys.row.Some? then 1 else 0)
    && (sys.row.Some? ==>
          && sys.insertions[0] < |requests| && sys.row.value.request == requests[sys.insertions[0]]
          && ValidWork(sys.row.value, sys.row.value.request))
    && sys.wakes == (if sys.row.Some? && SawCreated(sys.callers[sys.insertions[0]]) then 1 else 0)
  }

  lemma MoveKeepsCaller(work: Work, event: Event, inserted: bool, caller: Caller)
    requires ValidOperation(work.op) && CallerOk(Some(work), inserted, caller)
    ensures CallerOk(Some(work.(op := Perform(work.op, event))), inserted, caller)
  {
    hide ValidOperation, Perform;
    PerformKeeps(work.op, event);
    var moved := Perform(work.op, event);
    match caller {
      case Stored(_, requested, true) => DescendsIsTransitive(requested, work.op, moved);
      case Finished(_, Admitted(op, _, _)) => DescendsIsTransitive(op, work.op, moved);
      case _ =>
    }
  }

  /** A stored row of the same hash is valid work for the request. */
  lemma SameHashIsValidWork(sys: System, requests: seq<Request>, i: nat)
    requires Inv(sys, requests) && sys.row.Some? && i < |requests|
    requires sys.row.value.request.hash == requests[i].hash
    ensures ValidWork(sys.row.value, requests[i])
  {
    hide ValidOperation, CallerOk;
    assert requests[sys.insertions[0]].hash == requests[i].hash;
  }

  lemma FindKeepsInv(sys: System, requests: seq<Request>, i: nat, id: OperationId, now: Instant)
    requires Inv(sys, requests)
    ensures Inv(Next(sys, Find(i, id, now)), requests)
  {
    hide ValidOperation, Descends;
    if i < |sys.callers| && sys.callers[i].Waiting? {
      var request := requests[i];
      if sys.row.Some? {
        DescendsIsReflexive(sys.row.value.op);
        if sys.row.value.request.hash == request.hash {
          SameHashIsValidWork(sys, requests, i);
        }
      }
    }
  }

  lemma InsertKeepsInv(sys: System, requests: seq<Request>, i: nat)
    requires Inv(sys, requests)
    ensures Inv(Next(sys, Insert(i)), requests)
  {
    hide ValidOperation, Descends;
    if i < |sys.callers| && sys.callers[i].Missed? {
      FreshIsValid(sys.callers[i].requested);
      DescendsIsReflexive(sys.callers[i].requested);
    }
  }

  lemma CutKeepsInv(sys: System, requests: seq<Request>, i: nat)
    requires Inv(sys, requests)
    ensures Inv(Next(sys, Cut(i)), requests)
  {
    hide ValidOperation, Descends, ValidWork;
  }

  lemma ReadItBackKeepsInv(sys: System, requests: seq<Request>, i: nat)
    requires Inv(sys, requests)
    ensures Inv(Next(sys, ReadItBack(i)), requests)
  {
    hide ValidOperation;
    if i < |sys.callers| && sys.callers[i].Stored? {
      var request := requests[i];
      DescendsIsReflexive(sys.row.value.op);
      if sys.row.value.request.hash == request.hash {
        SameHashIsValidWork(sys, requests, i);
      }
      if i in sys.insertions {
        assert i == sys.insertions[0];
      }
    }
  }

  lemma MoveKeepsInv(sys: System, requests: seq<Request>, event: Event)
    requires Inv(sys, requests)
    ensures Inv(Next(sys, Move(event)), requests)
  {
    hide ValidOperation, Descends, Perform;
    if sys.row.Some? {
      PerformKeeps(sys.row.value.op, event);
      PerformKeepsIdentity(sys.row.value.op, event);
      forall i | 0 <= i < |requests|
        ensures CallerOk(Next(sys, Move(event)).row, i in sys.insertions, sys.callers[i])
      {
        MoveKeepsCaller(sys.row.value, event, i in sys.insertions, sys.callers[i]);
      }
    }
  }

  lemma PerformKeepsIdentity(op: Operation, event: Event)
    ensures
      var next := Perform(op, event);
      next.id == op.id && next.kind == op.kind && next.modelId == op.modelId
  {
  }

  lemma InvIsKept(sys: System, requests: seq<Request>, step: Step)
    requires Inv(sys, requests)
    ensures Inv(Next(sys, step), requests)
  {
    match step {
      case Find(i, id, now) => FindKeepsInv(sys, requests, i, id, now);
      case Insert(i) => InsertKeepsInv(sys, requests, i);
      case RefuseInsert(i) =>
      case Cut(i) => CutKeepsInv(sys, requests, i);
      case ReadItBack(i) => ReadItBackKeepsInv(sys, requests, i);
      case Move(event) => MoveKeepsInv(sys, requests, event);
    }
  }

  lemma {:induction false} RunsKeepInv(sys: System, requests: seq<Request>, steps: seq<Step>)
    requires Inv(sys, requests)
    ensures Inv(Run(sys, steps), requests)
    decreases |steps|
  {
    if steps != [] {
      InvIsKept(sys, requests, steps[0]);
      RunsKeepInv(Next(sys, steps[0]), requests, steps[1..]);
    }
  }

  // ------------------------------------------------------------- results

  ghost predicate IsInstall(request: Request) {
    exists id, mode, candidate, ok ::
      (mode == "managed" || mode == "direct") && request == InstallRequest(id, mode, candidate, ok)
  }

  ghost predicate IsActivation(request: Request) {
    exists id, revision, ok ::
      MIN_INT64 <= revision <= MAX_INT64 && request == ActivationRequest(id, revision, ok)
  }

  lemma HashIdentifiesRequest(a: Request, b: Request)
    requires (IsInstall(a) || IsActivation(a)) && (IsInstall(b) || IsActivation(b))
    requires a.hash == b.hash
    ensures SameSubject(a, b)
  {
    if IsInstall(a) && IsActivation(b) {
      HashesOfDifferentKindsDiffer(a, b);
    } else if IsActivation(a) && IsInstall(b) {
      HashesOfDifferentKindsDiffer(b, a);
    } else if IsInstall(a) && IsInstall(b) {
      var id1, mode1, candidate1, ok1 :|
        (mode1 == "managed" || mode1 == "direct") && a == InstallRequest(id1, mode1, candidate1, ok1);
      var id2, mode2, candidate2, ok2 :|
        (mode2 == "managed" || mode2 == "direct") && b == InstallRequest(id2, mode2, candidate2, ok2);
      InstallPreimageIsInjective(id1, mode1, id2, mode2);
    } else if IsActivation(a) && IsActivation(b) {
      var id1, revision1, ok1 :|
        MIN_INT64 <= revision1 <= MAX_INT64 && a == ActivationRequest(id1, revision1, ok1);
      var id2, revision2, ok2 :|
        MIN_INT64 <= revision2 <= MAX_INT64 && b == ActivationRequest(id2, revision2, ok2);
      ActivationPreimageIsInjective(id1, revision1, id2, revision2);
    }
  }

  lemma HashesOfDifferentKindsDiffer(install: Request, activation: Request)
    requires IsInstall(install) && IsActivation(activation)
    ensures install.hash != activation.hash
  {
    var id, mode, candidate, ok :|
      (mode == "managed" || mode == "direct") && install == InstallRequest(id, mode, candidate, ok);
    var model, revision, ok2 :|
      MIN_INT64 <= revision <= MAX_INT64 && activation == ActivationRequest(model, revision, ok2);
    PrefixesDiffer(id + [SEPARATOR] + mode, model + [SEPARATOR] + Converted(revision));
  }

  /** One row at most, one caller at most told that it created it, every
      admitted caller given that row's operation, every conflict a different
      request, and one wake exactly for the caller told so. */
  ghost predicate Idempotent(end: System, requests: seq<Request>) {
    && |end.callers| == |requests|
    && |end.insertions| <= 1 && (end.row.Some? <==> |end.insertions| == 1)
    && (forall i, j ::
          0 <= i < |requests| && 0 <= j < |requests| && SawCreated(end.callers[i]) && SawCreated(end.callers[j]) ==>
          i == j)
    && end.wakes <= 1
    && (end.wakes == 1 <==> exists i :: 0 <= i < |requests| && SawCreated(end.callers[i]))
    && forall i :: 0 <= i < |requests| && end.callers[i].Finished? ==>
         AnsweredRightly(end.row, i in end.insertions, requests[i], end.callers[i].outcome)
  }

  /** `inserted` says whether the caller's own insertion made the row. */
  ghost predicate AnsweredRightly(row: Option<Work>, inserted: bool, request: Request, outcome: Outcome) {
    match outcome
    case Admitted(op, created, replayed) =>
      && request.admissible && row.Some? && op.id == row.value.op.id && row.value.request.hash == request.hash
      && created == inserted && replayed == !created
    case Rejected(Conflict) => request.admissible && row.Some? && row.value.request.hash != request.hash
    case Rejected(Inconsistent) =>
      && request.admissible && row.Some? && row.value.request.hash == request.hash
      && (if inserted then row.value.op.revision > 1 else row.value.request.payload != request.payload)
    case Rejected(InvalidRequest) => !request.admissible
    case Rejected(_) => request.admissible
  }

  lemma InvMeansIdempotent(end: System, requests: seq<Request>)
    requires Inv(end, requests)
    ensures Idempotent(end, requests)
  {
    hide ValidOperation, ValidWork;
    forall i | 0 <= i < |requests| && SawCreated(end.callers[i])
      ensures end.row.Some? && i == end.insertions[0]
    {
      assert CallerOk(end.row, i in end.insertions, end.callers[i]);
    }
  }

  /** Every interleaving of any number of callers on one key of one queue. */
  lemma AdmissionIsIdempotent(requests: seq<Request>, steps: seq<Step>)
    requires
      || (forall i :: 0 <= i < |requests| ==> IsInstall(requests[i]))
      || (forall i :: 0 <= i < |requests| ==> IsActivation(requests[i]))
    ensures Idempotent(Run(Initial(requests), steps), requests)
  {
    InvHoldsAlways(requests, steps);
    InvMeansIdempotent(Run(Initial(requests), steps), requests);
  }

  lemma InvHoldsAlways(requests: seq<Request>, steps: seq<Step>)
    requires forall i :: 0 <= i < |requests| ==> IsInstall(requests[i]) || IsActivation(requests[i])
    ensures Inv(Run(Initial(requests), steps), requests)
  {
    hide ValidOperation;
    forall i, j | 0 <= i < |requests| && 0 <= j < |requests| && requests[i].hash == requests[j].hash
      ensures SameSubject(requests[i], requests[j])
    {
      HashIdentifiesRequest(requests[i], requests[j]);
    }
    RunsKeepInv(Initial(requests), requests, steps);
  }

  // ---------------------------------------------------------- every answer

  /** Looking a key up: a stored request of the same hash is answered with its
      operation, replayed; one of another hash conflicts; and a request that
      found nothing goes on. */
  lemma FindAnswers(sys: System, requests: seq<Request>, i: nat, id: OperationId, now: Instant)
    requires Inv(sys, requests) && i < |requests| && sys.callers[i].Waiting?
    ensures
      var request := requests[i];
      Next(sys, Find(i, id, now)).callers[i] ==
        if !request.admissible then Finished(request, Rejected(InvalidRequest))
        else if sys.row.None? then Missed(request, NewOperation(id, request, now))
        else if sys.row.value.request.hash != request.hash then Finished(request, Rejected(Conflict))
        else Finished(request, Admitted(sys.row.value.op, false, true))
  {
    hide ValidOperation, CallerOk;
    if sys.row.Some? && sys.row.value.request.hash == requests[i].hash {
      SameHashIsValidWork(sys, requests, i);
    }
  }

  /** Inserting: the row is made if there is none, and else left alone. */
  lemma InsertMakesTheRow(sys: System, requests: seq<Request>, i: nat)
    requires Inv(sys, requests) && i < |requests| && sys.callers[i].Missed?
    ensures
      var next := Next(sys, Insert(i));
      && next.callers[i] == Stored(requests[i], sys.callers[i].requested, sys.row.None?)
      && next.row == (if sys.row.None? then Some(Work(requests[i], sys.callers[i].requested)) else sys.row)
      && next.wakes == sys.wakes
  {
    hide ValidOperation, CallerOk;
  }

  /** Reading the row back: its creator is admitted if it has not moved, one
      that lost the insertion is given the stored operation if that was made
      from the same candidate, and another hash conflicts. */
  lemma ReadItBackAnswers(sys: System, requests: seq<Request>, i: nat)
    requires Inv(sys, requests) && i < |requests| && sys.callers[i].Stored?
    ensures
      var request, me, work := requests[i], sys.callers[i], sys.row.value;
      Next(sys, ReadItBack(i)).callers[i] == Finished(
        request,
        if work.request.hash != request.hash then Rejected(Conflict)
        else if if me.created then work.op == me.requested else work.request.payload == request.payload
        then Admitted(work.op, me.created, !me.created)
        else Rejected(Inconsistent))
  {
    hide ValidOperation;
    if sys.row.value.request.hash == requests[i].hash {
      SameHashIsValidWork(sys, requests, i);
    }
    if i in sys.insertions {
      assert i == sys.insertions[0];
    }
  }

  /** A call that nobody interrupts: the three steps in a row admit it, unless
      the key already holds another request. */
  lemma LoneCallIsAdmitted(sys: System, requests: seq<Request>, i: nat, id: OperationId, now: Instant)
    requires Inv(sys, requests) && i < |requests| && sys.callers[i].Waiting? && requests[i].admissible
    requires sys.row.None?
    ensures
      var end := Next(Next(Next(sys, Find(i, id, now)), Insert(i)), ReadItBack(i));
      && end.row == Some(Work(requests[i], NewOperation(id, requests[i], now)))
      && end.callers[i] == Finished(requests[i], Admitted(NewOperation(id, requests[i], now), true, false))
      && end.wakes == sys.wakes + 1
  {
    hide Next, Inv;
    var s1 := Next(sys, Find(i, id, now));
    var s2 := Next(s1, Insert(i));
    FindAnswers(sys, requests, i, id, now);
    InvIsKept(sys, requests, Find(i, id, now));
    FindLeavesTheRow(sys, i, id, now);
    InsertMakesTheRow(s1, requests, i);
    InvIsKept(s1, requests, Insert(i));
    ReadItBackAnswers(s2, requests, i);
    ReadItBackLeavesTheRow(s2, i);
    InvGivesRequests(s2, requests);
    WakesExactlyWhenUntouched(s2, requests, ReadItBack(i));
  }

  lemma FindLeavesTheRow(sys: System, i: nat, id: OperationId, now: Instant)
    ensures Next(sys, Find(i, id, now)).row == sys.row && Next(sys, Find(i, id, now)).wakes == sys.wakes
  {
  }

  lemma ReadItBackLeavesTheRow(sys: System, i: nat)
    ensures Next(sys, ReadItBack(i)).row == sys.row
  {
  }

  lemma InvGivesRequests(sys: System, requests: seq<Request>)
    requires Inv(sys, requests)
    ensures |sys.callers| == |requests| && forall i :: 0 <= i < |requests| ==> sys.callers[i].request == requests[i]
  {
  }

  lemma OneStepOfCause(sys: System, step: Step, i: nat)
    requires i < |sys.callers|
    ensures |Next(sys, step).callers| == |sys.callers|
    ensures Next(sys, step).callers[i].Finished? && Next(sys, step).callers[i] != sys.callers[i] ==>
      && (Next(sys, step).callers[i].outcome == Rejected(StoreRefused) ==> step == RefuseInsert(i))
      && (Next(sys, step).callers[i].outcome == Rejected(CutOff) ==> step == Cut(i))
  {
  }

  /** Over every run a caller is refused by the store, or cut off, only by a
      step of the run that does just that to it. */
  lemma {:induction false} RefusalsHaveCauses(requests: seq<Request>, steps: seq<Step>, i: nat)
    requires i < |requests|
    ensures |Run(Initial(requests), steps).callers| == |requests|
    ensures Run(Initial(requests), steps).callers[i].Finished? ==>
      && (Run(Initial(requests), steps).callers[i].outcome == Rejected(StoreRefused) ==> RefuseInsert(i) in steps)
      && (Run(Initial(requests), steps).callers[i].outcome == Rejected(CutOff) ==> Cut(i) in steps)
    decreases |steps|
  {
    hide Next, Run;
    if steps == [] {
      NothingRun(Initial(requests));
    } else {
      var before, last := steps[..|steps| - 1], steps[|steps| - 1];
      assert steps == before + [last];
      RunGrows(Initial(requests), before, last);
      RefusalsHaveCauses(requests, before, i);
      OneStepOfCause(Run(Initial(requests), before), last, i);
    }
  }

  // ------------------------------------------------------------ both queues

  /** One key used on both queues at once. */
  datatype Queues = Queues(installs: System, activations: System)
  datatype Turn = OnInstalls(step: Step) | OnActivations(step: Step)

  function RunBoth(queues: Queues, turns: seq<Turn>): Queues
    decreases |turns|
  {
    if turns == [] then queues
    else match turns[0]
         case OnInstalls(step) => RunBoth(queues.(installs := Next(queues.installs, step)), turns[1..])
         case OnActivations(step) => RunBoth(queues.(activations := Next(queues.activations, step)), turns[1..])
  }

  function StepsOf(turns: seq<Turn>, installs: bool): seq<Step>
    decreases |turns|
  {
    if turns == [] then []
    else (if turns[0].OnInstalls? == installs then [turns[0].step] else []) + StepsOf(turns[1..], installs)
  }

  lemma {:induction false} QueuesAreSeparate(queues: Queues, turns: seq<Turn>)
    ensures RunBoth(queues, turns).installs == Run(queues.installs, StepsOf(turns, true))
    ensures RunBoth(queues, turns).activations == Run(queues.activations, StepsOf(turns, false))
    decreases |turns|
  {
    hide Next;
    if turns != [] {
      var step, rest := turns[0].step, turns[1..];
      var next := if turns[0].OnInstalls? then queues.(installs := Next(queues.installs, step))
                  else queues.(activations := Next(queues.activations, step));
      QueuesAreSeparate(next, rest);
      assert ([step] + StepsOf(rest, true))[1..] == StepsOf(rest, true);
      assert ([step] + StepsOf(rest, false))[1..] == StepsOf(rest, false);
      assert [] + StepsOf(rest, true) == StepsOf(rest, true) && [] + StepsOf(rest, false) == StepsOf(rest, false);
    }
  }

  /** Installs and activations that use the same key at the same time: each
      queue is idempotent by itself. */
  lemma BothQueuesAreIdempotent(installs: seq<Request>, activations: seq<Request>, turns: seq<Turn>)
    requires forall i :: 0 <= i < |installs| ==> IsInstall(installs[i])
    requires forall i :: 0 <= i < |activations| ==> IsActivation(activations[i])
    ensures
      var end := RunBoth(Queues(Initial(installs), Initial(activations)), turns);
      Idempotent(end.installs, installs) && Idempotent(end.activations, activations)
  {
    hide Idempotent, Run;
    QueuesAreSeparate(Queues(Initial(installs), Initial(activations)), turns);
    AdmissionIsIdempotent(installs, StepsOf(turns, true));
    AdmissionIsIdempotent(activations, StepsOf(turns, false));
  }

  // ------------------------------------------------------------------ wakes

  /** The step that announces a created row: its creator reads it back and
      finds it as it stored it. */
  ghost predicate Announces(sys: System, step: Step) {
    CreatorReads(sys, step) && sys.row.Some? && sys.row.value.op == sys.callers[step.caller].requested
  }

  ghost predicate CreatorReads(sys: System, step: Step) {
    && step.ReadItBack? && step.caller < |sys.callers|
    && sys.callers[step.caller].Stored? && sys.callers[step.caller].created
  }

  /** The caller that inserted and reads the row back is told so, and wakes the
      worker, exactly when the operation has not moved before. */
  lemma WakesExactlyWhenUntouched(sys: System, requests: seq<Request>, step: Step)
    requires Inv(sys, requests)
    ensures Next(sys, step).wakes == sys.wakes + if Announces(sys, step) then 1 else 0
    ensures CreatorReads(sys, step) ==>
      (SawCreated(Next(sys, step).callers[step.caller]) <==> Announces(sys, step))
  {
    hide ValidOperation;
    if CreatorReads(sys, step) {
      SameHashIsValidWork(sys, requests, step.caller);
    }
  }

  lemma {:induction false} RunGrows(sys: System, steps: seq<Step>, step: Step)
    ensures Run(sys, steps + [step]) == Next(Run(sys, steps), step)
    decreases |steps|
  {
    hide Next;
    var longer := steps + [step];
    if steps == [] {
      assert longer[1..] == [];
    } else {
      assert longer[1..] == steps[1..] + [step];
      RunGrows(Next(sys, steps[0]), steps[1..], step);
    }
  }

  /** Over every run: the worker is woken if and only if some step announces a
      created row. A creator that is cut off before it reads its row back, or
      reads it after it has moved, wakes nobody. */
  lemma {:induction false} AnnouncedExactly(requests: seq<Request>, steps: seq<Step>)
    requires
      || (forall i :: 0 <= i < |requests| ==> IsInstall(requests[i]))
      || (forall i :: 0 <= i < |requests| ==> IsActivation(requests[i]))
    ensures Run(Initial(requests), steps).wakes == 0 || Run(Initial(requests), steps).wakes == 1
    ensures Run(Initial(requests), steps).wakes == 1 <==>
            exists t :: 0 <= t < |steps| && Announces(Run(Initial(requests), steps[..t]), steps[t])
    decreases |steps|
  {
    hide Next, Run, Announces, IsInstall, IsActivation;
    AdmissionIsIdempotent(requests, steps);
    if steps == [] {
      NothingRun(Initial(requests));
    } else {
      var before, last := steps[..|steps| - 1], steps[|steps| - 1];
      assert steps == before + [last];
      RunGrows(Initial(requests), before, last);
      AnnouncedExactly(requests, before);
      InvHoldsAlways(requests, before);
      WakesExactlyWhenUntouched(Run(Initial(requests), before), requests, last);
      assert forall t :: 0 <= t < |before| ==> steps[..t] == before[..t] && steps[t] == before[t];
      if exists t :: 0 <= t < |before| && Announces(Run(Initial(requests), before[..t]), before[t]) {
        var t :| 0 <= t < |before| && Announces(Run(Initial(requests), before[..t]), before[t]);
        assert Announces(Run(Initial(requests), steps[..t]), steps[t]);
      }
      if Announces(Run(Initial(requests), before), last) {
        assert steps[..|steps| - 1] == before && steps[|steps| - 1] == last;
      }
    }
  }

  lemma NothingRun(sys: System)
    ensures Run(sys, []) == sys
  {
  }

  /** So a created row need not be announced: the worker's own polling claims
      it first, its creator gets a repository-state error, nobody is woken. */
  lemma CreatedRowCanGoUnannounced()
    ensures
      var requests := [InstallRequest("candidate", "managed", "package", true)];
      var claim := Event(1, Start(Verifying), 7, 7);
      var end := Run(Initial(requests), [Find(0, "aio_1", 5), Insert(0), Move(claim), ReadItBack(0)]);
      && end.row.Some? && end.insertions == [0] && end.wakes == 0
      && end.callers == [Finished(requests[0], Rejected(Inconsistent))]
  {
    hide Next, InstallPreimage;
    var request := InstallRequest("candidate", "managed", "package", true);
    var claim := Event(1, Start(Verifying), 7, 7);
    var s0 := Initial([request]);
    var s1 := Next(s0, Find(0, "aio_1", 5));
    var s2 := Next(s1, Insert(0));
    var s3 := Next(s2, Move(claim));
    FirstStepsOfOne(request);
    RunSteps(s0, [Find(0, "aio_1", 5), Insert(0), Move(claim), ReadItBack(0)]);
    RunSteps(s1, [Insert(0), Move(claim), ReadItBack(0)]);
    RunSteps(s2, [Move(claim), ReadItBack(0)]);
    RunSteps(s3, [ReadItBack(0)]);
  }

  /** Nor if it never moves: its creator is cut off before reading it back. */
  lemma CutOffCreatorWakesNobody()
    ensures
      var request := InstallRequest("candidate", "managed", "package", true);
      var end := Run(Initial([request]), [Find(0, "aio_1", 5), Insert(0), Cut(0)]);
      && end.row == Some(Work(request, NewOperation("aio_1", request, 5))) && end.wakes == 0
      && end.callers == [Finished(request, Rejected(CutOff))]
  {
    hide Next, InstallPreimage;
    var request := InstallRequest("candidate", "managed", "package", true);
    var s0 := Initial([request]);
    var s1 := Next(s0, Find(0, "aio_1", 5));
    var s2 := Next(s1, Insert(0));
    FirstStepsOfOne(request);
    RunSteps(s0, [Find(0, "aio_1", 5), Insert(0), Cut(0)]);
    RunSteps(s1, [Insert(0), Cut(0)]);
    RunSteps(s2, [Cut(0)]);
  }

  lemma FirstStepsOfOne(request: Request)
    requires request == InstallRequest("candidate", "managed", "package", true)
    ensures
      var queued := NewOperation("aio_1", request, 5);
      var s1 := Next(Initial([request]), Find(0, "aio_1", 5));
      var s2 := Next(s1, Insert(0));
      var s3 := Next(s2, Move(Event(1, Start(Verifying), 7, 7)));
      && s1 == System(None, [Missed(request, queued)], [], 0)
      && s2 == System(Some(Work(request, queued)), [Stored(request, queued, true)], [0], 0)
      && Next(s2, Cut(0)) == s2.(callers := [Finished(request, Rejected(CutOff))])
      && Next(s3, ReadItBack(0)).row.Some? && Next(s3, ReadItBack(0)).insertions == [0]
      && Next(s3, ReadItBack(0)).wakes == 0
      && Next(s3, ReadItBack(0)).callers == [Finished(request, Rejected(Inconsistent))]
  {
    hide InstallPreimage;
    var s3 := Next(
      System(Some(Work(request, NewOperation("aio_1", request, 5))),
             [Stored(request, NewOperation("aio_1", request, 5), true)], [0], 0),
      Move(Event(1, Start(Verifying), 7, 7)));
    assert s3.row.value.op.state == Running;
  }

  lemma RunSteps(sys: System, steps: seq<Step>)
    requires steps != []
    ensures Run(sys, steps) == Run(Next(sys, steps[0]), steps[1..])
  {
  }
}
