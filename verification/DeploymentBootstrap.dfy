/** The deployment bootstrap's three durable activation attempts for one model
    at one availability revision, across reconciles and process restarts. Only
    the bootstrap activates service models, so no other actor adds activations
    of the target. */
module DeploymentBootstrap {
  import opened Operations
  import opened RequestHash
  import opened Admission
  import opened AdmissionQueues

  /** The service model being activated: its identity, content hash and
      availability revision. */
  datatype Target = Target(modelId: string, contentHash: string, availabilityRevision: int)

  const ATTEMPTS: nat := 3

  function AttemptKey(target: Target, attempt: nat): string {
    "deployment-" + (target.contentHash + ("-" + (Canonical(target.availabilityRevision) + ("-" + Decimal(attempt)))))
  }

  function AttemptHash(target: Target): string {
    ActivationPreimage(target.modelId, target.availabilityRevision)
  }

  function GaveUp(op: Operation): bool {
    op.state == Failed || op.state == Cancelled
  }

  /** The target's attempt `a` has been made. The key alone does not say so:
      a client of the public endpoint may have used it for something else. */
  predicate Made(works: map<string, Work>, target: Target, a: nat) {
    AttemptKey(target, a) in works && works[AttemptKey(target, a)].request.hash == AttemptHash(target)
  }

  /** Every activation of the target is one of its attempts, and an attempt
      exists only after the one before it gave up. */
  ghost predicate Attempted(works: map<string, Work>, target: Target) {
    && (forall k :: k in works && works[k].request.hash == AttemptHash(target) ==>
          exists a: nat :: a < ATTEMPTS && k == AttemptKey(target, a))
    && (forall a: nat :: 0 < a < ATTEMPTS && Made(works, target, a) ==>
          Made(works, target, a - 1) && GaveUp(works[AttemptKey(target, a - 1)].op))
  }

  /** Attempts already made stay made, and given up if they were. */
  lemma MadeLasts(before: map<string, Work>, after: map<string, Work>, target: Target, a: nat)
    requires Keeps(before, after) && Made(before, target, a)
    ensures Made(after, target, a)
    ensures GaveUp(before[AttemptKey(target, a)].op) ==> GaveUp(after[AttemptKey(target, a)].op)
  {
    hide AttemptKey, AttemptHash;
  }

  lemma ForeignMovesKeepAttempts(
      queue: AdmissionQueue, before: map<string, Work>, after: map<string, Work>, target: Target)
    requires AttemptHash(target) in queue.ownHashes && Attempted(before, target)
    requires Keeps(before, after) && queue.OnlyForeign(before, after)
    ensures Attempted(after, target)
  {
    hide AttemptKey, AttemptHash, Descends;
    forall a: nat | 0 < a < ATTEMPTS && Made(after, target, a)
      ensures Made(after, target, a - 1) && GaveUp(after[AttemptKey(target, a - 1)].op)
    {
      assert Made(before, target, a);
      MadeLasts(before, after, target, a - 1);
    }
  }

  lemma AttemptKeysDiffer(target: Target, a: nat, b: nat)
    requires a != b
    ensures AttemptKey(target, a) != AttemptKey(target, b)
  {
    hide AttemptKey;
    if AttemptKey(target, a) == AttemptKey(target, b) {
      AttemptKeysAreDistinct(target, a, target, b);
    }
  }

  /** One attempt's admission keeps the chain of attempts. */
  lemma AdmittedAttemptKeepsChain(
      queue: AdmissionQueue, before: map<string, Work>, after: map<string, Work>, target: Target, attempt: nat)
    requires AttemptHash(target) in queue.ownHashes && Attempted(before, target) && attempt < ATTEMPTS
    requires Keeps(before, after)
    requires forall k :: k in after && k !in before && k != AttemptKey(target, attempt) ==>
      after[k].request.hash !in queue.ownHashes
    requires 0 < attempt ==>
      Made(before, target, attempt - 1) && GaveUp(before[AttemptKey(target, attempt - 1)].op)
    ensures Attempted(after, target)
  {
    hide AttemptKey, AttemptHash, Descends, GaveUp;
    forall k | k in after && after[k].request.hash == AttemptHash(target)
      ensures exists a: nat :: a < ATTEMPTS && k == AttemptKey(target, a)
    {
      assert k in before ==> before[k].request.hash == AttemptHash(target);
    }
    forall a: nat | 0 < a < ATTEMPTS && Made(after, target, a)
      ensures Made(after, target, a - 1) && GaveUp(after[AttemptKey(target, a - 1)].op)
    {
      if AttemptKey(target, a) in before {
        assert Made(before, target, a);
      } else if a != attempt {
        AttemptKeysDiffer(target, a, attempt);
      }
      MadeLasts(before, after, target, a - 1);
    }
  }

  datatype Reconciled = Underway | AllGaveUp | NotAdmitted(reason: Reason)

  /** What one reconcile meets: whether the model may be activated, and for each
      attempt a new operation id, the time, and the store's answers. */
  datatype Meeting = Meeting(
    admissible: bool, ids: nat -> OperationId, now: Instant, answers: nat -> StoreAnswers)

  /** Nothing keeps a reconcile from its attempts. */
  ghost predicate Favourable(meeting: Meeting, works: map<string, Work>, target: Target) {
    && meeting.admissible
    && forall a: nat :: a < ATTEMPTS ==>
         meeting.answers(a).All() && IdIsFree(works, AttemptKey(target, a), meeting.ids(a))
  }

  function AttemptRequest(target: Target, admissible: bool): Request {
    ActivationRequest(target.modelId, target.availabilityRevision, admissible)
  }

  /** Attempt `a` cannot be told to its caller: the key holds another request,
      or its operation has moved already. */
  ghost predicate Unclear(works: map<string, Work>, target: Target, a: nat) {
    && AttemptKey(target, a) in works
    && (|| !IsSame(works[AttemptKey(target, a)].request, AttemptRequest(target, true))
        || works[AttemptKey(target, a)].op.revision > 1)
  }

  /** The attempt loop of one reconcile. It goes on past attempts that gave up:
      it ends underway only with an attempt that had not given up before, after
      others that all have; and it stops without one only if something keeps
      it from it. */
  method AdmitAttempts(queue: AdmissionQueue, target: Target, meeting: Meeting) returns (r: Reconciled)
    requires AttemptHash(target) in queue.ownHashes && Sound(queue.works) && Attempted(queue.works, target)
    modifies queue
    ensures Sound(queue.works) && Keeps(old(queue.works), queue.works)
    ensures Attempted(queue.works, target)
    ensures r == Underway ==>
      exists a: nat :: a < ATTEMPTS && IsUnderway(old(queue.works), queue.works, target, a)
    ensures r == AllGaveUp ==>
      forall a: nat :: a < ATTEMPTS ==>
        Made(queue.works, target, a) && GaveUp(queue.works[AttemptKey(target, a)].op)
    ensures r.NotAdmitted? && Favourable(meeting, queue.works, target) ==>
      exists a: nat :: a < ATTEMPTS && Unclear(queue.works, target, a)
  {
    hide AttemptKey, Sound, Attempted, Keeps, ActivationPreimage;
    hide Favourable, Unclear, IsUnderway, AnsweredFully, IsSame;
    KeepsItself(queue.works);
    var request := AttemptRequest(target, meeting.admissible);
    var attempt: nat := 0;
    while attempt < ATTEMPTS
      invariant attempt <= ATTEMPTS
      invariant Sound(queue.works) && Keeps(old(queue.works), queue.works) && Attempted(queue.works, target)
      invariant forall a: nat :: a < attempt ==>
        Made(queue.works, target, a) && GaveUp(queue.works[AttemptKey(target, a)].op)
    {
      ghost var before := queue.works;
      var outcome := queue.Start(
        AttemptKey(target, attempt), request, meeting.ids(attempt), meeting.now, meeting.answers(attempt));
      AdmittedAttemptKeepsChain(queue, before, queue.works, target, attempt);
      KeepsIsTransitive(old(queue.works), before, queue.works);
      if outcome.Rejected? {
        if Favourable(meeting, queue.works, target) {
          FavourableFor(meeting, queue.works, target, attempt);
          RejectedIsUnclear(before, queue.works, target, attempt, meeting, outcome);
        }
        return NotAdmitted(outcome.reason);
      }
      forall a: nat | a < attempt
        ensures Made(queue.works, target, a) && GaveUp(queue.works[AttemptKey(target, a)].op)
      {
        MadeLasts(before, queue.works, target, a);
      }
      if outcome.op.state != Failed && outcome.op.state != Cancelled {
        HadNotGivenUp(old(queue.works), queue.works, target, attempt);
        return Underway;
      }
      attempt := attempt + 1;
    }
    r := AllGaveUp;
  }

  /** Attempt `a` is made, had not given up before, and all earlier ones have. */
  ghost predicate IsUnderway(before: map<string, Work>, after: map<string, Work>, target: Target, a: nat) {
    && Made(after, target, a)
    && !(Made(before, target, a) && GaveUp(before[AttemptKey(target, a)].op))
    && forall b: nat :: b < a ==> Made(after, target, b) && GaveUp(after[AttemptKey(target, b)].op)
  }

  lemma HadNotGivenUp(before: map<string, Work>, after: map<string, Work>, target: Target, attempt: nat)
    requires Keeps(before, after) && Made(after, target, attempt) && !GaveUp(after[AttemptKey(target, attempt)].op)
    requires forall b: nat :: b < attempt ==> Made(after, target, b) && GaveUp(after[AttemptKey(target, b)].op)
    ensures IsUnderway(before, after, target, attempt)
  {
    hide AttemptKey, AttemptHash;
  }

  lemma FavourableFor(meeting: Meeting, works: map<string, Work>, target: Target, attempt: nat)
    requires Favourable(meeting, works, target) && attempt < ATTEMPTS
    ensures meeting.admissible && meeting.answers(attempt).All()
    ensures IdIsFree(works, AttemptKey(target, attempt), meeting.ids(attempt))
  {
  }

  lemma RejectedIsUnclear(
      before: map<string, Work>, after: map<string, Work>, target: Target, attempt: nat,
      meeting: Meeting, outcome: Outcome)
    requires Favourable(meeting, after, target) && attempt < ATTEMPTS && outcome.Rejected?
    requires AnsweredFully(before, after, AttemptKey(target, attempt), AttemptRequest(target, true), outcome)
    ensures Unclear(after, target, attempt)
  {
  }

  /** The keys of different targets and attempts never meet. */
  lemma AttemptKeysAreDistinct(t1: Target, a1: nat, t2: Target, a2: nat)
    requires |t1.contentHash| == |t2.contentHash|
    requires AttemptKey(t1, a1) == AttemptKey(t2, a2)
    ensures t1.contentHash == t2.contentHash && t1.availabilityRevision == t2.availabilityRevision && a1 == a2
  {
    hide Canonical, Decimal;
    var r1, r2 := Canonical(t1.availabilityRevision), Canonical(t2.availabilityRevision);
    var tail1, tail2 := "-" + (r1 + ("-" + Decimal(a1))), "-" + (r2 + ("-" + Decimal(a2)));
    PrefixCancels("deployment-", t1.contentHash + tail1, t2.contentHash + tail2);
    assert (t1.contentHash + tail1)[..|t1.contentHash|] == t1.contentHash;
    assert (t2.contentHash + tail2)[..|t2.contentHash|] == t2.contentHash;
    PrefixCancels(t1.contentHash, tail1, tail2);
    PrefixCancels("-", r1 + ("-" + Decimal(a1)), r2 + ("-" + Decimal(a2)));
    assert r1 + ("-" + Decimal(a1)) == r1 + ['-'] + Decimal(a1);
    assert r2 + ("-" + Decimal(a2)) == r2 + ['-'] + Decimal(a2);
    LastSeparatorCuts('-', r1, Decimal(a1), r2, Decimal(a2));
    CanonicalIsInjective(t1.availabilityRevision, t2.availabilityRevision);
    DecimalReadsBack(a1);
    DecimalReadsBack(a2);
  }

  /** At most three activations of the target, at most one of them unfinished or
      succeeded, wherever the chain of attempts is kept. */
  lemma AttemptsAreBounded(works: map<string, Work>, target: Target)
    requires Attempted(works, target)
    ensures |set k | k in works && works[k].request.hash == AttemptHash(target)| <= ATTEMPTS
    ensures forall j, k ::
      && j in works && works[j].request.hash == AttemptHash(target) && !GaveUp(works[j].op)
      && k in works && works[k].request.hash == AttemptHash(target) && !GaveUp(works[k].op)
      ==> j == k
  {
    hide AttemptKey, AttemptHash;
    var rows := set k | k in works && works[k].request.hash == AttemptHash(target);
    var keys := [AttemptKey(target, 0), AttemptKey(target, 1), AttemptKey(target, 2)];
    forall k | k in rows ensures k in keys {
      var a: nat :| a < ATTEMPTS && k == AttemptKey(target, a);
      assert keys[a] == k;
    }
    KeysBoundRows(rows, keys);
    forall j, k |
      && j in works && works[j].request.hash == AttemptHash(target) && !GaveUp(works[j].op)
      && k in works && works[k].request.hash == AttemptHash(target) && !GaveUp(works[k].op)
      ensures j == k
    {
      var a: nat :| a < ATTEMPTS && j == AttemptKey(target, a);
      var b: nat :| b < ATTEMPTS && k == AttemptKey(target, b);
      if a < b {
        OnlyTheLastIsUnfinished(works, target, a, b);
      } else if b < a {
        OnlyTheLastIsUnfinished(works, target, b, a);
      }
    }
  }

  lemma OnlyTheLastIsUnfinished(works: map<string, Work>, target: Target, a: nat, b: nat)
    requires Attempted(works, target) && a < b < ATTEMPTS
    requires Made(works, target, b)
    ensures Made(works, target, a) && GaveUp(works[AttemptKey(target, a)].op)
    decreases b
  {
    if a + 1 < b {
      OnlyTheLastIsUnfinished(works, target, a, b - 1);
    }
  }

  lemma {:induction false} KeysBoundRows<T>(rows: set<T>, keys: seq<T>)
    requires forall k :: k in rows ==> k in keys
    ensures |rows| <= |keys|
  {
    if keys == [] {
      assert rows == {};
    } else {
      forall k | k in rows - {keys[0]} ensures k in keys[1..] {
      }
      KeysBoundRows(rows - {keys[0]}, keys[1..]);
    }
  }

  lemma NothingAttempted(works: map<string, Work>, target: Target)
    requires forall k :: k in works ==> works[k].request.hash != AttemptHash(target)
    ensures Attempted(works, target)
  {
    hide AttemptKey, AttemptHash;
  }

  /** Every run from a store without activations of the target: any number of
      reconciles, in one process or in several, with workers, administrators
      and other admissions in between. A process that stops within a reconcile
      is one whose admission was refused or that was not the last to look.
      There are never more than three activations, never two that are unfinished
      or succeeded, and a later attempt only after all earlier ones failed or
      were cancelled. */
  method Reconciles(works: map<string, Work>, target: Target, meetings: seq<Meeting>) returns (queue: AdmissionQueue)
    requires Sound(works) && forall k :: k in works ==> works[k].request.hash != AttemptHash(target)
    ensures |set k | k in queue.works && queue.works[k].request.hash == AttemptHash(target)| <= ATTEMPTS
    ensures forall j, k ::
      && j in queue.works && queue.works[j].request.hash == AttemptHash(target) && !GaveUp(queue.works[j].op)
      && k in queue.works && queue.works[k].request.hash == AttemptHash(target) && !GaveUp(queue.works[k].op)
      ==> j == k
    ensures forall a: nat, b: nat :: a < b < ATTEMPTS && Made(queue.works, target, b) ==>
      Made(queue.works, target, a) && GaveUp(queue.works[AttemptKey(target, a)].op)
  {
    hide AttemptKey, AttemptHash, Sound, Attempted, Keeps;
    queue := new AdmissionQueue(works, {AttemptHash(target)});
    NothingAttempted(works, target);
    for n := 0 to |meetings|
      invariant fresh(queue) && queue.ownHashes == {AttemptHash(target)}
      invariant Sound(queue.works) && Attempted(queue.works, target)
    {
      ghost var before := queue.works;
      queue.Environment();
      ForeignMovesKeepAttempts(queue, before, queue.works, target);
      var r := AdmitAttempts(queue, target, meetings[n]);
    }
    ghost var before := queue.works;
    queue.Environment();
    ForeignMovesKeepAttempts(queue, before, queue.works, target);
    AttemptsAreBounded(queue.works, target);
    forall a: nat, b: nat | a < b < ATTEMPTS && Made(queue.works, target, b)
      ensures Made(queue.works, target, a) && GaveUp(queue.works[AttemptKey(target, a)].op)
    {
      OnlyTheLastIsUnfinished(queue.works, target, a, b);
    }
  }
}
