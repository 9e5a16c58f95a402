/** One of the two durable queues as an admission call meets it: requests under
    their keys, with other actors moving operations and adding requests of
    their own between any two store statements. Any store call may be cut off
    by the caller's context. */
module AdmissionQueues {
  import opened Wrappers
  import opened Operations
  import opened Admission

  predicate SoundWork(work: Work) {
    ValidWork(work, work.request)
  }

  /** Requests stay and their operations only move on. */
  predicate Keeps(before: map<string, Work>, after: map<string, Work>) {
    forall k :: k in before ==>
      k in after && after[k].request == before[k].request && Descends(before[k].op, after[k].op)
  }

  lemma KeepsIsTransitive(a: map<string, Work>, b: map<string, Work>, c: map<string, Work>)
    requires Keeps(a, b) && Keeps(b, c)
    ensures Keeps(a, c)
  {
    hide Descends;
    forall k | k in a ensures Descends(a[k].op, c[k].op) {
      DescendsIsTransitive(a[k].op, b[k].op, c[k].op);
    }
  }

  /** Operation ids are a primary key. */
  predicate IdsAreUnique(works: map<string, Work>) {
    forall j, k :: j in works && k in works && works[j].op.id == works[k].op.id ==> j == k
  }

  predicate Sound(works: map<string, Work>) {
    IdsAreUnique(works) && forall k :: k in works ==> SoundWork(works[k])
  }

  /** Which of a call's store statements are carried out. */
  datatype StoreAnswers = StoreAnswers(find: bool, insert: bool, readBack: bool)
  {
    predicate All() { find && insert && readBack }
  }

  /** The stored request is this one. */
  predicate IsSame(stored: Request, request: Request) {
    stored.hash == request.hash && stored.payload == request.payload && SameSubject(stored, request)
  }

  predicate IdIsFree(works: map<string, Work>, key: string, id: string) {
    forall k :: k in works && k != key ==> works[k].op.id != id
  }

  /** The full answer to an admissible request between two states of the queue:
      another request under the key conflicts; one for the same thing is replayed
      if it was there before; and otherwise it is admitted if it is the same
      altogether, unless it was created and has moved already. */
  predicate AnsweredFully(
      before: map<string, Work>, after: map<string, Work>, key: string, request: Request, outcome: Outcome)
  {
    && key in after
    && (after[key].request.hash != request.hash ==> outcome == Rejected(Conflict))
    && (key in before && after[key].request.hash == request.hash && SameSubject(after[key].request, request) ==>
          outcome == Admitted(after[key].op, false, true))
    && (key !in before && IsSame(after[key].request, request) ==>
          outcome.Admitted? || (outcome == Rejected(Inconsistent) && after[key].op.revision > 1))
  }

  lemma ReplayAnswersFully(before: map<string, Work>, after: map<string, Work>, key: string, request: Request)
    requires key in after && SoundWork(after[key]) && request.admissible
    ensures AnsweredFully(before, after, key, request, ReplayVerdict(after[key], request))
    ensures
      var outcome := ReplayVerdict(after[key], request);
      outcome.Admitted? ==> outcome.op == after[key].op && after[key].request.hash == request.hash
                            && !outcome.created && outcome.replayed
  {
    hide ValidOperation;
  }

  lemma CreateAnswersFully(
      before: map<string, Work>, after: map<string, Work>, key: string, request: Request,
      requested: Operation, created: bool)
    requires key in after && key !in before && SoundWork(after[key]) && request.admissible
    requires requested.revision == 1 && (created ==> Descends(requested, after[key].op))
    ensures AnsweredFully(before, after, key, request, CreateVerdict(after[key], request, requested, created))
    ensures
      var outcome := CreateVerdict(after[key], request, requested, created);
      outcome.Admitted? ==> outcome.op == after[key].op && after[key].request.hash == request.hash
                            && outcome.created == created && outcome.replayed == !created
  {
    hide ValidOperation;
  }

  class AdmissionQueue {
    var works: map<string, Work>
    var wakes: nat
    const ownHashes: set<string>  // requests nobody else makes meanwhile

    constructor (works: map<string, Work>, ownHashes: set<string>)
      requires Sound(works)
      ensures this.works == works && wakes == 0 && this.ownHashes == ownHashes
    {
      this.works, this.wakes, this.ownHashes := works, 0, ownHashes;
    }

    /** New requests are other actors', with other hashes. */
    predicate OnlyForeign(before: map<string, Work>, after: map<string, Work>) {
      forall k :: k in after && k !in before ==> after[k].request.hash !in ownHashes
    }

    method Environment()
      requires Sound(works)
      modifies this`works
      ensures Sound(works) && Keeps(old(works), works) && OnlyForeign(old(works), works)
    {
      var next: map<string, Work> := *;
      if Sound(next) && Keeps(works, next) && OnlyForeign(works, next) {
        works := next;
      } else {
        assert Keeps(works, works);
      }
    }

    method Find(key: string, answered: bool) returns (found: Option<Work>)
      requires Sound(works)
      modifies this`works
      ensures Sound(works) && Keeps(old(works), works) && OnlyForeign(old(works), works)
      ensures found == if answered && key in works then Some(works[key]) else None
    {
      Environment();
      found := if answered && key in works then Some(works[key]) else None;
    }

    /** Insert if absent, then read the stored request back, which may fail
        after an insertion too. An operation id already in use fails it. */
    method Create(key: string, requested: Work, answers: StoreAnswers) returns (found: Option<Work>, created: bool)
      requires Sound(works) && SoundWork(requested)
      modifies this`works
      ensures Sound(works) && Keeps(old(works), works)
      ensures forall k :: k in works && k !in old(works) && k != key ==>
        works[k].request.hash !in ownHashes
      ensures found.Some? ==> key in works && found.value == works[key]
      ensures created ==>
        key in works && works[key].request == requested.request && Descends(requested.op, works[key].op)
      ensures key in works && key !in old(works) && works[key].request.hash in ownHashes ==> created
      ensures answers.insert && answers.readBack && IdIsFree(works, key, requested.op.id) ==> found.Some?
    {
      hide ValidWork, Descends;
      Environment();
      if !answers.insert || (key !in works && exists k :: k in works && works[k].op.id == requested.op.id) {
        return None, false;
      }
      created := key !in works;
      ghost var before := works;
      if created {
        DescendsIsReflexive(requested.op);
        KeepsItself(works);
        works := works[key := requested];
      } else {
        KeepsItself(works);
      }
      ghost var inserted := works;
      KeepsIsTransitive(old(works), before, inserted);
      found := Find(key, answers.readBack);
      KeepsIsTransitive(old(works), inserted, works);
    }

    /** The admission call: look the key up, insert, check, wake. */
    method Start(key: string, request: Request, newId: OperationId, now: Instant, answers: StoreAnswers)
      returns (outcome: Outcome)
      requires Sound(works) && !request.kind.UnknownKind?
      modifies this
      ensures Sound(works) && Keeps(old(works), works)
      ensures forall k :: k in works && k !in old(works) && k != key ==>
        works[k].request.hash !in ownHashes
      ensures outcome.Admitted? ==>
        && key in works && works[key].request.hash == request.hash
        && outcome.op == works[key].op && outcome.created != outcome.replayed
      ensures key in works && key !in old(works) && works[key].request.hash in ownHashes ==>
        works[key].request == request && Descends(NewOperation(newId, request, now), works[key].op)
      ensures wakes == old(wakes) + if outcome.Admitted? && outcome.created then 1 else 0
      ensures !request.admissible ==> outcome == Rejected(InvalidRequest) && works == old(works)
      ensures request.admissible && !answers.find ==> outcome == Rejected(CutOff)
      ensures request.admissible && answers.All() && IdIsFree(works, key, newId) ==>
        AnsweredFully(old(works), works, key, request, outcome)
    {
      hide ValidOperation, Descends, AnsweredFully, CreateVerdict, ReplayVerdict;
      if !request.admissible {
        KeepsItself(works);
        return Rejected(InvalidRequest);
      }
      var existing := Find(key, answers.find);
      if !answers.find {
        return Rejected(CutOff);
      }
      if existing.Some? {
        ReplayAnswersFully(old(works), works, key, request);
        return ReplayVerdict(existing.value, request);
      }
      ghost var searched := works;
      var requested := Work(request, NewOperation(newId, request, now));
      FreshIsValid(requested.op);
      var stored, created := Create(key, requested, answers);
      KeepsIsTransitive(old(works), searched, works);
      if stored.None? {
        return Rejected(StoreRefused);
      }
      outcome := CreateVerdict(stored.value, request, requested.op, created);
      CreateAnswersFully(old(works), works, key, request, requested.op, created);
      if outcome.Admitted? && created {
        wakes := wakes + 1;
      }
    }
  }

  lemma KeepsItself(works: map<string, Work>)
    ensures Keeps(works, works)
  {
  }
}
