/** Download admission. `StartDownload` runs under a mutex, looks at the latest
    install recorded for the download, and admits a new one only if that one
    has finished. "Latest" is by creation time and then operation id, so the
    guard works exactly as long as each new install is the latest. */
module Download {
  import opened Wrappers
  import opened Operations
  import opened Admission
  import opened AdmissionQueues
  import opened Texts
  import opened RequestHash

  // --------------------------------------------------------- stamp order

  predicate Before(a: Operation, b: Operation) {
    a.createdAt < b.createdAt || (a.createdAt == b.createdAt && TextBefore(a.id, b.id))
  }

  // ------------------------------------------------------- the installs

  predicate IsInstallOf(works: map<string, Work>, hash: string, k: string) {
    k in works && works[k].request.hash == hash
  }

  predicate Active(works: map<string, Work>, hash: string, k: string) {
    IsInstallOf(works, hash, k) && !IsTerminal(works[k].op.state)
  }

  predicate IsLatest(works: map<string, Work>, hash: string, k: string) {
    IsInstallOf(works, hash, k)
    && forall j :: j in works && works[j].request.hash == hash && j != k ==> Before(works[j].op, works[k].op)
  }

  /** Whatever is still active is the latest install of its download. */
  predicate Guarded(works: map<string, Work>, hash: string) {
    forall k :: k in works && Active(works, hash, k) ==> IsLatest(works, hash, k)
  }

  predicate OneActive(works: map<string, Work>, hash: string) {
    forall j, k :: j in works && k in works && Active(works, hash, j) && Active(works, hash, k) ==> j == k
  }

  lemma GuardedMeansOneActive(works: map<string, Work>, hash: string)
    requires Guarded(works, hash)
    ensures OneActive(works, hash)
  {
    forall j, k | j in works && k in works && Active(works, hash, j) && Active(works, hash, k)
      ensures j == k
    {
      TextOrderIsTotal(works[j].op.id, works[k].op.id);
    }
  }

  /** Some install is the latest if there is any. */
  lemma {:induction false} LatestExists(works: map<string, Work>, hash: string, among: set<string>)
    requires IdsAreUnique(works) && among != {}
    requires forall k :: k in among ==> IsInstallOf(works, hash, k)
    ensures exists k ::
      k in among && k in works && forall j :: j in among && j in works && j != k ==> Before(works[j].op, works[k].op)
  {
    var first :| first in among;
    var rest := among - {first};
    if rest == {} {
      assert among == {first};
    } else {
      LatestExists(works, hash, rest);
      var best :|
        best in rest && forall j :: j in rest && j in works && j != best ==> Before(works[j].op, works[best].op);
      var a, b := works[first].op, works[best].op;
      TextOrderIsTotal(a.id, b.id);
      if Before(a, b) {
        assert forall j :: j in among && j != best ==> Before(works[j].op, b);
      } else {
        forall j | j in among && j != first ensures Before(works[j].op, a) {
          if j != best && works[j].op.createdAt == b.createdAt == a.createdAt {
            TextOrderIsTransitive(works[j].op.id, b.id, a.id);
          }
        }
      }
    }
  }

  /** The store's query for the latest install of a download. */
  method LatestInstall(works: map<string, Work>, hash: string) returns (latest: Option<Operation>)
    requires IdsAreUnique(works)
    ensures latest == None ==> forall k :: k in works ==> works[k].request.hash != hash
    ensures latest.Some? ==> exists k :: k in works && IsLatest(works, hash, k) && latest.value == works[k].op
  {
    var among := set k | k in works && works[k].request.hash == hash;
    if among == {} {
      assert forall k :: k in works && works[k].request.hash == hash ==> k in among;
      return None;
    }
    LatestExists(works, hash, among);
    var k :| k in among && forall j :: j in among && j in works && j != k ==> Before(works[j].op, works[k].op);
    assert IsLatest(works, hash, k);
    latest := Some(works[k].op);
  }

  lemma LatestIsUnique(works: map<string, Work>, hash: string, j: string, k: string)
    requires IsLatest(works, hash, j) && IsLatest(works, hash, k)
    ensures j == k
  {
    if j != k {
      TextOrderIsTotal(works[j].op.id, works[k].op.id);
    }
  }

  // ---------------------------------------------------------- admission

  datatype DownloadResult = Answered(outcome: Outcome) | UnknownDownload | DownloadActive

  /** The new install is later than every earlier one of the download. */
  predicate StampAdvances(works: map<string, Work>, hash: string, id: string, at: Time) {
    forall k :: k in works && works[k].request.hash == hash ==>
      works[k].op.createdAt < at || (works[k].op.createdAt == at && TextBefore(works[k].op.id, id))
  }

  lemma GuardSurvives(before: map<string, Work>, after: map<string, Work>, hash: string)
    requires Guarded(before, hash) && Keeps(before, after)
    requires forall k :: k in after && k !in before ==> after[k].request.hash != hash
    ensures Guarded(after, hash)
  {
    forall k | k in after && Active(after, hash, k) ensures IsLatest(after, hash, k) {
      assert k in before && Active(before, hash, k);
    }
  }

  /** A new active install beside finished ones is guarded exactly when its
      stamp is later than all of theirs. */
  lemma NewInstallIsGuardedExactly(works: map<string, Work>, hash: string, key: string, work: Work)
    requires forall k :: k in works && works[k].request.hash == hash ==> IsTerminal(works[k].op.state)
    requires key !in works && work.request.hash == hash && !IsTerminal(work.op.state)
    ensures Guarded(works[key := work], hash) <==> StampAdvances(works, hash, work.op.id, work.op.createdAt)
    ensures IsLatest(works[key := work], hash, key) <==> StampAdvances(works, hash, work.op.id, work.op.createdAt)
  {
    var after := works[key := work];
    assert Active(after, hash, key);
    if IsLatest(after, hash, key) {
      forall k | k in works && works[k].request.hash == hash ensures Before(works[k].op, work.op) {
        assert k in after && after[k] == works[k];
      }
    }
  }

  /** Exactly then does the latest install stop the next download: otherwise
      the store reports a finished one, and a second active one is admitted. */
  lemma NextDownloadIsStoppedExactly(works: map<string, Work>, hash: string, key: string, work: Work, latest: string)
    requires forall k :: k in works && works[k].request.hash == hash ==> IsTerminal(works[k].op.state)
    requires key !in works && work.request.hash == hash && !IsTerminal(work.op.state)
    requires IsLatest(works[key := work], hash, latest)
    ensures !IsTerminal(works[key := work][latest].op.state)
            <==> StampAdvances(works, hash, work.op.id, work.op.createdAt)
  {
    NewInstallIsGuardedExactly(works, hash, key, work);
    if StampAdvances(works, hash, work.op.id, work.op.createdAt) {
      LatestIsUnique(works[key := work], hash, key, latest);
    }
  }

  /** The check of the download history passes: its latest install, if there
      is one, has finished. */
  predicate MayStart(works: map<string, Work>, hash: string) {
    forall k :: k in works && IsLatest(works, hash, k) ==> IsTerminal(works[k].op.state)
  }

  /** A store with a finished install of 100, then with one admitted at 50
      after the clock was set back, then with one more admitted at 60. */
  function SetBack(admitted: nat): map<string, Work> {
    var request := InstallRequest("download", "managed", "package", true);
    if admitted == 0 then
      var finished := Operation(
        "aio_1", ModelInstall, Cancelled, PhaseCompleted, "", 0, 0, None, "cancelled", 2, 100, 100, Some(100));
      map["key-0001" := Work(request, finished)]
    else if admitted == 1 then SetBack(0)["key-0002" := Work(request, NewOperation("aio_2", request, 50))]
    else SetBack(1)["key-0003" := Work(request, NewOperation("aio_3", request, 60))]
  }

  lemma SetBackIsSound(works: map<string, Work>, key: string, work: Work)
    requires Sound(works) && key !in works && SoundWork(work)
    requires forall k :: k in works ==> works[k].op.id != work.op.id
    ensures Sound(works[key := work])
  {
    hide SoundWork;
  }

  lemma SetBackStarts(request: Request)
    requires request == InstallRequest("download", "managed", "package", true)
    ensures Sound(SetBack(0)) && SetBack(0).Keys == {"key-0001"} && SetBack(0)["key-0001"].op.id == "aio_1"
  {
    hide InstallPreimage;
  }

  lemma NewWorkIsSound(request: Request, id: OperationId, at: Instant)
    requires request.kind == ModelInstall && request.admissible
    ensures SoundWork(Work(request, NewOperation(id, request, at)))
  {
    FreshIsValid(NewOperation(id, request, at));
    hide ValidOperation;
  }

  lemma SetBackStores(request: Request)
    requires request == InstallRequest("download", "managed", "package", true)
    ensures Sound(SetBack(0)) && Sound(SetBack(1)) && Sound(SetBack(2))
  {
    SetBackStarts(request);
    NewWorkIsSound(request, "aio_2", 50);
    NewWorkIsSound(request, "aio_3", 60);
    hide InstallPreimage, Sound, SoundWork;
    SetBackIsSound(SetBack(0), "key-0002", Work(request, NewOperation("aio_2", request, 50)));
    SetBackIsSound(SetBack(1), "key-0003", Work(request, NewOperation("aio_3", request, 60)));
  }

  /** A clock set back before a download is enough: the check passes although
      an install is active, and the install admitted then is the second one. */
  lemma ClockSetBackDefeatsTheGuard()
    ensures
      var hash := InstallRequest("download", "managed", "package", true).hash;
      && Sound(SetBack(0)) && Guarded(SetBack(0), hash) && MayStart(SetBack(0), hash)
      && Sound(SetBack(1)) && Active(SetBack(1), hash, "key-0002") && MayStart(SetBack(1), hash)
      && Sound(SetBack(2)) && !OneActive(SetBack(2), hash)
  {
    hide InstallPreimage, TextBefore, Sound;
    var request := InstallRequest("download", "managed", "package", true);
    SetBackStores(request);
    var w1, w2 := SetBack(1), SetBack(2);
    assert w1["key-0002"].op.createdAt < w1["key-0001"].op.createdAt;
    assert !IsLatest(w1, request.hash, "key-0002");
    assert Active(w2, request.hash, "key-0002") && Active(w2, request.hash, "key-0003");
  }

  /** An admission while every earlier install of the download has finished. */
  lemma AdmissionKeepsOneActive(
      before: map<string, Work>, after: map<string, Work>, key: string, request: Request, id: OperationId, at: Instant)
    requires forall k :: k in before && before[k].request.hash == request.hash ==> IsTerminal(before[k].op.state)
    requires Keeps(before, after)
    requires forall k :: k in after && k !in before && k != key ==> after[k].request.hash != request.hash
    requires key in after && key !in before && after[key].request.hash == request.hash ==>
      Descends(NewOperation(id, request, at), after[key].op)
    ensures OneActive(after, request.hash)
    ensures StampAdvances(before, request.hash, id, at) ==> Guarded(after, request.hash)
  {
    forall k | k in after && Active(after, request.hash, k)
      ensures k == key && key !in before
    {
    }
  }

  lemma FinishedUnlessLatestActive(works: map<string, Work>, hash: string, latest: Option<Operation>)
    requires Guarded(works, hash)
    requires latest == None ==> forall k :: k in works ==> works[k].request.hash != hash
    requires latest.Some? ==>
      && IsTerminal(latest.value.state)
      && exists k :: k in works && IsLatest(works, hash, k) && latest.value == works[k].op
    ensures forall k :: k in works && works[k].request.hash == hash ==> IsTerminal(works[k].op.state)
  {
    forall k | k in works && works[k].request.hash == hash ensures IsTerminal(works[k].op.state) {
      if Active(works, hash, k) {
        var best :| best in works && IsLatest(works, hash, best) && latest.value == works[best].op;
        LatestIsUnique(works, hash, k, best);
      }
    }
  }

  lemma StampsAreFixed(before: map<string, Work>, after: map<string, Work>, hash: string, id: string, at: Time)
    requires Keeps(before, after)
    requires forall k :: k in after && k !in before ==> after[k].request.hash != hash
    requires StampAdvances(before, hash, id, at)
    ensures StampAdvances(after, hash, id, at)
  {
  }

  /** What one call may do to the installs of its download: add its own, and
      only if the check passed; never make a second one active; and leave none
      for the next call to overlook, while stamps advance. */
  ghost predicate KeepsDownload(
      before: map<string, Work>, searched: map<string, Work>, after: map<string, Work>,
      hash: string, key: string, id: string, at: Time)
  {
    && (Guarded(before, hash) ==> OneActive(after, hash))
    && (Guarded(before, hash) && StampAdvances(before, hash, id, at) ==> Guarded(after, hash))
    && (forall k :: k in after && k !in before && after[k].request.hash == hash ==>
          k == key && MayStart(searched, hash) && after[k].op.id == id && after[k].op.createdAt == at)
  }

  lemma OthersKeepDownload(
      before: map<string, Work>, searched: map<string, Work>, after: map<string, Work>,
      hash: string, key: string, id: string, at: Time)
    requires Keeps(before, after)
    requires forall k :: k in after && k !in before ==> after[k].request.hash != hash
    ensures KeepsDownload(before, searched, after, hash, key, id, at)
  {
    hide Guarded, OneActive, StampAdvances, MayStart, Keeps;
    if Guarded(before, hash) {
      GuardSurvives(before, after, hash);
      GuardedMeansOneActive(after, hash);
    }
  }

  lemma OthersKeepTheNext(
      before: map<string, Work>, between: map<string, Work>, searched: map<string, Work>, after: map<string, Work>,
      hash: string, key: string, id: string, at: Time)
    requires Keeps(before, between) && Keeps(between, after)
    requires forall k :: k in between && k !in before ==> between[k].request.hash != hash
    requires KeepsDownload(between, searched, after, hash, key, id, at)
    ensures KeepsDownload(before, searched, after, hash, key, id, at)
  {
    hide Guarded, OneActive, StampAdvances, MayStart, Descends;
    if Guarded(before, hash) {
      GuardSurvives(before, between, hash);
      if StampAdvances(before, hash, id, at) {
        StampsAreFixed(before, between, hash, id, at);
      }
    }
  }

  /** The call from the history check on, which meets the store `searched`. */
  method StartUnlessActive(
      queue: AdmissionQueue, request: Request, key: string, newId: OperationId, now: Instant, answers: StoreAnswers)
    returns (r: DownloadResult, ghost searched: map<string, Work>)
    requires Sound(queue.works) && request.hash in queue.ownHashes && request.kind == ModelInstall
    modifies queue
    ensures Sound(queue.works) && Keeps(old(queue.works), queue.works)
    ensures searched == old(queue.works)
    ensures KeepsDownload(old(queue.works), searched, queue.works, request.hash, key, newId, now)
    ensures r == DownloadActive <==> !MayStart(searched, request.hash)
    ensures !r.UnknownDownload?
    ensures r.Answered? && request.admissible && answers.All() && IdIsFree(queue.works, key, newId) ==>
      AnsweredFully(searched, queue.works, key, request, r.outcome)
    ensures r.Answered? && r.outcome.Admitted? ==>
      && key in queue.works && queue.works[key].request.hash == request.hash
      && r.outcome.op.id == queue.works[key].op.id
  {
    hide SoundWork, Guarded, OneActive, StampAdvances, IsLatest, CreateVerdict, MayStart, KeepsDownload,
      AnsweredFully;
    searched := queue.works;
    KeepsItself(searched);
    var latest := LatestInstall(queue.works, request.hash);
    MayStartExactly(searched, request.hash, latest);
    if latest.Some? && !IsTerminal(latest.value.state) {
      OthersKeepDownload(searched, searched, queue.works, request.hash, key, newId, now);
      return DownloadActive, searched;
    }
    var outcome := queue.Start(key, request, newId, now, answers);
    AdmissionKeepsDownload(searched, queue.works, key, request, newId, now, latest);
    r := Answered(outcome);
  }

  /** One download request inside the mutex. While it runs nobody else admits
      installs of this download. `searched` is the store as the history check
      meets it, if the call gets that far. */
  method StartDownload(
      queue: AdmissionQueue, request: Request, known: bool, key: string, newId: OperationId, now: Instant,
      history: bool, answers: StoreAnswers)
    returns (r: DownloadResult, ghost searched: map<string, Work>)
    requires Sound(queue.works) && request.hash in queue.ownHashes && request.kind == ModelInstall
    modifies queue
    ensures Sound(queue.works) && Keeps(old(queue.works), queue.works)
    ensures KeepsDownload(old(queue.works), searched, queue.works, request.hash, key, newId, now)
    ensures r == DownloadActive ==> !MayStart(searched, request.hash)
    // A known download is answered in full, unless an install of it is active;
    // one whose key was used before is answered from what that holds.
    ensures
      && 8 <= |key| <= 128 && request.admissible && history && answers.All() && IdIsFree(queue.works, key, newId)
      && (known || key in old(queue.works)) ==>
        (r == DownloadActive && key !in old(queue.works))
        || (r.Answered? && AnsweredFully(old(queue.works), queue.works, key, request, r.outcome))
    ensures r.Answered? && r.outcome.Admitted? ==>
      && key in queue.works && queue.works[key].request.hash == request.hash
      && r.outcome.op.id == queue.works[key].op.id
  {
    hide SoundWork, Guarded, OneActive, StampAdvances, IsLatest, CreateVerdict, MayStart, KeepsDownload, Descends,
      ReplayVerdict, AnsweredFully;
    ghost var start := queue.works;
    searched := start;
    KeepsItself(start);
    OthersKeepDownload(start, searched, start, request.hash, key, newId, now);
    if |key| < 8 || |key| > 128 {
      return Answered(Rejected(InvalidRequest)), searched;
    }
    var existing := queue.Find(key, answers.find);
    ghost var looked := queue.works;
    OthersKeepDownload(start, searched, looked, request.hash, key, newId, now);
    if !answers.find {
      return Answered(Rejected(CutOff)), searched;
    }
    if existing.Some? {
      if request.admissible {
        ReplayAnswersFully(start, looked, key, request);
      }
      ReplayIsOfTheRow(existing.value, request);
      return Answered(ReplayVerdict(existing.value, request)), searched;
    }
    if !known {
      return UnknownDownload, searched;
    }
    queue.Environment();
    KeepsIsTransitive(start, looked, queue.works);
    ghost var between := queue.works;
    if !history {
      OthersKeepDownload(start, searched, between, request.hash, key, newId, now);
      return Answered(Rejected(CutOff)), searched;
    }
    r, searched := StartUnlessActive(queue, request, key, newId, now, answers);
    OthersKeepTheNext(start, between, searched, queue.works, request.hash, key, newId, now);
    KeepsIsTransitive(start, between, queue.works);
    if r.Answered? && AnsweredFully(between, queue.works, key, request, r.outcome) {
      AnswersCarryBack(start, between, queue.works, key, request, r.outcome);
    }
  }

  lemma ReplayIsOfTheRow(work: Work, request: Request)
    ensures
      var outcome := ReplayVerdict(work, request);
      outcome.Admitted? ==> outcome.op == work.op && work.request.hash == request.hash
  {
  }

  /** A full answer from a later state is one from an earlier state too. */
  lemma AnswersCarryBack(
      before: map<string, Work>, between: map<string, Work>, after: map<string, Work>,
      key: string, request: Request, outcome: Outcome)
    requires Keeps(before, between) && AnsweredFully(between, after, key, request, outcome)
    ensures AnsweredFully(before, after, key, request, outcome)
  {
  }

  lemma AdmissionKeepsDownload(
      searched: map<string, Work>, after: map<string, Work>,
      key: string, request: Request, id: OperationId, at: Instant, latest: Option<Operation>)
    requires latest == None ==> forall k :: k in searched ==> searched[k].request.hash != request.hash
    requires latest.Some? ==>
      IsTerminal(latest.value.state)
      && exists k :: k in searched && IsLatest(searched, request.hash, k) && latest.value == searched[k].op
    requires Keeps(searched, after)
    requires forall k :: k in after && k !in searched && k != key ==> after[k].request.hash != request.hash
    requires key in after && key !in searched && after[key].request.hash == request.hash ==>
      Descends(NewOperation(id, request, at), after[key].op)
    ensures KeepsDownload(searched, searched, after, request.hash, key, id, at)
  {
    hide Guarded, OneActive, StampAdvances, IsLatest, MayStart;
    MayStartExactly(searched, request.hash, latest);
    if Guarded(searched, request.hash) {
      FinishedUnlessLatestActive(searched, request.hash, latest);
      AdmissionKeepsOneActive(searched, after, key, request, id, at);
    }
  }

  lemma MayStartExactly(works: map<string, Work>, hash: string, latest: Option<Operation>)
    requires latest == None ==> forall k :: k in works ==> works[k].request.hash != hash
    requires latest.Some? ==> exists k :: k in works && IsLatest(works, hash, k) && latest.value == works[k].op
    ensures MayStart(works, hash) <==> latest == None || IsTerminal(latest.value.state)
  {
    if latest.Some? {
      var best :| best in works && IsLatest(works, hash, best) && latest.value == works[best].op;
      forall k | k in works && IsLatest(works, hash, k) ensures k == best {
        LatestIsUnique(works, hash, best, k);
      }
    }
  }

  // ------------------------------------------------------------------- runs

  datatype DownloadCall = DownloadCall(
    known: bool, key: string, newId: OperationId, now: Instant, history: bool, answers: StoreAnswers)

  /** Each call is stamped later than the ones before it. */
  predicate StampsAscend(calls: seq<DownloadCall>) {
    forall i, j :: 0 <= i < j < |calls| ==>
      calls[i].now < calls[j].now || (calls[i].now == calls[j].now && TextBefore(calls[i].newId, calls[j].newId))
  }

  /** Every run of downloads of one package from a store without installs of
      it, with workers, administrators and other admissions in between: at
      most one install is active, as long as the stamps of the calls ascend. */
  method Downloads(works: map<string, Work>, request: Request, calls: seq<DownloadCall>) returns (queue: AdmissionQueue)
    requires Sound(works) && request.kind == ModelInstall && StampsAscend(calls)
    requires forall k :: k in works ==> works[k].request.hash != request.hash
    ensures OneActive(queue.works, request.hash)
  {
    hide Sound, Guarded, OneActive, StampAdvances, Keeps, MayStart, StampsAscend;
    queue := new AdmissionQueue(works, {request.hash});
    NothingToGuard(works, request.hash);
    for n := 0 to |calls|
      invariant fresh(queue) && queue.ownHashes == {request.hash}
      invariant Sound(queue.works) && Guarded(queue.works, request.hash)
      invariant StampedBy(queue.works, request.hash, calls, n)
    {
      ghost var before := queue.works;
      queue.Environment();
      GuardSurvives(before, queue.works, request.hash);
      StampsSurvive(before, queue.works, request.hash, calls, n);
      LaterCallsAdvance(queue.works, request.hash, calls, n);
      ghost var between := queue.works;
      var r;
      ghost var searched;
      r, searched := StartDownload(
        queue, request, calls[n].known, calls[n].key, calls[n].newId, calls[n].now, calls[n].history, calls[n].answers);
      OneMoreCall(between, queue.works, request.hash, calls, n);
    }
    ghost var before := queue.works;
    queue.Environment();
    GuardSurvives(before, queue.works, request.hash);
    GuardedMeansOneActive(queue.works, request.hash);
  }

  /** Every install of the download was made by one of the first `n` calls. */
  ghost predicate StampedBy(works: map<string, Work>, hash: string, calls: seq<DownloadCall>, n: nat)
    requires n <= |calls|
  {
    forall k :: k in works && works[k].request.hash == hash ==>
      exists i :: 0 <= i < n && works[k].op.id == calls[i].newId && works[k].op.createdAt == calls[i].now
  }

  lemma NothingToGuard(works: map<string, Work>, hash: string)
    requires forall k :: k in works ==> works[k].request.hash != hash
    ensures Guarded(works, hash)
  {
  }

  lemma StampsSurvive(
      before: map<string, Work>, after: map<string, Work>, hash: string, calls: seq<DownloadCall>, n: nat)
    requires n <= |calls| && StampedBy(before, hash, calls, n) && Keeps(before, after)
    requires forall k :: k in after && k !in before ==> after[k].request.hash != hash
    ensures StampedBy(after, hash, calls, n)
  {
    forall k | k in after && after[k].request.hash == hash
      ensures exists i :: 0 <= i < n && after[k].op.id == calls[i].newId && after[k].op.createdAt == calls[i].now
    {
      var i :| 0 <= i < n && before[k].op.id == calls[i].newId && before[k].op.createdAt == calls[i].now;
    }
  }

  lemma LaterCallsAdvance(works: map<string, Work>, hash: string, calls: seq<DownloadCall>, n: nat)
    requires n < |calls| && StampsAscend(calls) && StampedBy(works, hash, calls, n)
    ensures StampAdvances(works, hash, calls[n].newId, calls[n].now)
  {
    hide TextBefore;
  }

  lemma OneMoreCall(before: map<string, Work>, after: map<string, Work>, hash: string, calls: seq<DownloadCall>, n: nat)
    requires n < |calls| && StampedBy(before, hash, calls, n) && Keeps(before, after)
    requires forall k :: k in after && k !in before && after[k].request.hash == hash ==>
      after[k].op.id == calls[n].newId && after[k].op.createdAt == calls[n].now
    ensures StampedBy(after, hash, calls, n + 1)
  {
    forall k | k in after && after[k].request.hash == hash
      ensures exists i :: 0 <= i < n + 1 && after[k].op.id == calls[i].newId && after[k].op.createdAt == calls[i].now
    {
      if k in before {
        var i :| 0 <= i < n && before[k].op.id == calls[i].newId && before[k].op.createdAt == calls[i].now;
        assert after[k].op.id == calls[i].newId;
      } else {
        assert after[k].op.id == calls[n].newId;
      }
    }
  }
}
