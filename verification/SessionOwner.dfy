/** The owner of the one resident inference session: a cache that must look
    like opening a fresh session for every call. */
module SessionOwners {
  import opened Wrappers

  type Time = int
  type Vector = seq<real>

  /** A session handle, with the generation it was opened for. */
  datatype Session = Session(id: nat, generation: string)

  datatype RunResult = Output(vector: Vector) | Interrupted | Failed
  datatype Reply = Encoded(vector: Vector) | Unavailable | Cancelled

  /** What the owner asks of the session factory and of its sessions. */
  datatype Event =
    | Validated(generation: string, ok: bool)
    | OpenFailed(generation: string)
    | Opened(session: Session)
    | Ran(session: Session, input: Vector, result: RunResult)
    | Closed(session: Session)

  // -------------------------------------------------------------- traces

  /** The session left open by a trace. */
  function Resident(log: seq<Event>): Option<Session> {
    if log == [] then None
    else match log[|log| - 1]
         case Opened(s) => Some(s)
         case Closed(_) => None
         case _ => Resident(log[..|log| - 1])
  }

  /** The trace ends in a successful validation of `generation`, with nothing
      but closing and opening since. */
  predicate JustValidated(log: seq<Event>, generation: string) {
    log != [] && match log[|log| - 1]
                 case Validated(g, ok) => ok && g == generation
                 case Opened(_) => JustValidated(log[..|log| - 1], generation)
                 case Closed(_) => JustValidated(log[..|log| - 1], generation)
                 case _ => false
  }

  predicate Known(log: seq<Event>, s: Session) {
    Opened(s) in log
  }

  predicate Legal(before: seq<Event>, e: Event) {
    match e
    case Validated(_, _) => true
    case OpenFailed(g) => Resident(before) == None && JustValidated(before, g)
    case Opened(s) => Resident(before) == None && JustValidated(before, s.generation) && !Known(before, s)
    case Ran(s, _, _) => Resident(before) == Some(s) && JustValidated(before, s.generation)
    case Closed(s) => Resident(before) == Some(s)
  }

  /** Sessions are opened one at a time, for the generation just validated;
      run only while open and just validated; and closed while open. */
  predicate Orderly(log: seq<Event>) {
    log == [] || (Orderly(log[..|log| - 1]) && Legal(log[..|log| - 1], log[|log| - 1]))
  }

  function Count(log: seq<Event>, what: Event -> bool): nat {
    if log == [] then 0 else Count(log[..|log| - 1], what) + if what(log[|log| - 1]) then 1 else 0
  }

  function Loads(log: seq<Event>): nat { Count(log, (e: Event) => e.Opened?) }
  function Runs(log: seq<Event>): nat { Count(log, (e: Event) => e.Ran?) }
  function Unloads(log: seq<Event>): nat { Count(log, (e: Event) => e.Closed?) }

  lemma Extend(log: seq<Event>, e: Event)
    requires Orderly(log) && Legal(log, e)
    ensures Orderly(log + [e])
    ensures Resident(log + [e]) == if e.Opened? then Some(e.session) else if e.Closed? then None else Resident(log)
    ensures forall g :: JustValidated(log + [e], g) ==
                        if e.Validated? then e.ok && e.generation == g
                        else (e.Opened? || e.Closed?) && JustValidated(log, g)
    ensures Loads(log + [e]) == Loads(log) + if e.Opened? then 1 else 0
    ensures Runs(log + [e]) == Runs(log) + if e.Ran? then 1 else 0
    ensures Unloads(log + [e]) == Unloads(log) + if e.Closed? then 1 else 0
  {
    assert (log + [e])[..|log|] == log;
  }

  /** Loads are unloads plus the resident session, in every orderly trace. */
  lemma {:induction false} LoadsBalance(log: seq<Event>)
    requires Orderly(log)
    ensures Loads(log) == Unloads(log) + if Resident(log).Some? then 1 else 0
  {
    if log != [] {
      LoadsBalance(log[..|log| - 1]);
    }
  }

  lemma {:induction false} PrefixesAreOrderly(log: seq<Event>, n: nat)
    requires Orderly(log) && n <= |log|
    ensures Orderly(log[..n]) && (n < |log| ==> Legal(log[..n], log[n]))
  {
    if n < |log| {
      var init := log[..|log| - 1];
      if n < |init| {
        PrefixesAreOrderly(init, n);
        assert init[..n] == log[..n] && init[n] == log[n];
      } else {
        assert init == log[..n];
      }
    } else {
      assert log[..n] == log;
    }
  }

  /** A closed session is known and not resident, for good. */
  lemma {:induction false} ClosedStaysClosed(log: seq<Event>, s: Session)
    requires Orderly(log)
    ensures Resident(log) == Some(s) ==> Known(log, s)
    ensures Closed(s) in log ==> Known(log, s) && Resident(log) != Some(s)
  {
    if log != [] {
      var init, e := log[..|log| - 1], log[|log| - 1];
      assert log == init + [e];
      ClosedStaysClosed(init, s);
    }
  }

  /** In every orderly trace a session is closed at most once, and a run finds
      its own session open, of exactly the generation validated for this run. */
  lemma OrderlyTraces(log: seq<Event>, j: nat)
    requires Orderly(log) && j < |log|
    ensures log[j].Closed? ==> log[j] !in log[..j]
    ensures log[j].Ran? ==>
      Resident(log[..j]) == Some(log[j].session) && JustValidated(log[..j], log[j].session.generation)
    ensures log[j].Opened? ==> Resident(log[..j]) == None && log[j] !in log[..j]
  {
    PrefixesAreOrderly(log, j);
    if log[j].Closed? {
      ClosedStaysClosed(log[..j], log[j].session);
    }
  }

  // ------------------------------------------------- a fresh session per call

  /** One call that opens, runs and closes its own session. */
  function FreshCall(
      generation: string, input: Vector, valid: bool, opens: bool, s: Session, result: RunResult): seq<Event> {
    [Validated(generation, valid)] +
    if !valid then [] else if !opens then [OpenFailed(generation)] else [Opened(s), Ran(s, input, result), Closed(s)]
  }

  function FreshReply(valid: bool, opens: bool, result: RunResult): Reply {
    if !valid || !opens then Unavailable
    else match result
         case Output(vector) => Encoded(vector)
         case Interrupted => Cancelled
         case Failed => Unavailable
  }

  /** What a caller can tell from a trace: validations, failed openings, and
      runs by generation, but not which session served them. */
  datatype Visible =
    | Validation(generation: string, ok: bool)
    | NoSession(generation: string)
    | Run(generation: string, input: Vector, result: RunResult)

  function Essence(log: seq<Event>): seq<Visible> {
    if log == [] then []
    else Essence(log[..|log| - 1]) + match log[|log| - 1]
         case Validated(g, ok) => [Validation(g, ok)]
         case OpenFailed(g) => [NoSession(g)]
         case Ran(s, x, r) => [Run(s.generation, x, r)]
         case _ => []
  }

  function FreshEssence(generation: string, input: Vector, valid: bool, opens: bool, result: RunResult): seq<Visible> {
    [Validation(generation, valid)] +
    if !valid then [] else if !opens then [NoSession(generation)] else [Run(generation, input, result)]
  }

  lemma EssenceOfFreshCall(
      generation: string, input: Vector, valid: bool, opens: bool, s: Session, result: RunResult)
    requires s.generation == generation
    ensures Essence(FreshCall(generation, input, valid, opens, s, result))
         == FreshEssence(generation, input, valid, opens, result)
  {
    NoEssence();
    hide Essence;
    var t1 := [Validated(generation, valid)];
    EssenceGrows([], Validated(generation, valid));
    assert [] + t1 == t1 && t1 + [] == t1;
    if valid && !opens {
      EssenceGrows(t1, OpenFailed(generation));
    } else if valid {
      var t2 := t1 + [Opened(s)];
      var t3 := t2 + [Ran(s, input, result)];
      EssenceGrows(t1, Opened(s));
      EssenceGrows(t2, Ran(s, input, result));
      EssenceGrows(t3, Closed(s));
      assert t3 + [Closed(s)] == t1 + [Opened(s), Ran(s, input, result), Closed(s)];
    }
  }

  lemma NoEssence()
    ensures Essence([]) == []
  {
  }

  lemma EssenceGrows(log: seq<Event>, e: Event)
    ensures Essence(log + [e]) == Essence(log) + match e
            case Validated(g, ok) => [Validation(g, ok)]
            case OpenFailed(g) => [NoSession(g)]
            case Ran(s, x, r) => [Run(s.generation, x, r)]
            case _ => []
  {
    assert (log + [e])[..|log|] == log;
  }

  // ------------------------------------------------------------ the factory

  /** The factory and its sessions answer as they like; each opened session is
      a new one. */
  class SessionFactory {
    var served: nat
    ghost var log: seq<Event>

    constructor ()
      ensures log == [] && Valid()
    {
      served, log := 0, [];
    }

    ghost predicate Valid()
      reads this
    {
      forall s :: Known(log, s) ==> s.id < served
    }

    method Validate(generation: string) returns (ok: bool)
      requires Valid()
      modifies this
      ensures Valid() && log == old(log) + [Validated(generation, ok)]
    {
      ok := *;
      log := log + [Validated(generation, ok)];
    }

    method Open(generation: string) returns (s: Option<Session>)
      requires Valid()
      modifies this
      ensures Valid()
      ensures s.None? ==> log == old(log) + [OpenFailed(generation)]
      ensures s.Some? ==> s.value.generation == generation && log == old(log) + [Opened(s.value)]
      ensures s.Some? ==> !Known(old(log), s.value)
    {
      var opens: bool := *;
      if !opens {
        log := log + [OpenFailed(generation)];
        return None;
      }
      s := Some(Session(served, generation));
      log := log + [Opened(s.value)];
      served := served + 1;
    }

    method Run(s: Session, input: Vector) returns (result: RunResult)
      requires Valid()
      modifies this
      ensures Valid() && log == old(log) + [Ran(s, input, result)]
    {
      result := *;
      log := log + [Ran(s, input, result)];
    }

    method Close(s: Session)
      requires Valid()
      modifies this
      ensures Valid() && log == old(log) + [Closed(s)]
    {
      log := log + [Closed(s)];
    }
  }

  // -------------------------------------------------------------- the owner

  class SessionOwner {
    const factory: SessionFactory
    const idle: Time

    var session: Option<Session>
    var generationId: string
    var lastUsed: Time

    var residentSessions: int
    var activeRuns: int
    var totalLoads: int
    var totalRuns: int
    var totalUnloads: int

    constructor (factory: SessionFactory, idle: Time)
      requires factory.Valid() && factory.log == []
      ensures Valid() && this.factory == factory && this.idle == idle
    {
      this.factory, this.idle := factory, idle;
      session, generationId, lastUsed := None, "", 0;
      residentSessions, activeRuns, totalLoads, totalRuns, totalUnloads := 0, 0, 0, 0, 0;
    }

    /** The whole run so far was orderly, and the fields say what it left. */
    ghost predicate Valid()
      reads this, factory
    {
      && factory.Valid() && Orderly(factory.log) && session == Resident(factory.log)
      && generationId == (if session.Some? then session.value.generation else "")
      && (session.Some? ==> generationId != "")
      && totalLoads == Loads(factory.log) && totalUnloads == Unloads(factory.log) && totalRuns == Runs(factory.log)
      && activeRuns == 0 && residentSessions == totalLoads - totalUnloads
      && 0 <= residentSessions <= 1 && (residentSessions == 1 <==> session.Some?)
    }

    /** Closes the resident session, if any. */
    method CloseLocked()
      requires Valid()
      modifies this, factory
      ensures Valid() && session == None && lastUsed == 0 && totalLoads == old(totalLoads)
      ensures factory.log == old(factory.log) + if old(session).Some? then [Closed(old(session).value)] else []
    {
      var closing := session;
      ghost var before := factory.log;
      session, generationId, lastUsed := None, "", 0;
      if closing.Some? {
        Extend(before, Closed(closing.value));
        factory.Close(closing.value);
        residentSessions, totalUnloads := 0, totalUnloads + 1;
      } else {
        assert before + [] == before;
      }
    }

    /** Makes the session of a just validated generation resident: the one that
        is there, or a new one in its place. */
    method Acquire(generation: string) returns (opens: bool)
      requires Valid() && generation != "" && JustValidated(factory.log, generation)
      modifies this, factory
      ensures Valid() && old(factory.log) <= factory.log
      ensures opens <==> session.Some?
      ensures opens ==> generationId == generation && JustValidated(factory.log, generation)
      ensures Essence(factory.log) == Essence(old(factory.log)) + if opens then [] else [NoSession(generation)]
      ensures old(session).Some? && old(generationId) == generation ==> opens && factory.log == old(factory.log)
    {
      hide Essence, Orderly, Resident, JustValidated, Loads, Runs, Unloads, Known;
      if session == None || generationId != generation {
        ghost var g0 := factory.log;
        CloseLocked();
        ghost var g1 := factory.log;
        ClosingIsInvisible(g0, g1);
        var s := factory.Open(generation);
        ghost var e := if s.Some? then Opened(s.value) else OpenFailed(generation);
        Extend(g1, e);
        EssenceGrows(g1, e);
        if s.None? {
          return false;
        }
        session, generationId := s, generation;
        residentSessions, totalLoads := 1, totalLoads + 1;
      }
      return true;
    }

    /** Runs the resident session; a failure closes it, an interruption does not. */
    method RunResident(input: Vector, now: Time) returns (outcome: RunResult)
      requires Valid() && session.Some? && JustValidated(factory.log, generationId)
      modifies this, factory
      ensures Valid() && old(factory.log) <= factory.log && totalLoads == old(totalLoads)
      ensures Essence(factory.log) == Essence(old(factory.log)) + [Run(old(generationId), input, outcome)]
      ensures session == if outcome.Failed? then None else old(session)
      ensures session.Some? ==> lastUsed == now
    {
      hide Essence, Orderly, Resident, JustValidated, Loads, Runs, Unloads, Known;
      ghost var before := factory.log;
      activeRuns, totalRuns := activeRuns + 1, totalRuns + 1;
      outcome := factory.Run(session.value, input);
      activeRuns := activeRuns - 1;
      lastUsed := now;
      Extend(before, Ran(session.value, input, outcome));
      EssenceGrows(before, Ran(session.value, input, outcome));
      if outcome.Failed? {
        ghost var after := factory.log;
        CloseLocked();
        ClosingIsInvisible(after, factory.log);
      }
    }

    /** To its caller every call looks like one that opens its own session for
        the requested generation; `valid`, `opens` and `result` are the answers
        it got, where a session already there counts as an opening that worked. */
    method EncodeSemanticImage(generation: string, input: Vector, now: Time)
      returns (reply: Reply, ghost valid: bool, ghost opens: bool, ghost result: RunResult)
      requires Valid()
      modifies this, factory
      ensures Valid() && old(factory.log) <= factory.log
      ensures generation == "" ==> reply == Unavailable && factory.log == old(factory.log) && session == old(session)
      ensures generation != "" ==>
        && Essence(factory.log) == Essence(old(factory.log)) + FreshEssence(generation, input, valid, opens, result)
        && reply == FreshReply(valid, opens, result)
        && (reply.Encoded? <==> valid && opens && result.Output?)
        && (reply.Encoded? ==> reply.vector == result.vector)
        && (reply.Cancelled? <==> valid && opens && result.Interrupted?)
        && (session.Some? <==> valid && opens && !result.Failed?)
        && (session.Some? ==> generationId == generation && lastUsed == now)
      ensures generation != "" && valid && old(session).Some? && old(generationId) == generation ==>
        opens && totalLoads == old(totalLoads)
    {
      hide Essence, Orderly, Resident, JustValidated, Loads, Runs, Unloads, Known;
      valid, opens, result := false, false, Failed;
      reply := Unavailable;
      if generation == "" {
        return;
      }
      ghost var g0 := factory.log;
      var validated := factory.Validate(generation);
      valid := validated;
      ghost var g1 := factory.log;
      Extend(g0, Validated(generation, valid));
      EssenceGrows(g0, Validated(generation, valid));
      if !validated {
        CloseLocked();
        ClosingIsInvisible(g1, factory.log);
        return;
      }
      var acquired := Acquire(generation);
      opens := acquired;
      if !acquired {
        return;
      }
      var outcome := RunResident(input, now);
      result := outcome;
      match outcome {
        case Output(vector) => reply := Encoded(vector);
        case Interrupted => reply := Cancelled;
        case Failed =>
      }
    }

    /** One tick of the idle timer. */
    method Tick(now: Time)
      requires Valid()
      modifies this, factory
      ensures Valid() && Essence(factory.log) == Essence(old(factory.log)) && totalLoads == old(totalLoads)
      ensures session == if old(session).Some? && now - old(lastUsed) >= idle then None else old(session)
    {
      ghost var before := factory.log;
      if session.Some? && now - lastUsed >= idle {
        CloseLocked();
        ClosingIsInvisible(before, factory.log);
      }
    }

    method Close()
      requires Valid()
      modifies this, factory
      ensures Valid() && session == None && Essence(factory.log) == Essence(old(factory.log))
      ensures totalLoads == totalUnloads
    {
      ghost var before := factory.log;
      CloseLocked();
      ClosingIsInvisible(before, factory.log);
    }
  }

  lemma ClosingIsInvisible(before: seq<Event>, after: seq<Event>)
    requires Orderly(before)
    requires after == before || (Resident(before).Some? && after == before + [Closed(Resident(before).value)])
    ensures Essence(after) == Essence(before)
    ensures forall g :: JustValidated(after, g) <==> JustValidated(before, g)
  {
    if after != before {
      EssenceGrows(before, Closed(Resident(before).value));
      Extend(before, Closed(Resident(before).value));
    }
  }
}
