/** The coordinator of automatic discovery: which libraries are watched, which
    are held back after a failure, and when they may be watched again. */
module Discovery {
  datatype Library = Library(id: int, generation: int, root: string)

  datatype Event =
    | Seen(enabled: bool, generations: map<int, int>)   // a reconfiguration's view
    | Degraded(id: int, generation: int)
    | Watched(id: int)                                  // with its whole tree
    | DirectoryWatched(id: int)                         // a single directory of it

  // -------------------------------------------------------------- traces

  /** A reconfiguration that saw discovery disabled, the library gone, or a
      generation beyond `generation` lets the library be watched again. */
  predicate Releases(e: Event, id: int, generation: int) {
    e.Seen? && (!e.enabled || id !in e.generations || e.generations[id] > generation)
  }

  /** The libraries degraded and not released since, with the generation they
      were last degraded at. */
  function Barred(log: seq<Event>): map<int, int> {
    if log == [] then map[]
    else
      var before, e := Barred(log[..|log| - 1]), log[|log| - 1];
      match e
      case Degraded(id, generation) => before[id := generation]
      case Seen(_, _) => map id | id in before && !Releases(e, id, before[id]) :: before[id]
      case _ => before
  }

  /** A directory of the library has been watched since it was last degraded. */
  predicate PartlyWatched(log: seq<Event>, id: int) {
    log != [] && match log[|log| - 1]
                 case DirectoryWatched(d) => d == id || PartlyWatched(log[..|log| - 1], id)
                 case Degraded(d, _) => d != id && PartlyWatched(log[..|log| - 1], id)
                 case _ => PartlyWatched(log[..|log| - 1], id)
  }

  /** Event `j` watches a directory of the library, which is not degraded after
      it. */
  predicate DirectorySince(log: seq<Event>, id: int, j: int) {
    && 0 <= j < |log| && log[j] == DirectoryWatched(id)
    && forall k :: j < k < |log| ==> !(log[k].Degraded? && log[k].id == id)
  }

  lemma SinceBeforeLast(log: seq<Event>, id: int, j: int)
    requires log != [] && j < |log| - 1
    ensures DirectorySince(log, id, j) <==>
            DirectorySince(log[..|log| - 1], id, j) && !(log[|log| - 1].Degraded? && log[|log| - 1].id == id)
  {
    var init := log[..|log| - 1];
    assert forall k :: 0 <= k < |init| ==> init[k] == log[k];
  }

  lemma {:induction false} PartlyWatchedExactly(log: seq<Event>, id: int)
    ensures PartlyWatched(log, id) <==> exists j :: DirectorySince(log, id, j)
  {
    if log != [] {
      var init, last := log[..|log| - 1], log[|log| - 1];
      PartlyWatchedExactly(init, id);
      if last == DirectoryWatched(id) {
        assert DirectorySince(log, id, |log| - 1);
      }
      forall j ensures j < |log| - 1 ==>
        (DirectorySince(log, id, j) <==> DirectorySince(init, id, j) && !(last.Degraded? && last.id == id))
      {
        if j < |log| - 1 {
          SinceBeforeLast(log, id, j);
        }
      }
    }
  }

  /** No barred library is ever watched with its whole tree. */
  predicate Orderly(log: seq<Event>) {
    log == [] || (Orderly(log[..|log| - 1])
                  && (log[|log| - 1].Watched? ==> log[|log| - 1].id !in Barred(log[..|log| - 1])))
  }

  lemma Extend(log: seq<Event>, e: Event)
    requires Orderly(log) && (e.Watched? ==> e.id !in Barred(log))
    ensures Orderly(log + [e])
    ensures Barred(log + [e]) ==
            match e
            case Degraded(id, generation) => Barred(log)[id := generation]
            case Seen(_, _) => map id | id in Barred(log) && !Releases(e, id, Barred(log)[id]) :: Barred(log)[id]
            case _ => Barred(log)
    ensures forall id :: PartlyWatched(log + [e], id) <==>
              match e
              case DirectoryWatched(d) => d == id || PartlyWatched(log, id)
              case Degraded(d, _) => d != id && PartlyWatched(log, id)
              case _ => PartlyWatched(log, id)
  {
    assert (log + [e])[..|log|] == log;
  }

  /** A library degraded at step `i` and not degraded again stays barred until
      some step releases it. */
  lemma {:induction false} BarredUntilReleased(log: seq<Event>, i: nat, n: nat)
    requires Orderly(log) && i < n <= |log| && log[i].Degraded?
    requires forall k :: i < k < n ==> !(log[k].Degraded? && log[k].id == log[i].id)
    requires forall k :: i < k < n ==> !Releases(log[k], log[i].id, log[i].generation)
    ensures log[i].id in Barred(log[..n]) && Barred(log[..n])[log[i].id] == log[i].generation
  {
    assert log[..n][..n - 1] == log[..n - 1];
    if i < n - 1 {
      BarredUntilReleased(log, i, n - 1);
    }
  }

  lemma {:induction false} WatchedIsNotBarred(log: seq<Event>, j: nat)
    requires Orderly(log) && j < |log| && log[j].Watched?
    ensures log[j].id !in Barred(log[..j])
  {
    var init := log[..|log| - 1];
    if j < |init| {
      WatchedIsNotBarred(init, j);
      assert init[..j] == log[..j];
    } else {
      assert init == log[..j];
    }
  }

  /** Over a whole run: between the last time a library was degraded and the
      next time its tree is watched, some reconfiguration saw a later generation,
      discovery disabled, or the library gone. */
  lemma WatchedOnlyAfterRelease(log: seq<Event>, i: nat, j: nat)
    requires Orderly(log) && i < j < |log| && log[i].Degraded? && log[j] == Watched(log[i].id)
    requires forall k :: i < k < j ==> !(log[k].Degraded? && log[k].id == log[i].id)
    ensures exists k :: i < k < j && Releases(log[k], log[i].id, log[i].generation)
  {
    WatchedIsNotBarred(log, j);
    if forall k :: i < k < j ==> !Releases(log[k], log[i].id, log[i].generation) {
      BarredUntilReleased(log, i, j);
    }
  }

  // --------------------------------------------------------- the coordinator

  datatype Lookup = NotFound | Unreadable | Found(generation: int)
  datatype Marked = Accepted | Unknown | Full | Broken
  datatype WatchEvent = Overflow | Invalidated(id: int) | Dirty(id: int) | Other(id: int)

  /** What the rest of the system answers during one call: the database on a
      library, the watcher on a watch, the state and fallback writes, and the
      admission of a dirty directory. */
  datatype World = World(library: int -> Lookup, watches: int -> bool, settles: int -> bool, marked: Marked)

  predicate DistinctIds(libraries: seq<Library>) {
    forall i, j :: 0 <= i < j < |libraries| ==> libraries[i].id != libraries[j].id
  }

  function Generations(libraries: seq<Library>): map<int, int>
    requires DistinctIds(libraries)
  {
    map i | 0 <= i < |libraries| :: libraries[i].id := libraries[i].generation
  }

  lemma GenerationsOf(libraries: seq<Library>)
    requires DistinctIds(libraries)
    ensures forall k :: 0 <= k < |libraries| ==>
      libraries[k].id in Generations(libraries) && Generations(libraries)[libraries[k].id] == libraries[k].generation
  {
  }

  /** Every library barred by the log is blocked, and watched exactly if one of
      its directories was since it was degraded. */
  ghost predicate Tracks(log: seq<Event>, blocked: map<int, int>, watching: set<int>) {
    && Orderly(log)
    && forall id :: id in Barred(log) ==>
         id in blocked && blocked[id] == Barred(log)[id] && (id in watching <==> PartlyWatched(log, id))
  }

  lemma BarredIsBlocked(log: seq<Event>, blocked: map<int, int>, watching: set<int>, id: int)
    requires Tracks(log, blocked, watching) && id in Barred(log)
    ensures id in blocked && blocked[id] == Barred(log)[id]
  {
  }

  lemma TracksDegraded(log: seq<Event>, blocked: map<int, int>, watching: set<int>, id: int, generation: int)
    requires Tracks(log, blocked, watching)
    ensures Tracks(log + [Degraded(id, generation)], blocked[id := generation], watching - {id})
    ensures Barred(log + [Degraded(id, generation)]) == Barred(log)[id := generation]
  {
    hide Orderly, Barred, PartlyWatched;
    Extend(log, Degraded(id, generation));
  }

  /** `dropped` are active libraries, so none of them is blocked. */
  lemma TracksSeen(
      log: seq<Event>, blocked: map<int, int>, watching: set<int>,
      enabled: bool, current: map<int, int>, dropped: set<int>)
    requires Tracks(log, blocked, watching) && dropped !! blocked.Keys
    ensures Tracks(log + [Seen(enabled, current)],
                   map id | id in blocked && enabled && id in current :: blocked[id], watching - dropped)
    ensures forall id :: id in Barred(log + [Seen(enabled, current)]) ==>
      id in current && current[id] <= Barred(log + [Seen(enabled, current)])[id]
  {
    hide Orderly, Barred, PartlyWatched;
    Extend(log, Seen(enabled, current));
  }

  lemma TracksReleased(log: seq<Event>, blocked: map<int, int>, watching: set<int>, id: int)
    requires Tracks(log, blocked, watching) && id !in Barred(log)
    ensures Tracks(log, blocked - {id}, watching)
  {
    hide Orderly, Barred, PartlyWatched;
  }

  lemma TracksWatched(log: seq<Event>, blocked: map<int, int>, watching: set<int>, id: int)
    requires Tracks(log, blocked, watching) && id !in Barred(log)
    ensures Tracks(log + [Watched(id)], blocked, watching + {id})
    ensures Barred(log + [Watched(id)]) == Barred(log)
  {
    hide Orderly, Barred, PartlyWatched;
    Extend(log, Watched(id));
  }

  lemma TracksDirectory(log: seq<Event>, blocked: map<int, int>, watching: set<int>, id: int)
    requires Tracks(log, blocked, watching)
    ensures Tracks(log + [DirectoryWatched(id)], blocked, watching + {id})
    ensures Barred(log + [DirectoryWatched(id)]) == Barred(log)
  {
    hide Orderly, Barred, PartlyWatched;
    Extend(log, DirectoryWatched(id));
  }

  /** Of the visited libraries those the database has are blocked at their
      generations and not active; all others are as they were. */
  ghost predicate DegradedBy(
      visited: set<int>, library: int -> Lookup, active0: map<int, string>, blocked0: map<int, int>,
      active: map<int, string>, blocked: map<int, int>)
  {
    forall id ::
      if id in visited && library(id).Found? then
        id !in active && id in blocked && blocked[id] == library(id).generation
      else
        && (id in active <==> id in active0)
        && (id in blocked <==> id in blocked0) && (id in blocked ==> blocked[id] == blocked0[id])
  }

  lemma NoneDegraded(library: int -> Lookup, active: map<int, string>, blocked: map<int, int>)
    ensures DegradedBy({}, library, active, blocked, active, blocked)
  {
  }

  lemma OneMoreDegraded(
      visited: set<int>, library: int -> Lookup, active0: map<int, string>, blocked0: map<int, int>,
      active: map<int, string>, blocked: map<int, int>, id: int)
    requires DegradedBy(visited, library, active0, blocked0, active, blocked) && id !in visited
    ensures
      if library(id).Found? then
        DegradedBy(visited + {id}, library, active0, blocked0, active - {id}, blocked[id := library(id).generation])
      else DegradedBy(visited + {id}, library, active0, blocked0, active, blocked)
  {
  }

  class Coordinator {
    const hasWatcher: bool
    var active: map<int, string>
    var blocked: map<int, int>
    var watching: set<int>            // the libraries the watcher holds watches for
    ghost var log: seq<Event>

    constructor (hasWatcher: bool)
      ensures Sound() && Tidy() && this.hasWatcher == hasWatcher
      ensures log == [] && active == map[] && blocked == map[] && watching == {}
    {
      this.hasWatcher := hasWatcher;
      active, blocked, watching, log := map[], map[], {}, [];
    }

    /** No library is both active and blocked, the active ones are watched,
        and blocked and watched ones fit the run so far. */
    ghost predicate Sound()
      reads this
    {
      && active.Keys !! blocked.Keys && active.Keys <= watching
      && (!hasWatcher ==> watching == {})
      && Tracks(log, blocked, watching)
    }

    /** Only active libraries are watched. */
    ghost predicate Tidy()
      reads this
    {
      watching <= active.Keys
    }

    /** Stops watching a library and holds it back at its current generation. */
    method DegradeAndFallback(id: int, world: World) returns (ok: bool)
      modifies this
      ensures
        match world.library(id)
        case Found(generation) =>
          && active == old(active) - {id} && blocked == old(blocked)[id := generation]
          && watching == (if hasWatcher then old(watching) - {id} else old(watching))
          && log == old(log) + [Degraded(id, generation)] && ok == world.settles(id)
        case NotFound => ok && unchanged(this)
        case Unreadable => !ok && unchanged(this)
      ensures old(Sound()) ==> Sound()
      ensures old(Tracks(log, blocked, watching)) && world.library(id).Found? ==>
        Barred(log) == Barred(old(log))[id := world.library(id).generation]
      ensures old(Tidy() && (hasWatcher || watching == {})) ==> Tidy()
      ensures old(Sound() && Tidy()) ==> Tidy()
    {
      hide Tracks, Barred;
      var item := world.library(id);
      if !item.Found? {
        return item == NotFound;
      }
      if Tracks(log, blocked, watching) {
        TracksDegraded(log, blocked, watching, id, item.generation);
      }
      if hasWatcher {
        watching := watching - {id};
      } else {
        assert watching == {} ==> watching - {id} == watching;
      }
      active := active - {id};
      blocked := blocked[id := item.generation];
      log := log + [Degraded(id, item.generation)];
      ok := world.settles(id);
    }

    /** The first block under the mutex: drops what is gone or disabled. */
    method Prune(enabled: bool, libraries: seq<Library>)
      requires DistinctIds(libraries)
      modifies this
      ensures old(Sound()) ==> Sound()
      ensures old(Sound() && Tidy()) ==> Tidy()
      ensures log == old(log) + [Seen(enabled, Generations(libraries))]
      ensures forall id :: id in active <==> id in old(active) && enabled && id in Generations(libraries)
      ensures forall id :: id in blocked <==> id in old(blocked) && enabled && id in Generations(libraries)
      ensures forall id :: id in blocked ==> blocked[id] == old(blocked)[id]
      ensures !enabled ==> active.Keys == {} && blocked.Keys == {}
      ensures watching <= old(watching) && forall id :: id in active && id in old(watching) ==> id in watching
      ensures old(Sound()) ==> Held(libraries)
    {
      hide Tracks, Barred, Generations;
      var current := Generations(libraries);
      var dropped := set id | id in active && (!enabled || id !in current);
      if Sound() {
        TracksSeen(log, blocked, watching, enabled, current, dropped);
      }
      if hasWatcher {
        watching := watching - dropped;
      } else {
        assert watching == {} ==> watching - dropped == watching;
      }
      active := active - dropped;
      blocked := map id | id in blocked && enabled && id in current :: blocked[id];
      log := log + [Seen(enabled, current)];
      GenerationsOf(libraries);
    }

    /** The library has a generation, is not active, and is not held back at
        this generation. */
    predicate Eligible(item: Library, active0: map<int, string>, blocked0: map<int, int>) {
      && hasWatcher && item.generation >= 1 && item.id !in active0
      && (item.id in blocked0 ==> item.generation > blocked0[item.id])
    }

    /** One library of a reconfiguration: its watch is attempted exactly if it
        is eligible. */
    method Attend(item: Library, world: World) returns (ok: bool)
      modifies this
      ensures
        if !Eligible(item, old(active), old(blocked)) then
          && log == old(log) && active == old(active) && watching == old(watching)
          && (ok <==> hasWatcher || world.settles(item.id))
        else if world.watches(item.id) then
          && log == old(log) + [Watched(item.id)] && active == old(active)[item.id := item.root]
          && watching == old(watching) + {item.id} && item.id !in blocked && ok == world.settles(item.id)
        else
          && active == old(active)
          && (world.library(item.id).Found? ==>
                && log == old(log) + [Degraded(item.id, world.library(item.id).generation)]
                && watching == old(watching) - {item.id}
                && item.id in blocked && blocked[item.id] == world.library(item.id).generation)
          && (!world.library(item.id).Found? ==> log == old(log) && watching == old(watching) && item.id !in blocked)
      ensures item.generation < 1 || !hasWatcher || item.id in old(active) ==> log == old(log)
      ensures (&& hasWatcher && item.generation >= 1 && item.id !in old(active) && world.watches(item.id)
               && (item.id in old(blocked) ==> old(blocked)[item.id] < item.generation)) ==> item.id in active
      ensures forall id :: id != item.id ==>
        (id in blocked <==> id in old(blocked)) && (id in blocked ==> blocked[id] == old(blocked)[id])
      ensures old(Sound() && (item.id in Barred(log) ==> item.generation <= Barred(log)[item.id])) ==>
        Sound() && forall id :: id != item.id && id in Barred(log) ==>
          id in Barred(old(log)) && Barred(log)[id] == Barred(old(log))[id]
      ensures old(Sound() && Tidy()) ==> Tidy()
      ensures world.settles(item.id) && world.library(item.id) != Unreadable ==> ok
    {
      hide Tracks, Barred;
      if !hasWatcher {
        return world.settles(item.id);
      }
      if item.generation < 1 {
        return true;
      }
      var isActive, isBlocked := item.id in active, item.id in blocked;
      ghost var released :=
        Tracks(log, blocked, watching) && (item.id in Barred(log) ==> item.generation <= Barred(log)[item.id]);
      if released && item.id in Barred(log) {
        BarredIsBlocked(log, blocked, watching, item.id);
      }
      if isBlocked && item.generation > blocked[item.id] {
        if released {
          TracksReleased(log, blocked, watching, item.id);
        }
        blocked := blocked - {item.id};
        isBlocked := false;
      }
      if isActive || isBlocked {
        return true;
      }
      if !world.watches(item.id) {
        ok := DegradeAndFallback(item.id, world);
        return;
      }
      if released {
        TracksWatched(log, blocked, watching, item.id);
      }
      watching := watching + {item.id};
      log := log + [Watched(item.id)];
      active := active[item.id := item.root];
      ok := world.settles(item.id);
    }

    /** Those of the libraries that are barred are so at their generation or a
        later one. */
    ghost predicate Held(libraries: seq<Library>)
      reads this
    {
      forall k :: 0 <= k < |libraries| && libraries[k].id in Barred(log) ==>
        libraries[k].generation <= Barred(log)[libraries[k].id]
    }

    /** The libraries of a reconfiguration while discovery is enabled. */
    method AttendAll(libraries: seq<Library>, world: World) returns (ok: bool)
      requires DistinctIds(libraries)
      modifies this
      ensures old(Sound() && Held(libraries)) ==> Sound()
      ensures old(Sound() && Tidy()) && Sound() ==> Tidy()
      ensures old(log) <= log
      ensures forall id :: id in old(active) ==> id in active && (id in watching <==> id in old(watching))
      ensures ok ==> forall k :: 0 <= k < |libraries| ==>
        (libraries[k].id in active <==>
          || libraries[k].id in old(active)
          || (Eligible(libraries[k], old(active), old(blocked)) && world.watches(libraries[k].id)))
      ensures (forall id :: world.settles(id) && world.library(id) != Unreadable) ==> ok
    {
      hide Tracks, Barred;
      for n := 0 to |libraries|
        invariant old(Sound() && Held(libraries)) ==> Sound() && Held(libraries[n..])
        invariant old(Tidy()) ==> Tidy()
        invariant old(log) <= log
        invariant forall id :: id in old(active) ==> id in active && (id in watching <==> id in old(watching))
        invariant forall k :: n <= k < |libraries| ==>
          && (libraries[k].id in active <==> libraries[k].id in old(active))
          && (Eligible(libraries[k], active, blocked) <==> Eligible(libraries[k], old(active), old(blocked)))
        invariant forall k :: 0 <= k < n ==>
          (libraries[k].id in active <==>
            || libraries[k].id in old(active)
            || (Eligible(libraries[k], old(active), old(blocked)) && world.watches(libraries[k].id)))
      {
        ok := Attend(libraries[n], world);
        if !ok {
          return;
        }
      }
      ok := true;
    }

    /** A reconfiguration over what the database returned, if it answered at
        all. If it gets through all libraries it has attempted to watch exactly
        the eligible ones, and made those active whose watch worked. A library
        that was active stays as it is, watched or not, as long as discovery is
        enabled and the library exists. */
    method Reconfigure(answered: bool, enabled: bool, libraries: seq<Library>, world: World) returns (ok: bool)
      requires DistinctIds(libraries)
      modifies this
      ensures !answered ==> !ok && unchanged(this)
      ensures answered ==> old(log) + [Seen(enabled, Generations(libraries))] <= log
      ensures old(Sound()) ==> Sound()
      ensures old(Sound() && Tidy()) ==> Tidy()
      ensures answered && !enabled ==> active.Keys == {} && blocked.Keys == {}
      ensures forall id :: id in old(active) && enabled && id in Generations(libraries) ==>
        id in active && (id in watching ==> id in old(watching)) && (old(Sound()) ==> id in watching)
      ensures ok && enabled ==> forall k :: 0 <= k < |libraries| ==>
        (libraries[k].id in active <==>
          || libraries[k].id in old(active)
          || (Eligible(libraries[k], old(active), old(blocked)) && world.watches(libraries[k].id)))
      ensures answered && (forall id :: world.settles(id) && world.library(id) != Unreadable) ==> ok
    {
      hide Tracks, Barred, Generations;
      if !answered {
        return false;
      }
      Prune(enabled, libraries);
      GenerationsOf(libraries);
      if enabled {
        ok := AttendAll(libraries, world);
        return;
      }
      for n := 0 to |libraries| {
        if !world.settles(libraries[n].id) {
          return false;
        }
      }
      ok := true;
    }

    /** An overflow degrades every library active at the time that the database
        still has, unless it fails on the way. */
    method Overflowed(world: World) returns (ok: bool, ghost visited: set<int>)
      modifies this
      ensures old(Sound()) ==> Sound()
      ensures old(Sound() && Tidy()) ==> Tidy()
      ensures old(log) <= log
      ensures visited <= old(active.Keys) && (ok ==> visited == old(active.Keys))
      ensures DegradedBy(visited, world.library, old(active), old(blocked), active, blocked)
      ensures (forall id :: world.settles(id) && world.library(id) != Unreadable) ==> ok
    {
      hide Tracks, Barred, DegradedBy, Sound, Tidy;
      visited := {};
      NoneDegraded(world.library, active, blocked);
      var ids: set<int> := active.Keys;
      while exists id :: id in ids
        invariant old(Sound()) ==> Sound()
        invariant old(Sound() && Tidy()) ==> Tidy()
        invariant old(log) <= log
        invariant visited + ids == old(active.Keys)
        invariant forall id :: id in ids ==> id !in visited
        invariant DegradedBy(visited, world.library, old(active), old(blocked), active, blocked)
        decreases |ids|
      {
        var id :| id in ids;
        ids := ids - {id};
        OneMoreDegraded(visited, world.library, old(active), old(blocked), active, blocked, id);
        ok := DegradeAndFallback(id, world);
        visited := visited + {id};
        if !ok {
          return;
        }
      }
      assert visited + {} == visited;
      ok := true;
    }

    /** One event of the watcher. An overflow degrades every active library that
        the database has. Any other event degrades its own library or nothing:
        an invalidated one, and one whose dirty directory finds no room. */
    method HandleEvent(event: WatchEvent, world: World) returns (ok: bool)
      modifies this
      ensures old(Sound()) ==> Sound()
      ensures old(Sound() && Tidy()) ==> Tidy()
      ensures old(log) <= log
      ensures !event.Overflow? ==>
        if event.id > 0 && world.library(event.id).Found?
           && (event.Invalidated? || (event.Dirty? && world.marked == Full))
        then && active == old(active) - {event.id}
             && blocked == old(blocked)[event.id := world.library(event.id).generation]
             && log == old(log) + [Degraded(event.id, world.library(event.id).generation)]
        else unchanged(this)
      ensures !event.Overflow? && (event.id <= 0 || event.Other?) ==> !ok
      ensures event.Overflow? && ok ==>
        DegradedBy(old(active.Keys), world.library, old(active), old(blocked), active, blocked)
      ensures event.Overflow? && (forall id :: world.settles(id) && world.library(id) != Unreadable) ==> ok
    {
      match event {
        case Overflow =>
          ghost var visited;
          ok, visited := Overflowed(world);
        case Invalidated(id) =>
          if id <= 0 {
            return false;
          }
          ok := DegradeAndFallback(id, world);
        case Dirty(id) =>
          if id <= 0 {
            return false;
          }
          if world.marked == Full {
            ok := DegradeAndFallback(id, world);
          } else {
            ok := world.marked != Broken;
          }
        case Other(_) => return false;
      }
    }

    /** A reconcile job found a directory and has it watched. This asks neither
        map: the library may be blocked, or not active at all. */
    method DirectoryDiscovered(id: int, world: World) returns (ok: bool)
      modifies this
      ensures old(Sound()) ==> Sound()
      ensures old(log) <= log
      ensures !hasWatcher ==> !ok && unchanged(this)
      ensures hasWatcher ==>
        var added := if world.watches(id) then [DirectoryWatched(id)] else [];
        if (world.watches(id) && world.marked != Full) || !world.library(id).Found? then
          && active == old(active) && blocked == old(blocked) && log == old(log) + added
          && watching == old(watching) + (if world.watches(id) then {id} else {})
        else
          && active == old(active) - {id} && blocked == old(blocked)[id := world.library(id).generation]
          && watching == old(watching) - {id}
          && log == old(log) + added + [Degraded(id, world.library(id).generation)]
      ensures old(Sound() && Tidy()) ==>
        (Tidy() <==>
          || !hasWatcher || !world.watches(id) || id in old(active)
          || (world.marked == Full && world.library(id).Found?))
    {
      hide Tracks, Barred;
      if !hasWatcher {
        return false;
      }
      if !world.watches(id) {
        ok := DegradeAndFallback(id, world);
        return;
      }
      if Tracks(log, blocked, watching) {
        TracksDirectory(log, blocked, watching, id);
      }
      watching := watching + {id};
      log := log + [DirectoryWatched(id)];
      if world.marked == Full {
        ok := DegradeAndFallback(id, world);
      } else {
        ok := world.marked == Accepted;
      }
    }

    method ReconcileFailed(id: int, archive: bool, world: World) returns (ok: bool)
      modifies this
      ensures old(Sound()) ==> Sound()
      ensures old(Sound() && Tidy()) ==> Tidy()
      ensures old(log) <= log
      ensures if archive || !world.library(id).Found? then unchanged(this)
              else && active == old(active) - {id} && blocked == old(blocked)[id := world.library(id).generation]
                   && watching == (if hasWatcher then old(watching) - {id} else old(watching))
                   && log == old(log) + [Degraded(id, world.library(id).generation)]
    {
      if archive {
        return world.settles(id);
      }
      ok := DegradeAndFallback(id, world);
    }
  }

  // ------------------------------------------------------------------- runs

  datatype Step =
    | Reconfiguring(answered: bool, enabled: bool, libraries: seq<Library>, world: World)
    | Handling(event: WatchEvent, world: World)
    | Discovering(id: int, world: World)
    | Failing(id: int, archive: bool, world: World)

  /** Every run, each method taken as one step. No library is active and
      blocked at once; a barred one is held back, is never watched with its
      whole tree, and is watched in part if and only if one of its directories
      has been watched since it was last degraded. */
  method Coordinate(hasWatcher: bool, steps: seq<Step>) returns (c: Coordinator)
    requires forall i :: 0 <= i < |steps| && steps[i].Reconfiguring? ==> DistinctIds(steps[i].libraries)
    ensures c.active.Keys !! c.blocked.Keys && Orderly(c.log)
    ensures forall id :: id in Barred(c.log) ==>
      && id in c.blocked && id !in c.active
      && (id in c.watching <==> exists j :: DirectorySince(c.log, id, j))
  {
    c := new Coordinator(hasWatcher);
    for n := 0 to |steps|
      invariant c.Sound() && fresh(c)
    {
      var ok;
      match steps[n] {
        case Reconfiguring(answered, enabled, libraries, world) =>
          ok := c.Reconfigure(answered, enabled, libraries, world);
        case Handling(event, world) => ok := c.HandleEvent(event, world);
        case Discovering(id, world) => ok := c.DirectoryDiscovered(id, world);
        case Failing(id, archive, world) => ok := c.ReconcileFailed(id, archive, world);
      }
    }
    forall id | id in Barred(c.log)
      ensures id in c.blocked && id !in c.active
      ensures id in c.watching <==> exists j :: DirectorySince(c.log, id, j)
    {
      PartlyWatchedExactly(c.log, id);
    }
  }

  /** A run that ends with a barred library watched: it becomes active, and of
      two new directories that a reconcile job finds in it the first cannot be
      watched, which degrades it, and the second can. */
  method BarredLibraryIsWatched() returns (c: Coordinator)
    ensures |c.log| > 2 && c.log[|c.log| - 2..] == [Degraded(7, 1), DirectoryWatched(7)]
    ensures 7 in Barred(c.log) && 7 in c.blocked && 7 !in c.active && 7 in c.watching
  {
    var works := World((id: int) => Found(1), (id: int) => true, (id: int) => true, Accepted);
    var fails := works.(watches := (id: int) => false);
    c := new Coordinator(true);
    var libraries := [Library(7, 1, "photos")];
    var ok := c.Reconfigure(true, true, libraries, works);
    assert libraries[0].id in c.active;
    ok := c.DirectoryDiscovered(7, fails);
    ok := c.DirectoryDiscovered(7, works);
  }

  // ------------------------------------------------------------- finer steps

  /** The coordinator's three sets, for one library attended to in three steps
      (the check, the watch, the entry as active) between which reconcile jobs
      may degrade libraries and have directories watched. */
  datatype State = State(active: set<int>, blocked: map<int, int>, watching: set<int>)

  datatype Move = Degrading(id: int, generation: int) | WatchingDirectory(id: int)

  predicate Apart(st: State) { st.active !! st.blocked.Keys }

  function Watch(st: State, id: int): State { st.(watching := st.watching + {id}) }
  function Activate(st: State, id: int): State { st.(active := st.active + {id}) }

  function Moved(st: State, moves: seq<Move>): State {
    if moves == [] then st
    else
      var before := Moved(st, moves[..|moves| - 1]);
      match moves[|moves| - 1]
      case Degrading(id, generation) =>
        State(before.active - {id}, before.blocked[id := generation], before.watching - {id})
      case WatchingDirectory(id) => Watch(before, id)
  }

  predicate Degrades(moves: seq<Move>, id: int, i: int) {
    0 <= i < |moves| && moves[i].Degrading? && moves[i].id == id
  }

  ghost predicate IsDegraded(moves: seq<Move>, id: int) {
    exists i :: Degrades(moves, id, i)
  }

  /** Degraded, and no directory watched since. */
  ghost predicate EndsUnwatched(moves: seq<Move>, id: int) {
    exists i :: Degrades(moves, id, i) && WatchingDirectory(id) !in moves[i + 1..]
  }

  lemma DegradesBeforeLast(moves: seq<Move>, id: int, i: int)
    requires moves != [] && 0 <= i < |moves| - 1
    ensures Degrades(moves, id, i) <==> Degrades(moves[..|moves| - 1], id, i)
    ensures WatchingDirectory(id) in moves[i + 1..] <==>
            WatchingDirectory(id) in moves[..|moves| - 1][i + 1..] || moves[|moves| - 1] == WatchingDirectory(id)
  {
    assert moves[i + 1..] == moves[..|moves| - 1][i + 1..] + [moves[|moves| - 1]];
  }

  lemma OneMoreMove(moves: seq<Move>, id: int)
    requires moves != []
    ensures
      var init, last := moves[..|moves| - 1], moves[|moves| - 1];
      && (IsDegraded(moves, id) <==> IsDegraded(init, id) || (last.Degrading? && last.id == id))
      && (EndsUnwatched(moves, id) <==>
            (last.Degrading? && last.id == id) || (EndsUnwatched(init, id) && last != WatchingDirectory(id)))
  {
    var init, last := moves[..|moves| - 1], moves[|moves| - 1];
    forall i | 0 <= i < |init|
      ensures Degrades(moves, id, i) <==> Degrades(init, id, i)
      ensures WatchingDirectory(id) in moves[i + 1..] <==>
              WatchingDirectory(id) in init[i + 1..] || last == WatchingDirectory(id)
    {
      DegradesBeforeLast(moves, id, i);
    }
    if last.Degrading? && last.id == id {
      assert Degrades(moves, id, |init|) && moves[|init| + 1..] == [];
    }
    if IsDegraded(init, id) {
      var i :| Degrades(init, id, i);
      assert Degrades(moves, id, i);
    }
    if EndsUnwatched(init, id) && last != WatchingDirectory(id) {
      var i :| Degrades(init, id, i) && WatchingDirectory(id) !in init[i + 1..];
      assert Degrades(moves, id, i) && WatchingDirectory(id) !in moves[i + 1..];
    }
  }

  lemma {:induction false} MovesAre(st: State, moves: seq<Move>, id: int)
    ensures id in Moved(st, moves).active <==> id in st.active && !IsDegraded(moves, id)
    ensures id in Moved(st, moves).blocked <==> id in st.blocked || IsDegraded(moves, id)
    ensures id in st.watching ==> (id !in Moved(st, moves).watching <==> EndsUnwatched(moves, id))
  {
    if moves != [] {
      MovesAre(st, moves[..|moves| - 1], id);
      OneMoreMove(moves, id);
      hide IsDegraded, EndsUnwatched;
    }
  }

  /** Whatever reconcile jobs do between the steps, the two maps stay disjoint
      exactly if the library is not degraded after the check; and it ends
      active but unwatched exactly if it is degraded after the watch and none
      of its directories is watched since. */
  lemma ApartUnlessDegradedBetween(st: State, id: int, before: seq<Move>, after: seq<Move>)
    requires Apart(st) && id !in st.blocked
    ensures var end := Activate(Moved(Watch(Moved(st, before), id), after), id);
      && (Apart(end) <==> !IsDegraded(before, id) && !IsDegraded(after, id))
      && id in end.active && (id !in end.watching <==> EndsUnwatched(after, id))
  {
    hide IsDegraded, EndsUnwatched, Moved;
    var s1 := Watch(Moved(st, before), id);
    var s2 := Moved(s1, after);
    MovesAre(st, before, id);
    MovesAre(s1, after, id);
    forall other | other in s2.active ensures other !in s2.blocked {
      MovesAre(st, before, other);
      MovesAre(s1, after, other);
    }
  }

  /** The race at its smallest: library 7 is degraded at generation 3 between
      its watch and its entry as active. It ends active, blocked and unwatched. */
  lemma DegradedBetweenWatchAndEntry()
    ensures
      var start := State({}, map[], {});
      var end := Activate(Moved(Watch(start, 7), [Degrading(7, 3)]), 7);
      Apart(start) && 7 in end.active && 7 in end.blocked && 7 !in end.watching
  {
    var start, between := State({}, map[], {}), [Degrading(7, 3)];
    assert Degrades(between, 7, 0) && between[1..] == [];
    MovesAre(Watch(start, 7), between, 7);
  }
}
