/** The fixed-window request rate limiter: a bounded table of buckets changed in
    place, with expiry and clocks that may go back. Times are nanoseconds. */
module RateLimiter {
  type Time = int

  const SECOND: int := 1_000_000_000
  const WINDOW: int := 60 * SECOND
  const MAX_BUCKETS: nat := 4096

  datatype Bucket = Bucket(start: Time, used: nat)
  type Table = map<string, Bucket>
  datatype Answer = Allowed | Denied(retryAfter: int)

  // ----------------------------------------------------- one call, as a step

  predicate Live(bucket: Bucket, now: Time) {
    now - bucket.start < WINDOW
  }

  /** A bucket from the future is moved to the present and keeps its count. */
  function Rebase(bucket: Bucket, now: Time): Bucket {
    if now < bucket.start then bucket.(start := now) else bucket
  }

  function Swept(table: Table, now: Time): Table {
    map k | k in table && Live(table[k], now) :: Rebase(table[k], now)
  }

  function RetrySeconds(bucket: Bucket, now: Time): int {
    var seconds := (WINDOW - (now - bucket.start) + SECOND - 1) / SECOND;
    if seconds < 1 then 1 else seconds
  }

  function Take(table: Table, key: string, bucket: Bucket, limit: int, now: Time): (Table, Answer) {
    if bucket.used >= limit then (table, Denied(RetrySeconds(bucket, now)))
    else (table[key := bucket.(used := bucket.used + 1)], Allowed)
  }

  /** A call that finds its bucket's window open. */
  function WarmStep(table: Table, key: string, limit: int, now: Time): (Table, Answer)
    requires key in table
  {
    var bucket := Rebase(table[key], now);
    Take(table[key := bucket], key, bucket, limit, now)
  }

  /** A call that has to open a window; `others` is the table without its key. */
  function ColdStep(others: Table, key: string, limit: int, now: Time): (Table, Answer) {
    var room := if |others| >= MAX_BUCKETS then Swept(others, now) else others;
    if |room| >= MAX_BUCKETS then (room, Denied(1))
    else Take(room, key, Bucket(now, 0), limit, now)
  }

  function Step(table: Table, key: string, limit: int, now: Time): (Table, Answer) {
    if key in table && Live(table[key], now) then WarmStep(table, key, limit, now)
    else ColdStep(table - {key}, key, limit, now)
  }

  // ------------------------------------------------------ the limiter itself

  class RequestRateLimiter {
    var buckets: Table

    constructor ()
      ensures buckets == map[]
    {
      buckets := map[];
    }

    method DeleteExpired(now: Time)
      modifies this
      ensures buckets == Swept(old(buckets), now)
    {
      var pending := buckets.Keys;
      while pending != {}
        invariant pending <= old(buckets).Keys
        invariant forall k :: k in buckets <==> k in old(buckets) && (k in pending || Live(old(buckets)[k], now))
        invariant forall k :: k in buckets ==>
          buckets[k] == if k in pending then old(buckets)[k] else Rebase(old(buckets)[k], now)
      {
        var key :| key in pending;
        var bucket := buckets[key];
        if now < bucket.start {
          buckets := buckets[key := bucket.(start := now)];
        } else if now - bucket.start >= WINDOW {
          buckets := buckets - {key};
        }
        pending := pending - {key};
      }
    }

    method Allow(key: string, limit: int, now: Time) returns (answer: Answer)
      modifies this
      ensures (buckets, answer) == Step(old(buckets), key, limit, now)
    {
      var known := key in buckets;
      var bucket := if known then buckets[key] else Bucket(now, 0);
      if known && now < bucket.start {
        bucket := bucket.(start := now);
        buckets := buckets[key := bucket];
      }
      if known && now - bucket.start >= WINDOW {
        buckets := buckets - {key};
        known := false;
      }
      if !known {
        assert buckets == old(buckets) - {key};
        if |buckets| >= MAX_BUCKETS {
          DeleteExpired(now);
        }
        if |buckets| >= MAX_BUCKETS {
          return Denied(1);
        }
        bucket := Bucket(now, 0);
      } else {
        assert buckets == old(buckets)[key := bucket];
      }
      if bucket.used >= limit {
        return Denied(RetrySeconds(bucket, now));
      }
      buckets := buckets[key := bucket.(used := bucket.used + 1)];
      return Allowed;
    }
  }

  // ----------------------------------------------------------- any clock

  /** The table is bounded and no bucket is over its key's limit. */
  ghost predicate Bounded(table: Table, limits: string -> nat) {
    |table| <= MAX_BUCKETS && forall k :: k in table ==> table[k].used <= limits(k)
  }

  lemma SweptIsSmaller(table: Table, now: Time)
    ensures |Swept(table, now)| <= |table|
  {
    var swept := Swept(table, now);
    assert swept.Keys <= table.Keys;
    SubsetIsSmaller(swept.Keys, table.Keys);
    assert |swept.Keys| == |swept| && |table.Keys| == |table|;
  }

  lemma SubsetIsSmaller<T>(a: set<T>, b: set<T>)
    requires a <= b
    ensures |a| <= |b|
  {
    assert b == a + (b - a);
  }

  lemma TakeKeepsBounds(table: Table, key: string, bucket: Bucket, limits: string -> nat, now: Time)
    requires Bounded(table, limits) && (key in table || |table| < MAX_BUCKETS)
    requires bucket.used <= limits(key) && bucket.start <= now && Live(bucket, now)
    ensures Bounded(Take(table, key, bucket, limits(key), now).0, limits)
    ensures var answer := Take(table, key, bucket, limits(key), now).1;
            answer.Denied? ==> 1 <= answer.retryAfter <= 60
  {
    UpdateGrowsByOne(table, key, bucket.(used := bucket.used + 1));
  }

  lemma UpdateGrowsByOne(table: Table, key: string, bucket: Bucket)
    ensures |table[key := bucket]| == |table| + if key in table then 0 else 1
  {
    assert table[key := bucket].Keys == table.Keys + {key};
    assert |table.Keys| == |table| && |table[key := bucket].Keys| == |table[key := bucket]|;
  }

  lemma WarmStepKeepsBounds(table: Table, key: string, limits: string -> nat, now: Time)
    requires Bounded(table, limits) && key in table && Live(table[key], now)
    ensures Bounded(WarmStep(table, key, limits(key), now).0, limits)
    ensures var answer := WarmStep(table, key, limits(key), now).1;
            answer.Denied? ==> 1 <= answer.retryAfter <= 60
  {
    hide Take, RetrySeconds;
    var bucket := Rebase(table[key], now);
    UpdateGrowsByOne(table, key, bucket);
    TakeKeepsBounds(table[key := bucket], key, bucket, limits, now);
  }

  lemma ColdStepKeepsBounds(others: Table, key: string, limits: string -> nat, now: Time)
    requires Bounded(others, limits)
    ensures Bounded(ColdStep(others, key, limits(key), now).0, limits)
    ensures var answer := ColdStep(others, key, limits(key), now).1;
            answer.Denied? ==> 1 <= answer.retryAfter <= 60
  {
    hide Take, RetrySeconds;
    SweptIsSmaller(others, now);
    var room := if |others| >= MAX_BUCKETS then Swept(others, now) else others;
    if |room| < MAX_BUCKETS {
      TakeKeepsBounds(room, key, Bucket(now, 0), limits, now);
    }
  }

  /** Whatever the clock does, including going back. */
  lemma StepKeepsBounds(table: Table, key: string, limits: string -> nat, now: Time)
    requires Bounded(table, limits)
    ensures Bounded(Step(table, key, limits(key), now).0, limits)
    ensures var answer := Step(table, key, limits(key), now).1;
            answer.Denied? ==> 1 <= answer.retryAfter <= 60
  {
    hide WarmStep, ColdStep;
    if key in table && Live(table[key], now) {
      WarmStepKeepsBounds(table, key, limits, now);
    } else {
      var others := table - {key};
      SubsetIsSmaller(others.Keys, table.Keys);
      assert |others.Keys| == |others| && |table.Keys| == |table|;
      ColdStepKeepsBounds(others, key, limits, now);
    }
  }

  // ------------------------------------------------------------ histories

  datatype Call = Call(key: string, at: Time)

  ghost predicate Ordered(calls: seq<Call>) {
    forall i, j :: 0 <= i < j < |calls| ==> calls[i].at <= calls[j].at
  }

  function After(calls: seq<Call>, limits: string -> nat): Table {
    if calls == [] then map[]
    else
      var last := calls[|calls| - 1];
      Step(After(calls[..|calls| - 1], limits), last.key, limits(last.key), last.at).0
  }

  /** Whether the last call of the history was admitted, and was for `key`. */
  function AdmitsLast(calls: seq<Call>, limits: string -> nat, key: string): bool
    requires calls != []
  {
    var last := calls[|calls| - 1];
    last.key == key && Step(After(calls[..|calls| - 1], limits), key, limits(key), last.at).1.Allowed?
  }

  /** Requests of `key` admitted from time `lo` to time `hi`. */
  function Admitted(calls: seq<Call>, limits: string -> nat, key: string, lo: Time, hi: Time): nat {
    if calls == [] then 0
    else
      Admitted(calls[..|calls| - 1], limits, key, lo, hi)
      + if AdmitsLast(calls, limits, key) && lo <= calls[|calls| - 1].at <= hi then 1 else 0
  }

  lemma {:induction false} BoundsHoldAlways(calls: seq<Call>, limits: string -> nat)
    ensures Bounded(After(calls, limits), limits)
  {
    if calls != [] {
      BoundsHoldAlways(calls[..|calls| - 1], limits);
      var last := calls[|calls| - 1];
      StepKeepsBounds(After(calls[..|calls| - 1], limits), last.key, limits, last.at);
    }
  }

  lemma {:induction false} NarrowerAdmitsFewer(
      calls: seq<Call>, limits: string -> nat, key: string, lo: Time, hi: Time, lo': Time, hi': Time)
    requires lo <= lo' && hi' <= hi
    ensures Admitted(calls, limits, key, lo', hi') <= Admitted(calls, limits, key, lo, hi)
  {
    if calls != [] {
      NarrowerAdmitsFewer(calls[..|calls| - 1], limits, key, lo, hi, lo', hi');
    }
  }

  /** With an ordered clock, no call changes another key's bucket except by
      sweeping it away once it has expired. */
  lemma OthersAreLeftAlone(table: Table, key: string, limit: int, now: Time, other: string)
    requires other != key && (other in table ==> table[other].start <= now)
    ensures
      var after := Step(table, key, limit, now).0;
      && (other in after ==> other in table && after[other] == table[other])
      && (other in table && other !in after ==> !Live(table[other], now))
  {
    hide Step;
    OthersAtAnyClock(table, key, limit, now, other);
  }

  datatype Slot = Empty | Held(bucket: Bucket)

  function SlotOf(table: Table, key: string): Slot {
    if key in table then Held(table[key]) else Empty
  }

  /** How the admissions of one key, `count(lo)` of them since `lo`, fall into
      windows: those of the open window are counted by its bucket, and those
      before it stay within one limit. */
  ghost predicate Windowed(slot: Slot, count: Time -> nat, limit: nat, end: Time) {
    match slot
    case Held(Bucket(start, used)) =>
      && start <= end && count(start) == used <= limit
      && count(start - WINDOW) <= limit + used && count(start + WINDOW) == 0
    case Empty =>
      exists closed :: closed <= end && count(closed) == 0 && count(closed - WINDOW) <= limit
  }

  ghost predicate Falling(count: Time -> nat) {
    forall lo, lo' :: lo <= lo' ==> count(lo') <= count(lo)
  }

  /** `more` counts what `count` does and, if `admitted`, the call at `end`. */
  ghost predicate Adds(count: Time -> nat, more: Time -> nat, admitted: bool, end: Time) {
    forall lo :: more(lo) == count(lo) + if admitted && lo <= end then 1 else 0
  }

  lemma OwnCallKeepsWindows(
      slot: Slot, next: Slot, count: Time -> nat, more: Time -> nat, admitted: bool, limit: nat, end: Time)
    requires limit > 0 && Falling(count) && Windowed(slot, count, limit, end) && Adds(count, more, admitted, end)
    requires
      if slot.Held? && Live(slot.bucket, end) then
        && (admitted <==> slot.bucket.used < limit)
        && next == Held(slot.bucket.(used := slot.bucket.used + if admitted then 1 else 0))
      else next == if admitted then Held(Bucket(end, 1)) else Empty
    ensures Windowed(next, more, limit, end)
    ensures admitted ==> count(end - WINDOW) < 2 * limit
  {
    if slot.Held? && Live(slot.bucket, end) {
      assert count(end - WINDOW) <= count(slot.bucket.start - WINDOW);
    } else {
      var closed: Time;
      if slot.Held? {
        closed := slot.bucket.start + WINDOW;
        assert closed - WINDOW == slot.bucket.start;
      } else {
        closed :| closed <= end && count(closed) == 0 && count(closed - WINDOW) <= limit;
      }
      assert count(end) <= count(closed) && count(end + WINDOW) <= count(closed);
      assert count(end - WINDOW) <= count(closed - WINDOW);
      assert more(closed) == count(closed) + if admitted && closed <= end then 1 else 0;
      assert more(end) == count(end) + if admitted then 1 else 0;
      assert more(end - WINDOW) == count(end - WINDOW) + if admitted then 1 else 0;
      assert more(end + WINDOW) == 0;
      if !admitted {
        assert more(closed) == 0 && more(closed - WINDOW) == count(closed - WINDOW);
      }
    }
  }

  lemma OtherCallKeepsWindows(slot: Slot, next: Slot, count: Time -> nat, limit: nat, end: Time)
    requires Windowed(slot, count, limit, end)
    requires next == slot || (slot.Held? && next == Empty && !Live(slot.bucket, end))
    ensures Windowed(next, count, limit, end)
  {
    if next != slot {
      var closed := slot.bucket.start + WINDOW;
      assert closed - WINDOW == slot.bucket.start;
    }
  }

  /** The history up to its last call, which is at or after `end`. */
  lemma LaterEndsAddNothing(calls: seq<Call>, limits: string -> nat, key: string, lo: Time, end: Time, later: Time)
    requires forall i :: 0 <= i < |calls| ==> calls[i].at <= end
    requires end <= later
    ensures Admitted(calls, limits, key, lo, later) == Admitted(calls, limits, key, lo, end)
  {
    if calls != [] {
      LaterEndsAddNothing(calls[..|calls| - 1], limits, key, lo, end, later);
    }
  }

  /** What a call does to its own key's bucket when the clock is ordered. */
  lemma OwnBucketMoves(table: Table, key: string, limit: nat, now: Time)
    requires limit > 0 && (key in table ==> table[key].start <= now)
    ensures
      var (after, answer) := Step(table, key, limit, now);
      if key in table && Live(table[key], now) then
        && key in after && after[key].start == table[key].start
        && (answer == Allowed <==> table[key].used < limit)
        && after[key].used == table[key].used + if answer == Allowed then 1 else 0
      else
        && (key in after <==> answer == Allowed)
        && (answer == Allowed ==> after[key] == Bucket(now, 1))
  {
  }

  lemma NothingAdmitted(limits: string -> nat, key: string, lo: Time, hi: Time)
    ensures After([], limits) == map[] && Admitted([], limits, key, lo, hi) == 0
  {
  }

  lemma LastCallAdds(calls: seq<Call>, limits: string -> nat, key: string, lo: Time, hi: Time)
    requires calls != []
    ensures Admitted(calls, limits, key, lo, hi)
         == Admitted(calls[..|calls| - 1], limits, key, lo, hi)
            + if AdmitsLast(calls, limits, key) && lo <= calls[|calls| - 1].at <= hi then 1 else 0
  {
  }

  lemma LastStep(calls: seq<Call>, limits: string -> nat, key: string)
    requires calls != []
    ensures
      var last := calls[|calls| - 1];
      var (after, answer) := Step(After(calls[..|calls| - 1], limits), last.key, limits(last.key), last.at);
      After(calls, limits) == after && (AdmitsLast(calls, limits, key) <==> last.key == key && answer.Allowed?)
  {
  }

  function Since(calls: seq<Call>, limits: string -> nat, key: string, end: Time): Time -> nat {
    lo => Admitted(calls, limits, key, lo, end)
  }

  lemma SinceFalls(calls: seq<Call>, limits: string -> nat, key: string, end: Time)
    ensures Falling(Since(calls, limits, key, end))
  {
    forall lo, lo' | lo <= lo'
      ensures Since(calls, limits, key, end)(lo') <= Since(calls, limits, key, end)(lo)
    {
      NarrowerAdmitsFewer(calls, limits, key, lo, end, lo', end);
    }
  }

  lemma LastCallCounts(calls: seq<Call>, limits: string -> nat, key: string, end: Time)
    requires calls != [] && calls[|calls| - 1].at == end
    ensures Adds(Since(calls[..|calls| - 1], limits, key, end), Since(calls, limits, key, end),
                 AdmitsLast(calls, limits, key), end)
  {
    hide After, Admitted, AdmitsLast;
    forall lo
      ensures Since(calls, limits, key, end)(lo) == Since(calls[..|calls| - 1], limits, key, end)(lo)
           + if AdmitsLast(calls, limits, key) && lo <= end then 1 else 0
    {
      LastCallAdds(calls, limits, key, lo, end);
    }
  }

  ghost predicate History(calls: seq<Call>, limits: string -> nat, key: string, end: Time) {
    Windowed(SlotOf(After(calls, limits), key), Since(calls, limits, key, end), limits(key), end)
  }

  lemma OneMoreCall(calls: seq<Call>, limits: string -> nat, key: string, end: Time)
    requires calls != [] && calls[|calls| - 1].at == end && limits(key) > 0
    requires History(calls[..|calls| - 1], limits, key, end)
    ensures History(calls, limits, key, end)
    ensures AdmitsLast(calls, limits, key) ==>
      Since(calls[..|calls| - 1], limits, key, end)(end - WINDOW) < 2 * limits(key)
  {
    hide After, Admitted, AdmitsLast, Step, Since, Falling, Adds, Windowed;
    var before, last, limit := calls[..|calls| - 1], calls[|calls| - 1], limits(key);
    var table, after := After(before, limits), After(calls, limits);
    var count, more := Since(before, limits, key, end), Since(calls, limits, key, end);
    LastStep(calls, limits, key);
    LastCallCounts(calls, limits, key, end);
    StartsInThePast(SlotOf(table, key), count, limit, end);
    if last.key == key {
      SinceFalls(before, limits, key, end);
      OwnBucketMoves(table, key, limit, end);
      OwnCallKeepsWindows(
        SlotOf(table, key), SlotOf(after, key), count, more, AdmitsLast(calls, limits, key), limit, end);
    } else {
      OthersAreLeftAlone(table, last.key, limits(last.key), end, key);
      OtherCallKeepsWindows(SlotOf(table, key), SlotOf(after, key), count, limit, end);
      NothingAdded(SlotOf(after, key), count, more, limit, end);
    }
  }

  lemma StartsInThePast(slot: Slot, count: Time -> nat, limit: nat, end: Time)
    requires Windowed(slot, count, limit, end)
    ensures slot.Held? ==> slot.bucket.start <= end
  {
  }

  lemma NothingAdded(slot: Slot, count: Time -> nat, more: Time -> nat, limit: nat, end: Time)
    requires Windowed(slot, count, limit, end) && Adds(count, more, false, end)
    ensures Windowed(slot, more, limit, end)
  {
    WindowedByCounts(slot, count, more, limit, end);
  }

  lemma WindowedByCounts(slot: Slot, count: Time -> nat, more: Time -> nat, limit: nat, end: Time)
    requires Windowed(slot, count, limit, end) && forall lo :: more(lo) == count(lo)
    ensures Windowed(slot, more, limit, end)
  {
    if slot == Empty {
      var closed :| closed <= end && count(closed) == 0 && count(closed - WINDOW) <= limit;
      assert more(closed) == 0 && more(closed - WINDOW) <= limit;
    }
  }

  lemma HistoryLasts(calls: seq<Call>, limits: string -> nat, key: string, end: Time, later: Time)
    requires History(calls, limits, key, end) && end <= later
    requires forall i :: 0 <= i < |calls| ==> calls[i].at <= end
    ensures History(calls, limits, key, later)
  {
    var count, more := Since(calls, limits, key, end), Since(calls, limits, key, later);
    forall lo ensures more(lo) == count(lo) {
      LaterEndsAddNothing(calls, limits, key, lo, end, later);
    }
    WindowedByCounts(SlotOf(After(calls, limits), key), count, more, limits(key), end);
  }

  lemma NoHistory(limits: string -> nat, key: string, end: Time)
    ensures History([], limits, key, end)
  {
    var count := Since([], limits, key, end);
    assert count(end) == 0 && count(end - WINDOW) == 0;
  }

  lemma {:induction false} OrderedHistoriesAreWindowed(calls: seq<Call>, limits: string -> nat, key: string, end: Time)
    requires Ordered(calls) && limits(key) > 0
    requires forall i :: 0 <= i < |calls| ==> calls[i].at <= end
    ensures History(calls, limits, key, end)
  {
    hide After, Admitted, History, Since;
    if calls == [] {
      NoHistory(limits, key, end);
    } else {
      var last := calls[|calls| - 1].at;
      OrderedHistoriesAreWindowed(calls[..|calls| - 1], limits, key, last);
      OneMoreCall(calls, limits, key, last);
      HistoryLasts(calls, limits, key, last, end);
    }
  }

  /** In every history of calls with an ordered clock, over all keys and with
      all evictions, no interval of one window admits more than twice the
      limit of a key. */
  lemma {:induction false} WindowAdmitsAtMostTwice(calls: seq<Call>, limits: string -> nat, key: string, lo: Time)
    requires Ordered(calls) && limits(key) > 0
    ensures Admitted(calls, limits, key, lo, lo + WINDOW) <= 2 * limits(key)
  {
    hide After, Admitted, AdmitsLast, History;
    if calls == [] {
      NothingAdmitted(limits, key, lo, lo + WINDOW);
    } else {
      var before, end := calls[..|calls| - 1], calls[|calls| - 1].at;
      LastCallAdds(calls, limits, key, lo, lo + WINDOW);
      WindowAdmitsAtMostTwice(before, limits, key, lo);
      if AdmitsLast(calls, limits, key) && lo <= end <= lo + WINDOW {
        OrderedHistoriesAreWindowed(before, limits, key, end);
        OneMoreCall(calls, limits, key, end);
        LaterEndsAddNothing(before, limits, key, lo, end, lo + WINDOW);
        NarrowerAdmitsFewer(before, limits, key, end - WINDOW, end, lo, end);
      }
    }
  }

  /** A key whose window is over always finds room, its own at the least. */
  lemma ExpiredKeyIsAdmitted(table: Table, key: string, limit: int, now: Time)
    requires limit > 0 && |table| <= MAX_BUCKETS && key in table && !Live(table[key], now)
    ensures Step(table, key, limit, now).1 == Allowed
  {
    assert table.Keys == (table - {key}).Keys + {key};
    assert |table.Keys| == |table| && |(table - {key}).Keys| == |table - {key}|;
  }

  lemma FirstKeyIsAdmitted(key: string, limit: int, now: Time)
    requires limit > 0
    ensures Step(map[], key, limit, now).1 == Allowed
  {
    var none: Table := map[];
    assert none - {key} == none;
  }

  /** `n` calls of a key at one time. */
  function Burst(key: string, at: Time, n: nat): seq<Call> {
    if n == 0 then [] else Burst(key, at, n - 1) + [Call(key, at)]
  }

  /** A burst within what is left of an open window is admitted whole. */
  lemma {:induction false} BurstIsAdmitted(
      calls: seq<Call>, limits: string -> nat, key: string, at: Time, n: nat, lo: Time, hi: Time)
    requires key in After(calls, limits) && After(calls, limits)[key].start <= at && Live(After(calls, limits)[key], at)
    requires After(calls, limits)[key].used + n <= limits(key) && lo <= at <= hi
    ensures
      var after := After(calls + Burst(key, at, n), limits);
      && key in after && after[key] == After(calls, limits)[key].(used := After(calls, limits)[key].used + n)
      && Admitted(calls + Burst(key, at, n), limits, key, lo, hi) == Admitted(calls, limits, key, lo, hi) + n
  {
    hide Step, After, Admitted;
    if n == 0 {
      assert calls + Burst(key, at, 0) == calls;
    } else {
      var before := calls + Burst(key, at, n - 1);
      BurstIsAdmitted(calls, limits, key, at, n - 1, lo, hi);
      assert calls + Burst(key, at, n) == before + [Call(key, at)];
      OneMore(before, limits, Call(key, at), lo, hi);
      OwnBucketMoves(After(before, limits), key, limits(key), at);
    }
  }

  function TwoWindows(key: string, limit: nat): seq<Call>
    requires limit > 0
  {
    [Call(key, 0)] + Burst(key, WINDOW - 1, limit - 1) + [Call(key, WINDOW)] + Burst(key, WINDOW, limit - 1)
  }

  /** The bound is reached for every limit: one call opens a window, the rest
      of the limit is used up just before the window ends, and a whole limit
      right after it. */
  lemma TwiceIsReached(limits: string -> nat, key: string)
    requires limits(key) > 0
    ensures
      var calls := TwoWindows(key, limits(key));
      Ordered(calls) && Admitted(calls, limits, key, 0, WINDOW) == 2 * limits(key)
  {
    hide Step, After, Admitted, Burst, Ordered;
    TwoWindowsAreOrdered(key, limits(key));
    var limit := limits(key);
    var c1 := [] + [Call(key, 0)];
    var c2 := c1 + Burst(key, WINDOW - 1, limit - 1);
    var c3 := c2 + [Call(key, WINDOW)];
    NothingAdmitted(limits, key, 0, WINDOW);
    OneMore([], limits, Call(key, 0), 0, WINDOW);
    FirstKeyIsAdmitted(key, limit, 0);
    OwnBucketMoves(map[], key, limit, 0);
    BurstIsAdmitted(c1, limits, key, WINDOW - 1, limit - 1, 0, WINDOW);
    OneMore(c2, limits, Call(key, WINDOW), 0, WINDOW);
    BoundsHoldAlways(c2, limits);
    ExpiredKeyIsAdmitted(After(c2, limits), key, limit, WINDOW);
    OwnBucketMoves(After(c2, limits), key, limit, WINDOW);
    BurstIsAdmitted(c3, limits, key, WINDOW, limit - 1, 0, WINDOW);
    assert c1 == [Call(key, 0)];
  }

  lemma TwoWindowsAreOrdered(key: string, limit: nat)
    requires limit > 0
    ensures Ordered(TwoWindows(key, limit))
  {
    BurstsAreUniform(key, WINDOW - 1, limit - 1);
    BurstsAreUniform(key, WINDOW, limit - 1);
    hide Burst;
  }

  lemma {:induction false} BurstsAreUniform(key: string, at: Time, n: nat)
    ensures |Burst(key, at, n)| == n && forall i :: 0 <= i < n ==> Burst(key, at, n)[i] == Call(key, at)
  {
    if n > 0 {
      BurstsAreUniform(key, at, n - 1);
    }
  }

  lemma OneMore(calls: seq<Call>, limits: string -> nat, call: Call, lo: Time, hi: Time)
    ensures
      var (after, answer) := Step(After(calls, limits), call.key, limits(call.key), call.at);
      && After(calls + [call], limits) == after
      && Admitted(calls + [call], limits, call.key, lo, hi)
         == Admitted(calls, limits, call.key, lo, hi) + if answer.Allowed? && lo <= call.at <= hi then 1 else 0
  {
    assert (calls + [call])[..|calls|] == calls;
  }

  // ------------------------------------------------------- making room

  /** The other keys with an open window. */
  function OpenOthers(table: Table, key: string, now: Time): set<string> {
    set k | k in table && k != key && Live(table[k], now)
  }

  /** A key without an open window is admitted, at any clock, if and only if
      fewer than 4096 other keys have one: a full table makes room by dropping
      what has expired. A refusal then says one second. */
  lemma RoomIsMadeExactly(table: Table, key: string, limit: int, now: Time)
    requires limit > 0 && |table| <= MAX_BUCKETS && !(key in table && Live(table[key], now))
    ensures
      var answer := Step(table, key, limit, now).1;
      answer == if |OpenOthers(table, key, now)| < MAX_BUCKETS then Allowed else Denied(1)
  {
    var others := table - {key};
    assert others.Keys == table.Keys - {key} && |others.Keys| == |others| && |table.Keys| == |table|;
    assert Swept(others, now).Keys == OpenOthers(table, key, now);
    assert |Swept(others, now).Keys| == |Swept(others, now)|;
    SubsetIsSmaller(OpenOthers(table, key, now), others.Keys);
    SubsetIsSmaller(others.Keys, table.Keys);
  }

  /** What may become of another key's bucket: it stays; or, if the table is
      full, its window is moved from the future to the present with its count,
      or it is dropped because it has expired. */
  predicate StaysOrSwept(before: Table, after: Table, other: string, full: bool, now: Time) {
    if other in after then
      && other in before && after[other].used == before[other].used
      && (after[other].start == before[other].start
          || (full && now < before[other].start && after[other].start == now))
    else other in before ==> full && now - before[other].start >= WINDOW
  }

  lemma ColdStepSweeps(others: Table, key: string, limit: int, now: Time, other: string)
    requires other != key
    ensures StaysOrSwept(others, ColdStep(others, key, limit, now).0, other, |others| >= MAX_BUCKETS, now)
  {
    hide RetrySeconds;
    var room := if |others| >= MAX_BUCKETS then Swept(others, now) else others;
    assert StaysOrSwept(others, room, other, |others| >= MAX_BUCKETS, now);
    hide Swept;
  }

  /** This is all that a call does to another key's bucket, at any clock. */
  lemma OthersAtAnyClock(table: Table, key: string, limit: int, now: Time, other: string)
    requires other != key
    ensures StaysOrSwept(table, Step(table, key, limit, now).0, other, |table| >= MAX_BUCKETS, now)
  {
    hide RetrySeconds, ColdStep;
    if !(key in table && Live(table[key], now)) {
      ColdStepSweeps(table - {key}, key, limit, now, other);
      SubsetIsSmaller((table - {key}).Keys, table.Keys);
      assert |(table - {key}).Keys| == |table - {key}| && |table.Keys| == |table|;
    }
  }

  /** A call that finds its window open is admitted if and only if its bucket is
      not full, and is counted in it. */
  lemma OpenWindowsCount(table: Table, key: string, limit: int, now: Time)
    requires key in table && Live(table[key], now)
    ensures
      var (after, answer) := Step(table, key, limit, now);
      && key in after && after[key].start == (if now < table[key].start then now else table[key].start)
      && (answer == Allowed <==> table[key].used < limit)
      && after[key].used == table[key].used + if answer == Allowed then 1 else 0
  {
  }

  // ------------------------------------------------------------- retrying

  /** Other keys' later calls leave a bucket as it is or sweep it away. */
  lemma {:induction false} BucketStays(calls: seq<Call>, more: seq<Call>, limits: string -> nat, key: string)
    requires forall i :: 0 <= i < |more| ==> more[i].key != key
    requires key in After(calls, limits) ==>
      forall i :: 0 <= i < |more| ==> After(calls, limits)[key].start <= more[i].at
    ensures key in After(calls + more, limits) ==>
      key in After(calls, limits) && After(calls + more, limits)[key] == After(calls, limits)[key]
  {
    hide Step, After, Admitted;
    if more == [] {
      assert calls + more == calls;
    } else {
      var rest, last := more[..|more| - 1], more[|more| - 1];
      BucketStays(calls, rest, limits, key);
      assert calls + more == (calls + rest) + [last];
      OneMore(calls + rest, limits, last, 0, 0);
      OthersAreLeftAlone(After(calls + rest, limits), last.key, limits(last.key), last.at, key);
    }
  }

  /** A request denied for its limit leaves a full bucket with an open window,
      from which the advertised time is counted, also if the clock has just
      gone back. A key that is refused because the table is full has no bucket. */
  lemma DeniedForLimit(table: Table, key: string, limit: nat, now: Time)
    requires limit > 0 && Step(table, key, limit, now).1.Denied? && key in Step(table, key, limit, now).0
    ensures
      var (after, answer) := Step(table, key, limit, now);
      && after[key].start <= now && after[key].used >= limit && Live(after[key], now)
      && answer.retryAfter == RetrySeconds(after[key], now)
  {
  }

  /** A request denied for its limit, at any clock, and repeated no sooner than
      it was told is admitted if its bucket is still in the table; the clock
      does not go back after the denial. */
  lemma RetryAfterIsHonoured(
      calls: seq<Call>, more: seq<Call>, limits: string -> nat, key: string, now: Time, at: Time)
    requires limits(key) > 0
    requires Step(After(calls, limits), key, limits(key), now).1.Denied?
    requires key in After(calls + [Call(key, now)], limits)
    requires forall i :: 0 <= i < |more| ==> more[i].key != key && now <= more[i].at
    requires at >= now + Step(After(calls, limits), key, limits(key), now).1.retryAfter * SECOND
    ensures key in After(calls + [Call(key, now)] + more, limits) ==>
      Step(After(calls + [Call(key, now)] + more, limits), key, limits(key), at).1 == Allowed
  {
    hide Step, After, Admitted, RetrySeconds;
    var denied := calls + [Call(key, now)];
    OneMore(calls, limits, Call(key, now), 0, 0);
    DeniedForLimit(After(calls, limits), key, limits(key), now);
    BucketStays(denied, more, limits, key);
    BoundsHoldAlways(denied + more, limits);
    if key in After(denied + more, limits) {
      WaitCoversWindow(After(denied, limits)[key], now, at);
      ExpiredKeyIsAdmitted(After(denied + more, limits), key, limits(key), at);
    }
  }

  lemma WaitCoversWindow(bucket: Bucket, now: Time, at: Time)
    requires at >= now + RetrySeconds(bucket, now) * SECOND
    ensures !Live(bucket, at)
  {
  }

  /** No shorter wait in whole seconds would do. */
  lemma WaitIsShortest(bucket: Bucket, now: Time, seconds: int)
    requires bucket.start <= now && 1 <= seconds < RetrySeconds(bucket, now)
    ensures Live(bucket, now + seconds * SECOND)
  {
  }

  /** Setting the clock back gives no key its quota again. */
  lemma ClockSetBackRestoresNothing(table: Table, key: string, limit: int, now: Time)
    requires key in table && now < table[key].start
    ensures
      var (after, answer) := Step(table, key, limit, now);
      && key in after && after[key].start == now
      && after[key].used == table[key].used + (if answer == Allowed then 1 else 0)
      && (answer == Allowed <==> table[key].used < limit)
  {
  }
}
