/** The session-start quota and the five-second gate of every concurrency bucket. */
module IdentifyCoordinator {
  import opened Prelude
  import opened Clocks
  import opened SlidingWindow

  const GATE: int := 5_000_000_000

  datatype Limit = Limit(total: int, remaining: int, resetAfter: int, maxConcurrency: int)

  datatype Error = InvalidLimit | InvalidShard | ContextEnded | QuotaExhausted(total: int, retryAfter: int)

  datatype Coordinator = Coordinator(
    total: int,
    remaining: int,
    resetWindow: int,
    resetAt: int,
    maxConcurrency: int,
    bucketReadyAt: map<int, int>)

  datatype Outcome = Granted | Exhausted(retryAfter: int) | WaitFor(delay: int)

  datatype Snapshot = Snapshot(total: int, remaining: int, resetAfter: int, resetAt: int, maxConcurrency: int)

  predicate ValidLimit(limit: Limit)
  {
    limit.total > 0 && 0 <= limit.remaining <= limit.total && limit.resetAfter > 0 && limit.maxConcurrency > 0
  }

  function Create(limit: Limit, now: int): Coordinator
  {
    var window := limit.resetAfter * MILLISECOND;
    Coordinator(limit.total, limit.remaining, window, now + window, limit.maxConcurrency, map[])
  }

  function ResetQuota(c: Coordinator, now: int): Coordinator
  {
    if now < c.resetAt then c else c.(remaining := c.total, resetAt := now + c.resetWindow)
  }

  /** One pass of Acquire's loop under the lock. */
  function Attempt(c: Coordinator, now: int, shardID: nat): (Coordinator, Outcome)
    requires c.maxConcurrency > 0
  {
    var q := ResetQuota(c, now);
    var bucket := shardID % c.maxConcurrency;
    if q.remaining == 0 then (q, Exhausted(Max0(q.resetAt - now)))
    else if bucket in q.bucketReadyAt && now < q.bucketReadyAt[bucket] then (q, WaitFor(q.bucketReadyAt[bucket] - now))
    else (q.(remaining := q.remaining - 1, bucketReadyAt := q.bucketReadyAt[bucket := now + GATE]), Granted)
  }

  function Refresh(c: Coordinator, limit: Limit, now: int): Coordinator
  {
    var created := Create(limit, now);
    if c.maxConcurrency != limit.maxConcurrency then created else created.(bucketReadyAt := c.bucketReadyAt)
  }

  class IdentifyCoordinator {
    var total: int
    var remaining: int
    var resetWindow: int
    var resetAt: int
    var maxConcurrency: int
    var bucketReadyAt: map<int, int>
    const clock: Clock

    ghost function View(): Coordinator
      reads this
    {
      Coordinator(total, remaining, resetWindow, resetAt, maxConcurrency, bucketReadyAt)
    }

    constructor (limit: Limit, clock: Clock)
      requires ValidLimit(limit)
      ensures View() == Create(limit, clock.now) && this.clock == clock
      ensures total == limit.total && remaining == limit.remaining && maxConcurrency == limit.maxConcurrency
      ensures resetAt == clock.now + limit.resetAfter * MILLISECOND && bucketReadyAt == map[]
    {
      this.clock := clock;
      total := limit.total;
      remaining := limit.remaining;
      resetWindow := limit.resetAfter * MILLISECOND;
      resetAt := clock.now + limit.resetAfter * MILLISECOND;
      maxConcurrency := limit.maxConcurrency;
      bucketReadyAt := map[];
    }

    method ResetQuotaLocked(now: int)
      modifies this`remaining, this`resetAt
      ensures View() == ResetQuota(old(View()), now)
    {
      if now < resetAt {
        return;
      }
      remaining := total;
      resetAt := now + resetWindow;
    }

    method AcquireLocked(now: int, shardID: nat) returns (r: Outcome)
      requires maxConcurrency > 0
      modifies this`remaining, this`resetAt, this`bucketReadyAt
      ensures (View(), r) == Attempt(old(View()), now, shardID)
    {
      ResetQuotaLocked(now);
      if remaining == 0 {
        var retryAfter := resetAt - now;
        if retryAfter < 0 {
          retryAfter := 0;
        }
        return Exhausted(retryAfter);
      }
      var bucket := shardID % maxConcurrency;
      if bucket in bucketReadyAt && now < bucketReadyAt[bucket] {
        return WaitFor(bucketReadyAt[bucket] - now);
      }
      remaining := remaining - 1;
      bucketReadyAt := bucketReadyAt[bucket := now + GATE];
      return Granted;
    }

    /** A single caller needs at most two passes: waiting the announced delay opens the gate. */
    method Acquire(shardID: int) returns (r: Result<int, Error>)
      requires maxConcurrency > 0
      modifies this`remaining, this`resetAt, this`bucketReadyAt, clock
      ensures shardID < 0 ==> r == Err(InvalidShard) && View() == old(View())
      ensures r.Err? && r.error.QuotaExhausted? ==> remaining == 0 && r.error.total == total
      ensures r.Ok? ==> shardID >= 0 && old(clock.now) <= r.value <= clock.now
      ensures r.Ok? ==> bucketReadyAt == old(bucketReadyAt)[shardID % maxConcurrency := r.value + GATE]
      ensures r.Ok? && shardID % maxConcurrency in old(bucketReadyAt) ==>
                old(bucketReadyAt)[shardID % maxConcurrency] <= r.value
      ensures r.Ok? ==> remaining == (if r.value < old(resetAt) then old(remaining) else total) - 1
      ensures r.Err? ==> bucketReadyAt == old(bucketReadyAt)
      ensures r.Err? && shardID >= 0 ==>
                clock.interrupted || (r.error.QuotaExhausted? && r.error.retryAfter == Max0(resetAt - clock.now))
    {
      if shardID < 0 {
        return Err(InvalidShard);
      }
      var bucket := shardID % maxConcurrency;
      ghost var waited := false;
      while true
        invariant clock.now >= old(clock.now) && bucketReadyAt == old(bucketReadyAt)
        invariant if clock.now < old(resetAt) then remaining == old(remaining) && resetAt == old(resetAt)
                  else (remaining == total || (remaining == old(remaining) && resetAt == old(resetAt)))
        invariant waited ==> bucket in bucketReadyAt && bucketReadyAt[bucket] <= clock.now
        decreases !waited
      {
        var ended := clock.Ended();
        if ended {
          return Err(Error.ContextEnded);
        }
        var now := clock.Now();
        var outcome := AcquireLocked(now, shardID);
        match outcome
        case Granted =>
          return Ok(now);
        case Exhausted(retryAfter) =>
          return Err(QuotaExhausted(total, retryAfter));
        case WaitFor(delay) =>
          var ok := clock.Wait(delay);
          if !ok {
            return Err(Error.ContextEnded);
          }
          waited := true;
      }
    }

    /** The snapshot, after a quota period that is over has been restarted. */
    method Status() returns (status: Snapshot)
      modifies this`remaining, this`resetAt, clock
      ensures clock.now >= old(clock.now) && View() == ResetQuota(old(View()), clock.now)
      ensures status.total == total && status.remaining == remaining && status.maxConcurrency == maxConcurrency
      ensures status.resetAt == resetAt && status.resetAfter == Max0(resetAt - clock.now)
    {
      var now := clock.Now();
      ResetQuotaLocked(now);
      var resetAfter := resetAt - now;
      if resetAfter < 0 {
        resetAfter := 0;
      }
      return Snapshot(total, remaining, resetAfter, resetAt, maxConcurrency);
    }

    method RefreshQuota(limit: Limit) returns (ok: bool)
      modifies this, clock
      ensures ok == (limit.total > 0 && 0 <= limit.remaining <= limit.total && limit.resetAfter > 0
                     && limit.maxConcurrency > 0)
      ensures !ok ==> View() == old(View())
      ensures ok ==> View() == Refresh(old(View()), limit, clock.now)
      ensures ok ==> total == limit.total && remaining == limit.remaining && maxConcurrency == limit.maxConcurrency
      ensures ok ==> resetAt == clock.now + limit.resetAfter * MILLISECOND
      ensures ok ==> bucketReadyAt == if old(maxConcurrency) == limit.maxConcurrency then old(bucketReadyAt) else map[]
    {
      if !ValidLimit(limit) {
        return false;
      }
      if maxConcurrency != limit.maxConcurrency {
        bucketReadyAt := map[];
      }
      total := limit.total;
      remaining := limit.remaining;
      resetWindow := limit.resetAfter * MILLISECOND;
      var now := clock.Now();
      resetAt := now + resetWindow;
      maxConcurrency := limit.maxConcurrency;
      return true;
    }
  }

  // ---- runs

  /** A grant: when, to which bucket, and how many quota periods had begun before. */
  datatype Grant = Grant(time: int, bucket: int, period: nat)

  /** The coordinator after a run, with its history: the grants, the current quota period and
      when that period began. */
  datatype Run = Run(c: Coordinator, grants: seq<Grant>, period: nat, started: int, now: int)

  /** Any callers' calls in the order they hold the lock, where the clock is read. */
  datatype Call = Acquiring(now: int, shardID: nat) | Asking(now: int) | Refreshing(now: int, limit: Limit)

  function Begin(limit: Limit, now: int): Run
  {
    Run(Create(limit, now), [], 0, now, now)
  }

  /** The run once a call has restarted the quota if its period is over. */
  function AfterReset(r: Run, now: int): Run
  {
    var reset := now >= r.c.resetAt;
    Run(ResetQuota(r.c, now), r.grants, if reset then r.period + 1 else r.period, if reset then now else r.started, now)
  }

  function Next(r: Run, call: Call): Run
    requires r.c.maxConcurrency > 0
  {
    match call
    case Acquiring(now, shardID) =>
      var q := AfterReset(r, now);
      var (c, outcome) := Attempt(r.c, now, shardID);
      var grant := Grant(now, shardID % r.c.maxConcurrency, q.period);
      q.(c := c, grants := if outcome == Granted then r.grants + [grant] else r.grants)
    case Asking(now) => AfterReset(r, now)
    case Refreshing(now, limit) =>
      if ValidLimit(limit) then Run(Refresh(r.c, limit, now), r.grants, r.period + 1, now, now) else r.(now := now)
  }

  ghost predicate Ordered(start: int, calls: seq<Call>)
  {
    && (forall i :: 0 <= i < |calls| ==> start <= calls[i].now)
    && (forall i, j :: 0 <= i < j < |calls| ==> calls[i].now <= calls[j].now)
  }

  function After(limit: Limit, start: int, calls: seq<Call>): (r: Run)
    requires ValidLimit(limit)
    ensures r.c.maxConcurrency > 0
  {
    if calls == [] then Begin(limit, start)
    else Next(After(limit, start, calls[..|calls| - 1]), calls[|calls| - 1])
  }

  ghost predicate NoRefresh(calls: seq<Call>)
  {
    forall i :: 0 <= i < |calls| ==> !calls[i].Refreshing?
  }

  /** Every refresh that is accepted keeps the concurrency. */
  ghost predicate KeepsConcurrency(calls: seq<Call>, maxConcurrency: int)
  {
    forall i :: 0 <= i < |calls| && calls[i].Refreshing? && ValidLimit(calls[i].limit) ==>
      calls[i].limit.maxConcurrency == maxConcurrency
  }

  function Times(grants: seq<Grant>): seq<int>
  {
    seq(|grants|, i requires 0 <= i < |grants| => grants[i].time)
  }

  /** The quota never leaves its range, and each period grants at most the total. */
  ghost predicate QuotaKept(r: Run, limit: Limit)
  {
    && r.c.total == limit.total && 0 <= r.c.remaining <= r.c.total
    && (forall i :: 0 <= i < |r.grants| ==> r.grants[i].period <= r.period)
    && (forall i :: 0 <= i < |r.grants| - (r.c.total - r.c.remaining) ==> r.grants[i].period < r.period)
    && (forall i, j :: 0 <= i < |r.grants| && j == i + r.c.total < |r.grants| ==>
          r.grants[i].period < r.grants[j].period)
  }

  /** Periods start at least a reset window apart, and grants lie in their periods. */
  ghost predicate PeriodsApart(r: Run, limit: Limit)
  {
    && r.c.resetWindow == limit.resetAfter * MILLISECOND && r.c.resetAt == r.started + r.c.resetWindow
    && r.started <= r.now
    && (forall i :: 0 <= i < |r.grants| && r.grants[i].period < r.period ==> r.grants[i].time <= r.started)
    && (forall i :: 0 <= i < |r.grants| && r.grants[i].period + 1 < r.period ==>
         r.grants[i].time + r.c.resetWindow <= r.started)
    && (forall i, j :: 0 <= i < j < |r.grants| && r.grants[i].period + 2 <= r.grants[j].period ==>
         r.grants[i].time + r.c.resetWindow <= r.grants[j].time)
  }

  /** Grants in one bucket are at least the gate apart. */
  ghost predicate GatesKept(r: Run, maxConcurrency: int)
  {
    && r.c.maxConcurrency == maxConcurrency
    && (forall i :: 0 <= i < |r.grants| ==> 0 <= r.grants[i].bucket < maxConcurrency)
    && (forall i :: 0 <= i < |r.grants| ==>
         r.grants[i].bucket in r.c.bucketReadyAt && r.grants[i].time + GATE <= r.c.bucketReadyAt[r.grants[i].bucket])
    && (forall i, j :: 0 <= i < j < |r.grants| && r.grants[i].bucket == r.grants[j].bucket ==>
         r.grants[i].time + GATE <= r.grants[j].time)
  }

  ghost predicate TimesKept(r: Run)
  {
    && (forall i :: 0 <= i < |r.grants| ==> r.grants[i].time <= r.now)
    && (forall i, j :: 0 <= i < j < |r.grants| ==> r.grants[i].time <= r.grants[j].time)
  }

  lemma NextKeepsQuota(r: Run, limit: Limit, call: Call)
    requires ValidLimit(limit) && QuotaKept(r, limit) && r.c.maxConcurrency > 0 && !call.Refreshing?
    ensures QuotaKept(Next(r, call), limit)
  {
  }

  lemma ResetKeepsPeriods(r: Run, limit: Limit, now: int)
    requires ValidLimit(limit) && PeriodsApart(r, limit) && TimesKept(r) && r.now <= now
    requires forall i :: 0 <= i < |r.grants| ==> r.grants[i].period <= r.period
    ensures PeriodsApart(AfterReset(r, now), limit)
    ensures forall i :: 0 <= i < |r.grants| ==> r.grants[i].period <= AfterReset(r, now).period
  {
  }

  lemma NextKeepsPeriods(r: Run, limit: Limit, call: Call)
    requires ValidLimit(limit) && QuotaKept(r, limit) && PeriodsApart(r, limit) && TimesKept(r)
    requires r.now <= call.now && r.c.maxConcurrency > 0 && !call.Refreshing?
    ensures PeriodsApart(Next(r, call), limit)
  {
    ResetKeepsPeriods(r, limit, call.now);
    var q, next := AfterReset(r, call.now), Next(r, call);
    assert next.period == q.period && next.started == q.started && next.c.resetAt == q.c.resetAt;
    if call.Acquiring? && next.grants != q.grants {
      assert next.grants == q.grants + [Grant(call.now, call.shardID % r.c.maxConcurrency, q.period)];
    }
  }

  lemma NextKeepsGates(r: Run, call: Call)
    requires r.c.maxConcurrency > 0 && GatesKept(r, r.c.maxConcurrency) && TimesKept(r) && r.now <= call.now
    requires KeepsConcurrency([call], r.c.maxConcurrency)
    ensures GatesKept(Next(r, call), r.c.maxConcurrency)
  {
    var n, next := |r.grants|, Next(r, call);
    assert [call][0] == call;
    if |next.grants| > n {
      var bucket := call.shardID % r.c.maxConcurrency;
      assert next.c.bucketReadyAt == r.c.bucketReadyAt[bucket := call.now + GATE];
      forall i | 0 <= i < n && r.grants[i].bucket == bucket ensures r.grants[i].time + GATE <= call.now {
        assert r.grants[i].time + GATE <= r.c.bucketReadyAt[bucket];
      }
    }
  }

  lemma NextKeepsTimes(r: Run, call: Call)
    requires r.c.maxConcurrency > 0 && TimesKept(r) && r.now <= call.now
    ensures TimesKept(Next(r, call)) && Next(r, call).now == call.now
  {
  }

  function LastTime(start: int, calls: seq<Call>): int
  {
    if calls == [] then start else calls[|calls| - 1].now
  }

  lemma {:induction false} EveryRunKeepsTimes(limit: Limit, start: int, calls: seq<Call>)
    requires ValidLimit(limit) && Ordered(start, calls)
    ensures TimesKept(After(limit, start, calls)) && After(limit, start, calls).now == LastTime(start, calls)
  {
    if calls != [] {
      EveryRunKeepsTimes(limit, start, calls[..|calls| - 1]);
      NextKeepsTimes(After(limit, start, calls[..|calls| - 1]), calls[|calls| - 1]);
    }
  }

  /** Over every run without a refresh the quota is kept and periods are apart. */
  lemma {:induction false} EveryRunKeepsQuota(limit: Limit, start: int, calls: seq<Call>)
    requires ValidLimit(limit) && Ordered(start, calls) && NoRefresh(calls)
    ensures QuotaKept(After(limit, start, calls), limit) && PeriodsApart(After(limit, start, calls), limit)
  {
    if calls != [] {
      var before, call := calls[..|calls| - 1], calls[|calls| - 1];
      EveryRunKeepsQuota(limit, start, before);
      EveryRunKeepsTimes(limit, start, before);
      NextKeepsQuota(After(limit, start, before), limit, call);
      NextKeepsPeriods(After(limit, start, before), limit, call);
    }
  }

  /** Over every run whose refreshes keep the concurrency the gates are kept. */
  lemma {:induction false} EveryRunKeepsGates(limit: Limit, start: int, calls: seq<Call>)
    requires ValidLimit(limit) && Ordered(start, calls) && KeepsConcurrency(calls, limit.maxConcurrency)
    ensures GatesKept(After(limit, start, calls), limit.maxConcurrency)
  {
    if calls != [] {
      var before, call := calls[..|calls| - 1], calls[|calls| - 1];
      EveryRunKeepsGates(limit, start, before);
      EveryRunKeepsTimes(limit, start, before);
      assert [call][0] == call;
      NextKeepsGates(After(limit, start, before), call);
    }
  }

  /** The remaining quota stays between zero and the total, over every run, refreshed or not. */
  lemma {:induction false} RemainingInRange(limit: Limit, start: int, calls: seq<Call>)
    requires ValidLimit(limit)
    ensures 0 <= After(limit, start, calls).c.remaining <= After(limit, start, calls).c.total
  {
    if calls != [] { RemainingInRange(limit, start, calls[..|calls| - 1]); }
  }

  /** No half-open interval of the reset window's length holds more than twice the total. */
  lemma NoWindowOverTwiceTotal(limit: Limit, start: int, calls: seq<Call>, lo: int)
    requires ValidLimit(limit) && Ordered(start, calls) && NoRefresh(calls)
    ensures var ts := Times(After(limit, start, calls).grants); var w := limit.resetAfter * MILLISECOND;
            CountIn(ts, lo, lo + w) <= 2 * limit.total
  {
    EveryRunKeepsQuota(limit, start, calls);
    EveryRunKeepsTimes(limit, start, calls);
    var r := After(limit, start, calls);
    var ts := Times(r.grants);
    SpacedByPeriods(r, limit);
    SpacedIffBounded(ts, 2 * limit.total, r.c.resetWindow);
    assert CountFrom(ts, lo, r.c.resetWindow) <= 2 * limit.total;
  }

  /** Among one grant more than there are buckets, two share a bucket. */
  lemma SomeBucketTwice(r: Run, m: nat, i: nat)
    requires m > 0 && GatesKept(r, m) && TimesKept(r) && i + m < |r.grants|
    ensures r.grants[i].time + GATE <= r.grants[i + m].time
  {
    var window := seq(m + 1, k requires 0 <= k < m + 1 => r.grants[i + k].bucket);
    var a, b := Pigeonhole(window, m);
    var first, second := i + a, i + b;
    assert r.grants[first].bucket == r.grants[second].bucket;
    assert r.grants[first].time + GATE <= r.grants[second].time;
  }

  /** No half-open five seconds hold more grants than there are buckets, as long as no refresh
      changes their number. */
  lemma NoGateOverConcurrency(limit: Limit, start: int, calls: seq<Call>, lo: int)
    requires ValidLimit(limit) && Ordered(start, calls) && KeepsConcurrency(calls, limit.maxConcurrency)
    ensures CountIn(Times(After(limit, start, calls).grants), lo, lo + 5_000_000_000) <= limit.maxConcurrency
  {
    EveryRunKeepsGates(limit, start, calls);
    EveryRunKeepsTimes(limit, start, calls);
    var r := After(limit, start, calls);
    var ts := Times(r.grants);
    SpacedByGate(r, limit.maxConcurrency);
    SpacedIffBounded(ts, limit.maxConcurrency, GATE);
    assert CountFrom(ts, lo, GATE) <= limit.maxConcurrency;
  }

  lemma SpacedByGate(r: Run, m: nat)
    requires m > 0 && GatesKept(r, m) && TimesKept(r)
    ensures Sorted(Times(r.grants)) && Spaced(Times(r.grants), m, GATE)
  {
    forall i, j | 0 <= i < |r.grants| && j == i + m < |r.grants|
      ensures r.grants[i].time + GATE <= r.grants[j].time
    {
      SomeBucketTwice(r, m, i);
    }
  }

  lemma SpacedByPeriods(r: Run, limit: Limit)
    requires ValidLimit(limit) && QuotaKept(r, limit) && PeriodsApart(r, limit) && TimesKept(r)
    ensures Sorted(Times(r.grants)) && Spaced(Times(r.grants), 2 * limit.total, r.c.resetWindow)
  {
    forall i, j | 0 <= i < |r.grants| && j == i + 2 * limit.total < |r.grants|
      ensures r.grants[i].time + r.c.resetWindow <= r.grants[j].time
    {
      assert r.grants[i].period < r.grants[i + limit.total].period < r.grants[j].period;
    }
  }

  /** More values than holes share a hole. */
  lemma {:induction false} Pigeonhole(s: seq<int>, holes: nat) returns (a: nat, b: nat)
    requires |s| > holes && forall i :: 0 <= i < |s| ==> 0 <= s[i] < holes
    ensures a < b < |s| && s[a] == s[b]
  {
    assert 0 <= s[0] < holes;
    var top: nat := holes - 1;
    if i, j :| 0 <= i < j < |s| && s[i] == s[j] == top {
      a, b := i, j;
    } else if i :| 0 <= i < |s| && s[i] == top {
      var rest := s[..i] + s[i + 1..];
      var c, d := Pigeonhole(rest, top);
      a, b := if c < i then c else c + 1, if d < i then d else d + 1;
    } else {
      a, b := Pigeonhole(s, top);
    }
  }

  predicate HasQuota(c: Coordinator, now: int)
  {
    if now < c.resetAt then c.remaining != 0 else c.total != 0
  }

  predicate GateOpen(c: Coordinator, now: int, bucket: int)
  {
    bucket in c.bucketReadyAt ==> c.bucketReadyAt[bucket] <= now
  }

  /** A pass is granted exactly if there is quota, from this period or one that begins now, and the gate
      of the shard's bucket is open; it is told the quota is exhausted exactly if there is none. It
      takes one unit and shuts that gate only, and takes nothing if it is not granted. */
  lemma GrantsExactly(c: Coordinator, now: int, shardID: nat, other: int)
    requires c.maxConcurrency > 0 && other != shardID % c.maxConcurrency
    ensures var (q, outcome) := Attempt(c, now, shardID); var bucket := shardID % c.maxConcurrency;
            var quota := if now < c.resetAt then c.remaining else c.total;
            && (outcome.Exhausted? <==> !HasQuota(c, now))
            && (outcome == Granted <==> HasQuota(c, now) && GateOpen(c, now, bucket))
            && (outcome == Granted ==> q.remaining == quota - 1 && !GateOpen(q, now + GATE - 1, bucket)
                                       && GateOpen(q, now + GATE, bucket))
            && (outcome != Granted ==> q.remaining == quota && q.bucketReadyAt == c.bucketReadyAt)
            && forall t :: GateOpen(q, t, other) <==> GateOpen(c, t, other)
  {
  }

  /** The wait announced when the quota is exhausted is exact as well. */
  lemma QuotaReturnsExactly(c: Coordinator, now: int, shardID: nat, later: int)
    requires c.maxConcurrency > 0 && c.total > 0 && Attempt(c, now, shardID).1.Exhausted? && now <= later
    ensures var q := Attempt(c, now, shardID).0; var retryAfter := Attempt(c, now, shardID).1.retryAfter;
            retryAfter > 0 && (Attempt(q, later, shardID).1.Exhausted? <==> later < now + retryAfter)
  {
  }

  /** The announced delay is exact: before it has passed the bucket's gate stays shut, and once it
      has, with nobody in between, the caller is not made to wait again. */
  lemma DelayIsExact(c: Coordinator, now: int, shardID: nat, later: int)
    requires c.maxConcurrency > 0 && Attempt(c, now, shardID).1.WaitFor? && now <= later
    ensures var q := Attempt(c, now, shardID).0; var delay := Attempt(c, now, shardID).1.delay;
            && delay > 0
            && (later < now + delay ==> Attempt(q, later, shardID).1 != Granted)
            && (later >= now + delay ==> !Attempt(q, later, shardID).1.WaitFor?)
  {
  }
}
