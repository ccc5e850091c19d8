/** The fixed-window command cooldown with its lazy sweep of expired buckets. */
module Cooldown {
  import opened Prelude
  import opened SlidingWindow

  datatype Bucket = Bucket(started: int, uses: int)

  datatype Config = Config(limit: int, period: int)

  /** NewCooldown accepts positive values only. */
  predicate Valid(config: Config)
  {
    config.limit > 0 && config.period > 0
  }

  datatype Answer = Accepted | Rejected(retryAfter: int)

  /** `lastSweep` is None until the first check. */
  datatype State = State(buckets: map<string, Bucket>, lastSweep: Option<int>)

  const CREATED := State(map[], None)

  predicate Expired(config: Config, b: Bucket, now: int)
  {
    now - b.started >= config.period
  }

  function Live(config: Config, buckets: map<string, Bucket>, now: int): map<string, Bucket>
  {
    map k | k in buckets && !Expired(config, buckets[k], now) :: buckets[k]
  }

  function Sweep(config: Config, s: State, now: int): State
  {
    if s.lastSweep.None? || now - s.lastSweep.value >= config.period
    then State(Live(config, s.buckets, now), Some(now))
    else s
  }

  /** The check without a sweep: opens a window, counts a use, or rejects. */
  function Use(config: Config, buckets: map<string, Bucket>, key: string, now: int): (map<string, Bucket>, Answer)
  {
    if key !in buckets || Expired(config, buckets[key], now) then (buckets[key := Bucket(now, 1)], Accepted)
    else if buckets[key].uses >= config.limit then (buckets, Rejected(config.period - (now - buckets[key].started)))
    else (buckets[key := buckets[key].(uses := buckets[key].uses + 1)], Accepted)
  }

  function CheckStep(config: Config, s: State, key: string, now: int): (State, Answer)
  {
    var swept := Sweep(config, s, now);
    var (buckets, answer) := Use(config, swept.buckets, key, now);
    (swept.(buckets := buckets), answer)
  }

  class Cooldown {
    const config: Config
    var buckets: map<string, Bucket>
    var lastSweep: Option<int>

    ghost function View(): State
      reads this
    {
      State(buckets, lastSweep)
    }

    constructor (config: Config)
      requires Valid(config)
      ensures View() == CREATED && this.config == config
    {
      this.config := config;
      buckets := map[];
      lastSweep := None;
    }

    method Check(key: string, now: int) returns (answer: Answer)
      modifies this
      ensures (View(), answer) == CheckStep(config, old(View()), key, now)
    {
      if lastSweep.None? || now - lastSweep.value >= config.period {
        var rest := buckets.Keys;
        while rest != {}
          invariant rest <= buckets.Keys <= old(buckets).Keys
          invariant forall k :: k in buckets ==> buckets[k] == old(buckets)[k]
          invariant forall k :: k in buckets && k !in rest ==> !Expired(config, buckets[k], now)
          invariant forall k :: k in old(buckets) && k !in buckets ==> Expired(config, old(buckets)[k], now)
          decreases |rest|
        {
          var bucketKey :| bucketKey in rest;
          if now - buckets[bucketKey].started >= config.period {
            buckets := buckets - {bucketKey};
          }
          rest := rest - {bucketKey};
        }
        assert buckets == Live(config, old(buckets), now);
        lastSweep := Some(now);
      }
      if key !in buckets || now - buckets[key].started >= config.period {
        buckets := buckets[key := Bucket(now, 1)];
        return Accepted;
      }
      var bucket := buckets[key];
      if bucket.uses >= config.limit {
        return Rejected(config.period - (now - bucket.started));
      }
      buckets := buckets[key := bucket.(uses := bucket.uses + 1)];
      return Accepted;
    }

    method Reset(key: string)
      modifies this`buckets
      ensures buckets == old(buckets) - {key}
    {
      buckets := buckets - {key};
    }

    method ResetAll()
      modifies this`buckets
      ensures buckets == map[]
    {
      buckets := map[];
    }
  }

  // ---- runs without resets

  datatype Call = Call(key: string, now: int)

  /** The state after the first n calls of a run from s. */
  function Run(config: Config, s: State, calls: seq<Call>, n: nat): State
    requires n <= |calls|
  {
    if n == 0 then s else CheckStep(config, Run(config, s, calls, n - 1), calls[n - 1].key, calls[n - 1].now).0
  }

  /** What call i of a run from the first check on is answered. */
  function AnswerAt(config: Config, calls: seq<Call>, i: nat): Answer
    requires i < |calls|
  {
    CheckStep(config, Run(config, CREATED, calls, i), calls[i].key, calls[i].now).1
  }

  /** The buckets of a version that never sweeps. */
  function PlainRun(config: Config, calls: seq<Call>, n: nat): map<string, Bucket>
    requires n <= |calls|
  {
    if n == 0 then map[] else Use(config, PlainRun(config, calls, n - 1), calls[n - 1].key, calls[n - 1].now).0
  }

  function PlainAnswerAt(config: Config, calls: seq<Call>, i: nat): Answer
    requires i < |calls|
  {
    Use(config, PlainRun(config, calls, i), calls[i].key, calls[i].now).1
  }

  ghost predicate SameAnswers(config: Config, calls: seq<Call>)
  {
    forall i: nat :: i < |calls| ==> AnswerAt(config, calls, i) == PlainAnswerAt(config, calls, i)
  }

  // ---- when sweeping is invisible

  /** When the first n calls swept last; that depends on their times only. */
  function LastSweep(period: int, calls: seq<Call>, n: nat): Option<int>
    requires n <= |calls|
    decreases n, 0
  {
    if n == 0 then None
    else if Sweeps(period, calls, n - 1) then Some(calls[n - 1].now)
    else LastSweep(period, calls, n - 1)
  }

  predicate Sweeps(period: int, calls: seq<Call>, i: nat)
    requires i < |calls|
    decreases i, 1
  {
    var last := LastSweep(period, calls, i);
    last.None? || calls[i].now - last.value >= period
  }

  predicate Past(period: int, calls: seq<Call>, a: nat, i: nat)
    requires a < |calls| && i < |calls|
  {
    calls[i].now - calls[a].now >= period
  }

  /** What a sweep finds a period past stays a period past for all later calls. */
  ghost predicate Steady(period: int, calls: seq<Call>)
  {
    forall a: nat, i: nat, j: nat {:trigger Past(period, calls, a, i), Past(period, calls, a, j)} ::
      a < i < j < |calls| && Sweeps(period, calls, i) && Past(period, calls, a, i) ==> Past(period, calls, a, j)
  }

  lemma {:induction false} StateHasLastSweep(config: Config, calls: seq<Call>, n: nat)
    requires n <= |calls|
    ensures Run(config, CREATED, calls, n).lastSweep == LastSweep(config.period, calls, n)
  {
    if n > 0 {
      hide Use, Live;
      StateHasLastSweep(config, calls, n - 1);
    }
  }

  /** A time of one of the first n calls. */
  ghost predicate Began(calls: seq<Call>, n: nat, t: int)
    requires n <= |calls|
  {
    exists a: nat :: a < n && calls[a].now == t
  }

  /** A whole period before every call from n on. */
  ghost predicate LongPast(period: int, calls: seq<Call>, n: nat, t: int)
  {
    forall j: nat :: n <= j < |calls| ==> calls[j].now - t >= period
  }

  /** Swept buckets are the plain ones except for some that stay expired. */
  ghost predicate SweptFrom(config: Config, calls: seq<Call>, n: nat, swept: map<string, Bucket>,
                            plain: map<string, Bucket>)
    requires n <= |calls|
  {
    && (forall k :: k in swept ==> k in plain && swept[k] == plain[k])
    && (forall k :: k in plain ==> Began(calls, n, plain[k].started))
    && (forall k :: k in plain && k !in swept ==> LongPast(config.period, calls, n, plain[k].started))
  }

  lemma SweepKeeps(config: Config, calls: seq<Call>, n: nat, plain: map<string, Bucket>)
    requires n < |calls| && Steady(config.period, calls)
    requires SweptFrom(config, calls, n, Run(config, CREATED, calls, n).buckets, plain)
    ensures SweptFrom(config, calls, n, Sweep(config, Run(config, CREATED, calls, n), calls[n].now).buckets, plain)
  {
    StateHasLastSweep(config, calls, n);
    var s, t := Run(config, CREATED, calls, n), calls[n].now;
    hide Run;
    forall k | k in s.buckets && k !in Sweep(config, s, t).buckets
      ensures LongPast(config.period, calls, n, plain[k].started)
    {
      var a: nat :| a < n && calls[a].now == plain[k].started;
      assert Sweeps(config.period, calls, n) && Past(config.period, calls, a, n);
      forall j: nat | n <= j < |calls| ensures calls[j].now - plain[k].started >= config.period {
        assert Past(config.period, calls, a, j);
      }
    }
  }

  lemma UseKeeps(config: Config, calls: seq<Call>, n: nat, swept: map<string, Bucket>, plain: map<string, Bucket>)
    requires n < |calls| && SweptFrom(config, calls, n, swept, plain)
    ensures Use(config, swept, calls[n].key, calls[n].now).1 == Use(config, plain, calls[n].key, calls[n].now).1
    ensures SweptFrom(config, calls, n + 1, Use(config, swept, calls[n].key, calls[n].now).0,
                      Use(config, plain, calls[n].key, calls[n].now).0)
  {
    var key, t := calls[n].key, calls[n].now;
    if key in plain && key !in swept { assert t - plain[key].started >= config.period; }
    forall k | k in plain ensures Began(calls, n + 1, plain[k].started) {
      var a: nat :| a < n && calls[a].now == plain[k].started;
    }
    assert Began(calls, n + 1, t);
  }

  lemma {:induction false} EveryRunIsSwept(config: Config, calls: seq<Call>, n: nat)
    requires n <= |calls| && Steady(config.period, calls)
    ensures SweptFrom(config, calls, n, Run(config, CREATED, calls, n).buckets, PlainRun(config, calls, n))
  {
    if n > 0 {
      hide Steady, SweptFrom, Use, Sweep;
      EveryRunIsSwept(config, calls, n - 1);
      SweepKeeps(config, calls, n - 1, PlainRun(config, calls, n - 1));
      var swept := Sweep(config, Run(config, CREATED, calls, n - 1), calls[n - 1].now).buckets;
      UseKeeps(config, calls, n - 1, swept, PlainRun(config, calls, n - 1));
    } else {
      NothingSwept(config, calls);
    }
  }

  lemma NothingSwept(config: Config, calls: seq<Call>)
    ensures SweptFrom(config, calls, 0, CREATED.buckets, map[])
  {
  }

  /** In a steady run no answer is changed by sweeping. */
  lemma SweepIsInvisible(config: Config, calls: seq<Call>)
    requires Steady(config.period, calls)
    ensures SameAnswers(config, calls)
  {
    hide Steady, SweptFrom, Use, Sweep;
    forall i: nat | i < |calls| ensures AnswerAt(config, calls, i) == PlainAnswerAt(config, calls, i) {
      EveryRunIsSwept(config, calls, i);
      SweepKeeps(config, calls, i, PlainRun(config, calls, i));
      UseKeeps(config, calls, i, Sweep(config, Run(config, CREATED, calls, i), calls[i].now).buckets,
               PlainRun(config, calls, i));
    }
  }

  ghost predicate Ordered(calls: seq<Call>)
  {
    forall i, j :: 0 <= i < j < |calls| ==> calls[i].now <= calls[j].now
  }

  lemma OrderedIsSteady(period: int, calls: seq<Call>)
    requires Ordered(calls)
    ensures Steady(period, calls)
  {
    hide Sweeps;
  }

  ghost predicate SameTimes(calls: seq<Call>, calls': seq<Call>)
  {
    |calls'| == |calls| && forall i :: 0 <= i < |calls| ==> calls'[i].now == calls[i].now
  }

  lemma {:induction false} SameSweeps(period: int, calls: seq<Call>, calls': seq<Call>, n: nat)
    requires SameTimes(calls, calls') && n <= |calls|
    ensures LastSweep(period, calls', n) == LastSweep(period, calls, n)
    ensures n < |calls| ==> Sweeps(period, calls', n) == Sweeps(period, calls, n)
  {
    if n > 0 { SameSweeps(period, calls, calls', n - 1); }
  }

  lemma SameTimesAreSteady(period: int, calls: seq<Call>, calls': seq<Call>)
    requires SameTimes(calls, calls') && Steady(period, calls)
    ensures Steady(period, calls')
  {
    hide Sweeps;
    forall a: nat, i: nat, j: nat | a < i < j < |calls| && Sweeps(period, calls', i) && Past(period, calls', a, i)
      ensures Past(period, calls', a, j)
    {
      SameSweeps(period, calls, calls', i);
      assert Past(period, calls, a, i) && Past(period, calls, a, j);
    }
  }

  /** The calls at their times, two of them of one key and all others of another. */
  function TwoOfOneKey(calls: seq<Call>, a: nat, j: nat): seq<Call>
  {
    seq(|calls|, m requires 0 <= m < |calls| => Call(if m == a || m == j then "a" else "b", calls[m].now))
  }

  /** Without sweeping the window opened by call a is still there for call j. */
  lemma {:induction false} PlainKeepsWindow(period: int, calls: seq<Call>, a: nat, j: nat, n: nat)
    requires a < j < |calls| && n <= j
    ensures var plain := PlainRun(Config(1, period), TwoOfOneKey(calls, a, j), n);
            if n <= a then "a" !in plain else "a" in plain && plain["a"] == Bucket(calls[a].now, 1)
  {
    if n > 0 { PlainKeepsWindow(period, calls, a, j, n - 1); }
  }

  /** A check of another key leaves a bucket as it is, unless it sweeps an expired one. */
  lemma OtherCheckKeeps(config: Config, s: State, key: string, other: string, now: int)
    requires other != key
    ensures var s' := CheckStep(config, s, other, now).0;
            && (key in s'.buckets ==> key in s.buckets && s'.buckets[key] == s.buckets[key])
            && (s.lastSweep.None? || now - s.lastSweep.value >= config.period ==>
                  key in s'.buckets ==> !Expired(config, s'.buckets[key], now))
  {
  }

  lemma OpensWindow(config: Config, s: State, key: string, now: int)
    requires key !in s.buckets
    ensures var s' := CheckStep(config, s, key, now).0; key in s'.buckets && s'.buckets[key] == Bucket(now, 1)
  {
  }

  /** Sweeping drops it at call i. */
  lemma {:induction false} SweepDropsWindow(period: int, calls: seq<Call>, a: nat, i: nat, j: nat, n: nat)
    requires a < i < j < |calls| && n <= j && Sweeps(period, calls, i) && Past(period, calls, a, i)
    ensures var swept := Run(Config(1, period), CREATED, TwoOfOneKey(calls, a, j), n).buckets;
            && (n <= a || n > i ==> "a" !in swept)
            && ("a" in swept ==> swept["a"] == Bucket(calls[a].now, 1))
  {
    if n > 0 {
      hide CheckStep;
      SweepDropsWindow(period, calls, a, i, j, n - 1);
      var config, calls' := Config(1, period), TwoOfOneKey(calls, a, j);
      var s := Run(config, CREATED, calls', n - 1);
      if n - 1 == a {
        OpensWindow(config, s, "a", calls[a].now);
      } else {
        assert calls'[n - 1].key == "b" && "b" != "a";
        OtherCheckKeeps(config, s, "a", "b", calls[n - 1].now);
        StateHasLastSweep(config, calls', n - 1);
        SameSweeps(period, calls, calls', n - 1);
      }
    }
  }

  /** In a run that is not steady, some choice of its keys makes sweeping change an answer. */
  lemma SweepShows(period: int, calls: seq<Call>, a: nat, i: nat, j: nat)
    requires a < i < j < |calls| && Sweeps(period, calls, i) && Past(period, calls, a, i) && !Past(period, calls, a, j)
    ensures SameTimes(calls, TwoOfOneKey(calls, a, j)) && !SameAnswers(Config(1, period), TwoOfOneKey(calls, a, j))
  {
    var config, calls' := Config(1, period), TwoOfOneKey(calls, a, j);
    PlainKeepsWindow(period, calls, a, j, j);
    SweepDropsWindow(period, calls, a, i, j, j);
    hide Run, PlainRun;
    assert PlainAnswerAt(config, calls', j).Rejected?;
    assert AnswerAt(config, calls', j) == Accepted;
  }

  ghost predicate AlwaysSameAnswers(period: int, calls: seq<Call>)
  {
    forall limit: int, calls': seq<Call> {:trigger SameAnswers(Config(limit, period), calls')} ::
      limit > 0 && SameTimes(calls, calls') ==> SameAnswers(Config(limit, period), calls')
  }

  /** Calls at given times are answered as without sweeping, for every limit and all keys, exactly
      if no call comes early for what an earlier sweep found a period past. */
  lemma SweepIsInvisibleIff(period: int, calls: seq<Call>)
    ensures AlwaysSameAnswers(period, calls) <==> Steady(period, calls)
  {
    hide SameAnswers, Sweeps, Past;
    if Steady(period, calls) {
      forall limit: int, calls': seq<Call> | limit > 0 && SameTimes(calls, calls')
        ensures SameAnswers(Config(limit, period), calls')
      {
        SameTimesAreSteady(period, calls, calls');
        SweepIsInvisible(Config(limit, period), calls');
      }
    } else {
      var a: nat, i: nat, j: nat :|
        a < i < j < |calls| && Sweeps(period, calls, i) && Past(period, calls, a, i) && !Past(period, calls, a, j);
      SweepShows(period, calls, a, i, j);
    }
  }

  // ---- accepted uses of one key

  /** The times at which the first n calls of a key were accepted. */
  function AcceptedAt(config: Config, calls: seq<Call>, n: nat, key: string): seq<int>
    requires n <= |calls|
  {
    if n == 0 then []
    else
      AcceptedAt(config, calls, n - 1, key)
      + if calls[n - 1].key == key && AnswerAt(config, calls, n - 1) == Accepted then [calls[n - 1].now] else []
  }

  /** The calls of one key come in the order of their times. */
  ghost predicate KeyOrdered(calls: seq<Call>, key: string)
  {
    forall i, j :: 0 <= i < j < |calls| && calls[i].key == calls[j].key == key ==> calls[i].now <= calls[j].now
  }

  /** The open window holds the last `uses` accepted times, and everything more than a full
      window's uses before it is a whole period older than its start. */
  ghost predicate WindowsKept(config: Config, ts: seq<int>, b: Option<Bucket>, now: int)
    requires Valid(config)
  {
    && Sorted(ts) && Spaced(ts, 2 * config.limit - 1, config.period)
    && (forall i :: 0 <= i < |ts| ==> ts[i] <= now)
    && (b.None? ==> ts == [])
    && (b.Some? ==>
          && 1 <= b.value.uses <= config.limit && b.value.uses <= |ts|
          && ts[|ts| - b.value.uses] == b.value.started
          && forall i :: 0 <= i <= |ts| - b.value.uses - config.limit ==> ts[i] + config.period <= b.value.started)
  }

  function BucketOf(buckets: map<string, Bucket>, key: string): Option<Bucket>
  {
    if key in buckets then Some(buckets[key]) else None
  }

  lemma WindowOpens(config: Config, ts: seq<int>, b: Option<Bucket>, now: int, t: int)
    requires Valid(config) && WindowsKept(config, ts, b, now) && now <= t
    requires b.Some? ==> Expired(config, b.value, t)
    ensures WindowsKept(config, ts + [t], Some(Bucket(t, 1)), t)
  {
    var l: nat := 2 * config.limit - 1;
    AppendSorted(ts, t);
    if b.Some? {
      var open := |ts| - b.value.uses;
      forall i | 0 <= i <= open ensures ts[i] + config.period <= t { assert ts[i] <= ts[open]; }
    }
    AppendSpaced(ts, t, l, config.period);
  }

  lemma WindowCounts(config: Config, ts: seq<int>, b: Bucket, now: int, t: int)
    requires Valid(config) && WindowsKept(config, ts, Some(b), now) && now <= t && b.uses < config.limit
    ensures WindowsKept(config, ts + [t], Some(b.(uses := b.uses + 1)), t)
  {
    var l: nat := 2 * config.limit - 1;
    AppendSorted(ts, t);
    if |ts| >= l { assert ts[|ts| - l] + config.period <= b.started; }
    AppendSpaced(ts, t, l, config.period);
  }

  /** The accepted times of a key after one more use by it. */
  lemma UseKeepsWindows(config: Config, buckets: map<string, Bucket>, ts: seq<int>, key: string, now: int, t: int)
    requires Valid(config) && WindowsKept(config, ts, BucketOf(buckets, key), now) && now <= t
    ensures WindowsKept(config, if Use(config, buckets, key, t).1 == Accepted then ts + [t] else ts,
                        BucketOf(Use(config, buckets, key, t).0, key), t)
  {
    hide WindowsKept;
    if key !in buckets || Expired(config, buckets[key], t) {
      WindowOpens(config, ts, BucketOf(buckets, key), now, t);
    } else if buckets[key].uses < config.limit {
      WindowCounts(config, ts, buckets[key], now, t);
    } else {
      WindowsLater(config, ts, BucketOf(buckets, key), now, t);
    }
  }

  lemma WindowsLater(config: Config, ts: seq<int>, b: Option<Bucket>, now: int, later: int)
    requires Valid(config) && WindowsKept(config, ts, b, now) && now <= later
    ensures WindowsKept(config, ts, b, later)
  {
  }

  /** The accepted times and the bucket of a key after a call. */
  lemma CallKeepsWindows(config: Config, calls: seq<Call>, n: nat, key: string)
    requires Valid(config) && SameAnswers(config, calls) && n < |calls| && calls[n].key == key
    requires WindowsKept(config, AcceptedAt(config, calls, n, key), BucketOf(PlainRun(config, calls, n), key),
                         calls[n].now)
    ensures WindowsKept(config, AcceptedAt(config, calls, n + 1, key), BucketOf(PlainRun(config, calls, n + 1), key),
                        calls[n].now)
  {
    var t, ts, buckets := calls[n].now, AcceptedAt(config, calls, n, key), PlainRun(config, calls, n);
    assert AnswerAt(config, calls, n) == PlainAnswerAt(config, calls, n) && ts + [] == ts;
    hide WindowsKept, AnswerAt, Use;
    UseKeepsWindows(config, buckets, ts, key, t, t);
  }

  lemma OtherCallKeepsWindows(config: Config, calls: seq<Call>, n: nat, key: string)
    requires n < |calls| && calls[n].key != key
    ensures AcceptedAt(config, calls, n + 1, key) == AcceptedAt(config, calls, n, key)
    ensures BucketOf(PlainRun(config, calls, n + 1), key) == BucketOf(PlainRun(config, calls, n), key)
  {
  }

  lemma {:induction false} EveryRunKeepsWindows(config: Config, calls: seq<Call>, n: nat, key: string, now: int)
    requires Valid(config) && SameAnswers(config, calls) && KeyOrdered(calls, key) && n <= |calls|
    requires forall m :: 0 <= m < n && calls[m].key == key ==> calls[m].now <= now
    ensures WindowsKept(config, AcceptedAt(config, calls, n, key), BucketOf(PlainRun(config, calls, n), key), now)
  {
    if n > 0 {
      hide WindowsKept, AcceptedAt, PlainRun, SameAnswers;
      if calls[n - 1].key == key {
        EveryRunKeepsWindows(config, calls, n - 1, key, calls[n - 1].now);
        CallKeepsWindows(config, calls, n - 1, key);
        WindowsLater(config, AcceptedAt(config, calls, n, key), BucketOf(PlainRun(config, calls, n), key),
                     calls[n - 1].now, now);
      } else {
        EveryRunKeepsWindows(config, calls, n - 1, key, now);
        OtherCallKeepsWindows(config, calls, n - 1, key);
      }
    }
  }

  lemma {:induction false} SomeBound(calls: seq<Call>, n: nat) returns (now: int)
    requires n <= |calls|
    ensures forall m :: 0 <= m < n ==> calls[m].now <= now
  {
    if n == 0 {
      now := 0;
    } else {
      now := SomeBound(calls, n - 1);
      now := if now < calls[n - 1].now then calls[n - 1].now else now;
    }
  }

  /** In a steady run in which the key's own calls come in the order of their times, no half-open
      period accepts more than one use less than twice the limit. */
  lemma NoPeriodOverTwiceLimit(config: Config, calls: seq<Call>, key: string, lo: int)
    requires Valid(config) && Steady(config.period, calls) && KeyOrdered(calls, key)
    ensures CountIn(AcceptedAt(config, calls, |calls|, key), lo, lo + config.period) <= 2 * config.limit - 1
  {
    SweepIsInvisible(config, calls);
    var ts := AcceptedAt(config, calls, |calls|, key);
    var now := SomeBound(calls, |calls|);
    EveryRunKeepsWindows(config, calls, |calls|, key, now);
    SpacedIffBounded(ts, 2 * config.limit - 1, config.period);
    assert CountFrom(ts, lo, config.period) <= 2 * config.limit - 1;
  }

  lemma {:induction false} CountLast(ts: seq<int>, k: nat, lo: int, hi: int)
    requires k <= |ts| && forall i :: |ts| - k <= i < |ts| ==> lo <= ts[i] < hi
    ensures CountIn(ts, lo, hi) >= k
  {
    if k > 0 { CountLast(ts[..|ts| - 1], k - 1, lo, hi); }
  }

  /** In such a run a check is rejected only if the limit was used up: as many uses of the key as the
      limit allows were accepted within the period that ends with the check. And it is told to come
      back within a period. */
  lemma RejectionIsEarned(config: Config, calls: seq<Call>, i: nat)
    requires Valid(config) && Steady(config.period, calls) && i < |calls| && KeyOrdered(calls, calls[i].key)
    requires AnswerAt(config, calls, i).Rejected?
    ensures var now, accepted := calls[i].now, AcceptedAt(config, calls, i, calls[i].key);
            CountIn(accepted, now - config.period + 1, now + 1) >= config.limit
    ensures 0 < AnswerAt(config, calls, i).retryAfter <= config.period
  {
    hide Steady, AcceptedAt, PlainRun, Run, Use, WindowsKept, KeyOrdered, AnswerAt;
    SweepIsInvisible(config, calls);
    var now, key := calls[i].now, calls[i].key;
    EveryRunKeepsWindowsTo(config, calls, i);
    PlainAnswers(config, calls, i);
    FullWindow(config, AcceptedAt(config, calls, i, key), PlainRun(config, calls, i), key, now);
  }

  lemma EveryRunKeepsWindowsTo(config: Config, calls: seq<Call>, i: nat)
    requires Valid(config) && SameAnswers(config, calls) && i < |calls| && KeyOrdered(calls, calls[i].key)
    ensures var key := calls[i].key;
            WindowsKept(config, AcceptedAt(config, calls, i, key), BucketOf(PlainRun(config, calls, i), key),
                        calls[i].now)
  {
    hide WindowsKept, SameAnswers;
    EveryRunKeepsWindows(config, calls, i, calls[i].key, calls[i].now);
  }

  lemma PlainAnswers(config: Config, calls: seq<Call>, i: nat)
    requires SameAnswers(config, calls) && i < |calls|
    ensures AnswerAt(config, calls, i) == Use(config, PlainRun(config, calls, i), calls[i].key, calls[i].now).1
  {
    hide AnswerAt, Use;
    assert AnswerAt(config, calls, i) == PlainAnswerAt(config, calls, i);
  }

  lemma FullWindow(config: Config, ts: seq<int>, buckets: map<string, Bucket>, key: string, now: int)
    requires Valid(config) && WindowsKept(config, ts, BucketOf(buckets, key), now)
    requires Use(config, buckets, key, now).1.Rejected?
    ensures CountIn(ts, now - config.period + 1, now + 1) >= config.limit
    ensures 0 < Use(config, buckets, key, now).1.retryAfter <= config.period
  {
    hide CountIn;
    var b := buckets[key];
    assert b.uses == config.limit && now - b.started < config.period;
    CountLast(ts, config.limit, now - config.period + 1, now + 1);
  }

  // ---- two ways to fail

  lemma StepTo(config: Config, calls: seq<Call>, n: nat, s: State)
    requires n < |calls| && Run(config, CREATED, calls, n) == s
    ensures Run(config, CREATED, calls, n + 1) == CheckStep(config, s, calls[n].key, calls[n].now).0
    ensures AnswerAt(config, calls, n) == CheckStep(config, s, calls[n].key, calls[n].now).1
  {
  }

  /** A check that read the clock before another one swept: with a limit of one use the same period
      accepts two, the second of them only because of the sweep. */
  lemma OvertakenCheckIsAccepted()
    ensures var config, calls := Config(1, 10), [Call("a", 0), Call("b", 10), Call("a", 9)];
            && CountIn(AcceptedAt(config, calls, 3, "a"), 0, 10) == 2
            && AnswerAt(config, calls, 2) == Accepted && PlainAnswerAt(config, calls, 2) == Rejected(1)
  {
    var config, calls := Config(1, 10), [Call("a", 0), Call("b", 10), Call("a", 9)];
    hide Run;
    assert Run(config, CREATED, calls, 0) == CREATED by { StartsCreated(config, calls); }
    var s1 := State(map["a" := Bucket(0, 1)], Some(0));
    StepTo(config, calls, 0, CREATED);
    assert Run(config, CREATED, calls, 1) == s1;
    StepTo(config, calls, 1, s1);
    var s2 := State(map["b" := Bucket(10, 1)], Some(10));
    assert Run(config, CREATED, calls, 2) == s2;
    StepTo(config, calls, 2, s2);
    PlainRejects(config, calls);
    assert AcceptedAt(config, calls, 1, "a") == [0] && AcceptedAt(config, calls, 2, "a") == [0];
    assert AcceptedAt(config, calls, 3, "a") == [0, 9];
    assert [0, 9][..1] == [0] && [0][..0] == [];
  }

  lemma PlainRejects(config: Config, calls: seq<Call>)
    requires config == Config(1, 10) && calls == [Call("a", 0), Call("b", 10), Call("a", 9)]
    ensures PlainAnswerAt(config, calls, 2) == Rejected(1)
  {
    assert PlainRun(config, calls, 1) == map["a" := Bucket(0, 1)];
    assert PlainRun(config, calls, 2) == map["a" := Bucket(0, 1), "b" := Bucket(10, 1)];
  }

  lemma StartsCreated(config: Config, calls: seq<Call>)
    ensures Run(config, CREATED, calls, 0) == CREATED
  {
  }

  function Unordered(): seq<Call>
  {
    [Call("b", 100), Call("a", 0), Call("a", 5), Call("a", 10), Call("a", 5), Call("a", 20), Call("a", 5)]
  }

  /** Checks of one key out of the order of their times can put more uses into a period even if the
      run is steady: here three windows of two uses each put four uses into the first period. */
  lemma UnorderedKeyExceeds()
    ensures var config, calls := Config(2, 10), Unordered();
            Steady(10, calls) && CountIn(AcceptedAt(config, calls, 7, "a"), 0, 10) == 4 > 2 * config.limit - 1
  {
    var config, calls := Config(2, 10), Unordered();
    forall i: nat | 0 < i < |calls| ensures !Sweeps(10, calls, i) { NeverSweepsAgain(calls, i); }
    AllAccepted(config, calls);
    FourInPeriod();
  }

  lemma CountNext(ts: seq<int>, t: int, lo: int, hi: int)
    ensures CountIn(ts + [t], lo, hi) == CountIn(ts, lo, hi) + if lo <= t < hi then 1 else 0
  {
    assert (ts + [t])[..|ts|] == ts;
  }

  lemma FourInPeriod()
    ensures CountIn([] + [0] + [5] + [10] + [5] + [20] + [5], 0, 10) == 4
  {
    CountNext([], 0, 0, 10);
    CountNext([] + [0], 5, 0, 10);
    CountNext([] + [0] + [5], 10, 0, 10);
    CountNext([] + [0] + [5] + [10], 5, 0, 10);
    CountNext([] + [0] + [5] + [10] + [5], 20, 0, 10);
    CountNext([] + [0] + [5] + [10] + [5] + [20], 5, 0, 10);
  }

  lemma {:induction false} NeverSweepsAgain(calls: seq<Call>, i: nat)
    requires calls == Unordered() && 0 < i < |calls|
    ensures LastSweep(10, calls, i) == Some(100) && !Sweeps(10, calls, i)
  {
    if i > 1 { NeverSweepsAgain(calls, i - 1); }
  }

  /** The two buckets of the run. */
  function With(a: Bucket): State
  {
    State(map["b" := Bucket(100, 1)]["a" := a], Some(100))
  }

  lemma AllAccepted(config: Config, calls: seq<Call>)
    requires config == Config(2, 10) && calls == Unordered()
    ensures AcceptedAt(config, calls, 7, "a") == [] + [0] + [5] + [10] + [5] + [20] + [5]
  {
    hide Run, CheckStep, AnswerAt, With;
    FirstTwo(config, calls);
    NextUse(config, calls, 2, Bucket(0, 1), Bucket(0, 2));
    NextUse(config, calls, 3, Bucket(0, 2), Bucket(10, 1));
    NextUse(config, calls, 4, Bucket(10, 1), Bucket(10, 2));
    NextUse(config, calls, 5, Bucket(10, 2), Bucket(20, 1));
    NextUse(config, calls, 6, Bucket(20, 1), Bucket(20, 2));
  }

  lemma FirstTwo(config: Config, calls: seq<Call>)
    requires config == Config(2, 10) && calls == Unordered()
    ensures Run(config, CREATED, calls, 2) == With(Bucket(0, 1)) && AcceptedAt(config, calls, 2, "a") == [] + [0]
  {
    var b := State(map["b" := Bucket(100, 1)], Some(100));
    assert Run(config, CREATED, calls, 0) == CREATED;
    assert Run(config, CREATED, calls, 1) == b;
    assert AcceptedAt(config, calls, 1, "a") == [];
    assert Run(config, CREATED, calls, 2) == With(Bucket(0, 1));
    assert AnswerAt(config, calls, 1) == Accepted;
  }

  lemma NextUse(config: Config, calls: seq<Call>, n: nat, a: Bucket, a': Bucket)
    requires config.limit == 2 && config.period == 10 && n < |calls| && Run(config, CREATED, calls, n) == With(a)
    requires calls[n].key == "a" && calls[n].now < 110
    requires a' == if calls[n].now - a.started >= 10 then Bucket(calls[n].now, 1) else Bucket(a.started, a.uses + 1)
    requires calls[n].now - a.started >= 10 || a.uses < 2
    ensures Run(config, CREATED, calls, n + 1) == With(a')
    ensures AcceptedAt(config, calls, n + 1, "a") == AcceptedAt(config, calls, n, "a") + [calls[n].now]
  {
    StepTo(config, calls, n, With(a));
    hide Run;
    assert With(a).buckets["a" := a'] == With(a').buckets;
  }

  // ---- the announced delay

  /** The key's window is full and ends at `until`. */
  predicate FullUntil(config: Config, s: State, key: string, until: int)
  {
    key in s.buckets && s.buckets[key].uses >= config.limit && s.buckets[key].started + config.period == until
  }

  /** It stays so through checks before its end. */
  lemma {:induction false} StaysFull(config: Config, s: State, key: string, until: int, calls: seq<Call>, n: nat)
    requires FullUntil(config, s, key, until) && n <= |calls| && forall i :: 0 <= i < n ==> calls[i].now < until
    ensures FullUntil(config, Run(config, s, calls, n), key, until)
  {
    if n > 0 { StaysFull(config, s, key, until, calls, n - 1); }
  }

  /** Checks of other keys may sweep it, but do nothing else to it. */
  lemma {:induction false} FullOrSwept(config: Config, s: State, key: string, until: int, calls: seq<Call>, n: nat)
    requires FullUntil(config, s, key, until) && n <= |calls|
    requires forall i :: 0 <= i < n && calls[i].key == key ==>
               calls[i].now < until && forall m :: 0 <= m < i ==> calls[m].now < until
    ensures key !in Run(config, s, calls, n).buckets || FullUntil(config, Run(config, s, calls, n), key, until)
  {
    if n > 0 {
      FullOrSwept(config, s, key, until, calls, n - 1);
      if calls[n - 1].key == key {
        StaysFull(config, s, key, until, calls, n);
      } else {
        OtherCheckKeeps(config, Run(config, s, calls, n - 1), key, calls[n - 1].key, calls[n - 1].now);
      }
    }
  }

  /** After a rejection every check of the key before the announced delay has passed is rejected,
      and the first one after it is accepted, whatever other keys are checked between in the order
      of their times. */
  lemma {:induction false} RetryAfterIsExact(config: Config, s: State, key: string, now: int, between: seq<Call>,
                                             t: int)
    requires Valid(config) && CheckStep(config, s, key, now).1.Rejected?
    requires Ordered(between) && forall i :: 0 <= i < |between| ==> between[i].now <= t
    requires forall i :: 0 <= i < |between| && between[i].key == key ==>
               between[i].now < now + CheckStep(config, s, key, now).1.retryAfter
    ensures var (s', a) := CheckStep(config, s, key, now);
            CheckStep(config, Run(config, s', between, |between|), key, t).1 == Accepted <==> t >= now + a.retryAfter
  {
    var (s', a) := CheckStep(config, s, key, now);
    var until := now + a.retryAfter;
    if t < until {
      StaysFull(config, s', key, until, between, |between|);
    } else {
      FullOrSwept(config, s', key, until, between, |between|);
    }
  }
}
