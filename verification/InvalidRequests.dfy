/** The rolling log of invalid REST responses. Times are nanoseconds. */
module InvalidRequests {
  import opened Prelude

  const DEFAULT_WINDOW: int := 600_000_000_000

  datatype Config = Config(limit: int, warning: int, window: int)

  function Threshold(config: Config): int
  {
    if config.limit <= 0 then 0
    else if config.warning <= 0 || config.warning > config.limit then config.limit
    else config.warning
  }

  function Window(config: Config): int
  {
    if config.window <= 0 then DEFAULT_WINDOW else config.window
  }

  predicate Invalid(statusCode: int)
  {
    statusCode == 401 || statusCode == 403 || statusCode == 429
  }

  datatype Status = Status(count: nat, warning: bool, blocked: bool, warningTriggered: bool)

  datatype State = State(log: seq<int>, warned: bool)

  const CREATED := State([], false)

  /** Where the entries up to the cutoff that lead the log, looked at from an index on, end. */
  function Leading(log: seq<int>, cutoff: int, from: nat): (n: nat)
    requires from <= |log|
    ensures from <= n <= |log|
    decreases |log| - from
  {
    if from < |log| && log[from] <= cutoff then Leading(log, cutoff, from + 1) else from
  }

  function DropLeading(log: seq<int>, cutoff: int): seq<int>
  {
    log[Leading(log, cutoff, 0)..]
  }

  function Prune(config: Config, s: State, now: int): State
  {
    var log := DropLeading(s.log, now - Window(config));
    State(log, s.warned && |log| >= Threshold(config))
  }

  function Report(config: Config, s: State, updateWarning: bool): (State, Status)
  {
    var threshold := Threshold(config);
    var warning := threshold > 0 && |s.log| >= threshold;
    var triggered := updateWarning && warning && !s.warned;
    (s.(warned := s.warned || triggered),
     Status(|s.log|, warning, config.limit > 0 && |s.log| >= config.limit, triggered))
  }

  /** A response is recorded, or the status is asked for. */
  datatype Call = Record(statusCode: int, now: int) | Ask(now: int)

  function Logged(call: Call): seq<int>
  {
    if call.Record? && Invalid(call.statusCode) then [call.now] else []
  }

  function Step(config: Config, s: State, call: Call): (State, Status)
  {
    var pruned := Prune(config, s, call.now);
    Report(config, pruned.(log := pruned.log + Logged(call)), call.Record?)
  }

  class RateLimiter {
    const config: Config
    var invalidRequests: seq<int>
    var invalidWarned: bool

    ghost function View(): State
      reads this
    {
      State(invalidRequests, invalidWarned)
    }

    constructor (config: Config)
      ensures View() == CREATED && this.config == config
    {
      this.config := config;
      invalidRequests, invalidWarned := [], false;
    }

    method PruneInvalidRequests(now: int)
      modifies this
      ensures View() == Prune(config, old(View()), now)
    {
      var cutoff := now - Window(config);
      var first := 0;
      while first < |invalidRequests| && invalidRequests[first] <= cutoff
        invariant 0 <= first <= |invalidRequests|
        invariant Leading(invalidRequests, cutoff, 0) == Leading(invalidRequests, cutoff, first)
      {
        first := first + 1;
      }
      if first > 0 {
        invalidRequests := invalidRequests[first..];
      }
      if |invalidRequests| < Threshold(config) {
        invalidWarned := false;
      }
    }

    method InvalidRequestStatusLocked(updateWarning: bool) returns (status: Status)
      modifies this`invalidWarned
      ensures (View(), status) == Report(config, old(View()), updateWarning)
    {
      var count := |invalidRequests|;
      var threshold := Threshold(config);
      status := Status(count, threshold > 0 && count >= threshold, config.limit > 0 && count >= config.limit, false);
      if updateWarning && status.warning && !invalidWarned {
        status := status.(warningTriggered := true);
        invalidWarned := true;
      }
    }

    method RecordResponse(statusCode: int, now: int) returns (status: Status)
      modifies this
      ensures (View(), status) == Step(config, old(View()), Record(statusCode, now))
    {
      hide Prune;
      PruneInvalidRequests(now);
      ghost var pruned := View();
      if statusCode == 401 || statusCode == 403 || statusCode == 429 {
        invalidRequests := invalidRequests + [now];
      }
      assert View() == pruned.(log := pruned.log + Logged(Record(statusCode, now)));
      status := InvalidRequestStatusLocked(true);
    }

    method InvalidRequestStatus(now: int) returns (status: Status)
      modifies this
      ensures (View(), status) == Step(config, old(View()), Ask(now))
    {
      hide Prune;
      PruneInvalidRequests(now);
      assert View() == View().(log := View().log + Logged(Ask(now)));
      status := InvalidRequestStatusLocked(false);
    }
  }

  // ---- pruning

  /** The entries after the cutoff, wherever they stand. */
  function Recent(log: seq<int>, cutoff: int): seq<int>
  {
    if log == [] then []
    else Recent(log[..|log| - 1], cutoff) + if log[|log| - 1] > cutoff then [log[|log| - 1]] else []
  }

  /** Nothing up to the cutoff stands after something past it. */
  ghost predicate OldFirst(log: seq<int>, cutoff: int)
  {
    forall i, j :: 0 <= i < j < |log| && log[j] <= cutoff ==> log[i] <= cutoff
  }

  lemma {:induction false} RecentConcat(a: seq<int>, b: seq<int>, cutoff: int)
    ensures Recent(a + b, cutoff) == Recent(a, cutoff) + Recent(b, cutoff)
  {
    if b == [] {
      assert a + b == a;
    } else {
      assert (a + b)[..|a + b| - 1] == a + b[..|b| - 1];
      RecentConcat(a, b[..|b| - 1], cutoff);
    }
  }

  lemma {:induction false} RecentStays(log: seq<int>, cutoff: int)
    requires forall i :: 0 <= i < |log| ==> log[i] > cutoff
    ensures Recent(log, cutoff) == log
  {
    if log != [] { RecentStays(log[..|log| - 1], cutoff); }
  }

  lemma {:induction false} OldIsLost(log: seq<int>, cutoff: int)
    ensures |Recent(log, cutoff)| <= |log|
    ensures |Recent(log, cutoff)| == |log| ==> forall i :: 0 <= i < |log| ==> log[i] > cutoff
  {
    if log != [] { OldIsLost(log[..|log| - 1], cutoff); }
  }

  lemma {:induction false} LeadingEnds(log: seq<int>, cutoff: int, from: nat)
    requires from <= |log|
    ensures forall i :: from <= i < Leading(log, cutoff, from) ==> log[i] <= cutoff
    ensures Leading(log, cutoff, from) < |log| ==> log[Leading(log, cutoff, from)] > cutoff
    decreases |log| - from
  {
    if from < |log| && log[from] <= cutoff { LeadingEnds(log, cutoff, from + 1); }
  }

  lemma {:induction false} OldGoes(log: seq<int>, cutoff: int)
    requires forall i :: 0 <= i < |log| ==> log[i] <= cutoff
    ensures Recent(log, cutoff) == []
  {
    if log != [] { OldGoes(log[..|log| - 1], cutoff); }
  }

  lemma DroppedWereOld(log: seq<int>, cutoff: int)
    ensures Recent(log, cutoff) == Recent(DropLeading(log, cutoff), cutoff)
  {
    var n := Leading(log, cutoff, 0);
    LeadingEnds(log, cutoff, 0);
    assert log == log[..n] + log[n..];
    RecentConcat(log[..n], log[n..], cutoff);
    OldGoes(log[..n], cutoff);
  }

  lemma AllRecentIff(rest: seq<int>, cutoff: int)
    ensures rest == Recent(rest, cutoff) <==> forall i :: 0 <= i < |rest| ==> rest[i] > cutoff
  {
    OldIsLost(rest, cutoff);
    if forall i :: 0 <= i < |rest| ==> rest[i] > cutoff { RecentStays(rest, cutoff); }
  }

  /** Dropping the leading old entries drops all the old ones exactly if the log has its old
      entries first. */
  lemma PruneIsExactIff(log: seq<int>, cutoff: int)
    ensures DropLeading(log, cutoff) == Recent(log, cutoff) <==> OldFirst(log, cutoff)
  {
    var rest := DropLeading(log, cutoff);
    DroppedWereOld(log, cutoff);
    AllRecentIff(rest, cutoff);
    OldFirstIff(log, cutoff);
  }

  lemma OldFirstIff(log: seq<int>, cutoff: int)
    ensures OldFirst(log, cutoff) <==>
            forall i :: 0 <= i < |DropLeading(log, cutoff)| ==> DropLeading(log, cutoff)[i] > cutoff
  {
    var n := Leading(log, cutoff, 0);
    LeadingEnds(log, cutoff, 0);
    if OldFirst(log, cutoff) {
      forall i | n <= i < |log| ensures log[i] > cutoff { assert log[n] > cutoff; }
    } else {
      var i, j :| 0 <= i < j < |log| && log[j] <= cutoff && log[i] > cutoff;
      assert i >= n;
      assert DropLeading(log, cutoff)[j - n] == log[j] <= cutoff;
    }
  }

  // ---- runs

  /** The state after the first n calls of a run. */
  function At(config: Config, calls: seq<Call>, n: nat): State
    requires n <= |calls|
  {
    if n == 0 then CREATED else Step(config, At(config, calls, n - 1), calls[n - 1]).0
  }

  /** What call i of a run reports. */
  function StatusOf(config: Config, calls: seq<Call>, i: nat): Status
    requires i < |calls|
  {
    Step(config, At(config, calls, i), calls[i]).1
  }

  /** The times of all invalid responses among the first n calls, in the order they were recorded. */
  function InvalidBy(calls: seq<Call>, n: nat): seq<int>
    requires n <= |calls|
  {
    if n == 0 then [] else InvalidBy(calls, n - 1) + Logged(calls[n - 1])
  }

  /** How many invalid responses among the first n calls are later than a window before `now`. */
  function CountAt(config: Config, calls: seq<Call>, n: nat, now: int): nat
    requires n <= |calls|
  {
    |Recent(InvalidBy(calls, n), now - Window(config))|
  }

  /** The log alone: pruned by each call and extended by it. */
  function LogAt(window: int, calls: seq<Call>, n: nat): seq<int>
    requires n <= |calls|
    decreases n, 0
  {
    if n == 0 then [] else PrunedLogAt(window, calls, n - 1) + Logged(calls[n - 1])
  }

  /** The log after the pruning that call i begins with. */
  function PrunedLogAt(window: int, calls: seq<Call>, i: nat): seq<int>
    requires i < |calls|
    decreases i, 1
  {
    DropLeading(LogAt(window, calls, i), calls[i].now - window)
  }

  lemma StepLogs(config: Config, s: State, call: Call)
    ensures Step(config, s, call).0.log == DropLeading(s.log, call.now - Window(config)) + Logged(call)
    ensures Step(config, s, call).1.count == |Step(config, s, call).0.log|
  {
  }

  lemma {:induction false} StateHasLog(config: Config, calls: seq<Call>, n: nat)
    requires n <= |calls|
    ensures At(config, calls, n).log == LogAt(Window(config), calls, n)
  {
    hide Step, DropLeading;
    if n > 0 {
      StateHasLog(config, calls, n - 1);
      StepLogs(config, At(config, calls, n - 1), calls[n - 1]);
    }
  }

  lemma StatusCountsLog(config: Config, calls: seq<Call>, i: nat)
    requires i < |calls|
    ensures StatusOf(config, calls, i).count == |LogAt(Window(config), calls, i + 1)|
    ensures |Prune(config, At(config, calls, i), calls[i].now).log| == |PrunedLogAt(Window(config), calls, i)|
  {
    hide Step, DropLeading;
    StateHasLog(config, calls, i);
    StepLogs(config, At(config, calls, i), calls[i]);
  }

  // ---- when the reported counts are exact

  /** How many responses the first n calls have pruned; the log is always a suffix of the history. */
  function Dropped(window: int, calls: seq<Call>, n: nat): nat
    requires n <= |calls|
  {
    if n == 0 then 0
    else Dropped(window, calls, n - 1) + Leading(LogAt(window, calls, n - 1), calls[n - 1].now - window, 0)
  }

  lemma SuffixStep(history: seq<int>, d: nat, log: seq<int>, n: nat, logged: seq<int>)
    requires d <= |history| && log == history[d..] && n <= |log|
    ensures log[n..] == history[d + n..] && log[n..] + logged == (history + logged)[d + n..]
  {
  }

  lemma {:induction false} LogIsSuffix(window: int, calls: seq<Call>, n: nat)
    requires n <= |calls|
    ensures Dropped(window, calls, n) <= |InvalidBy(calls, n)|
    ensures LogAt(window, calls, n) == InvalidBy(calls, n)[Dropped(window, calls, n)..]
  {
    hide Leading;
    if n > 0 {
      LogIsSuffix(window, calls, n - 1);
      var log, d := LogAt(window, calls, n - 1), Dropped(window, calls, n - 1);
      SuffixStep(InvalidBy(calls, n - 1), d, log, Leading(log, calls[n - 1].now - window, 0), Logged(calls[n - 1]));
    }
  }

  lemma PrunedIsSuffix(window: int, calls: seq<Call>, i: nat)
    requires i < |calls|
    ensures Dropped(window, calls, i) <= Dropped(window, calls, i + 1) <= |InvalidBy(calls, i)|
    ensures PrunedLogAt(window, calls, i) == InvalidBy(calls, i)[Dropped(window, calls, i + 1)..]
  {
    hide Leading, InvalidBy, LogAt;
    LogIsSuffix(window, calls, i);
    var log, d := LogAt(window, calls, i), Dropped(window, calls, i);
    SuffixStep(InvalidBy(calls, i), d, log, Leading(log, calls[i].now - window, 0), []);
  }

  /** Exactly the entries up to the cutoff come before place d. */
  ghost predicate Sharp(history: seq<int>, d: nat, cutoff: int)
  {
    forall a :: 0 <= a < |history| ==> (history[a] > cutoff <==> a >= d)
  }

  lemma {:induction false} OldCount(log: seq<int>, cutoff: int)
    requires |Recent(log, cutoff)| == 0
    ensures forall i :: 0 <= i < |log| ==> log[i] <= cutoff
  {
    if log != [] { OldCount(log[..|log| - 1], cutoff); }
  }

  lemma SplitCount(history: seq<int>, d: nat, cutoff: int)
    requires d <= |history|
    ensures |Recent(history, cutoff)| == |Recent(history[..d], cutoff)| + |Recent(history[d..], cutoff)|
  {
    assert history == history[..d] + history[d..];
    RecentConcat(history[..d], history[d..], cutoff);
  }

  lemma SharpCounts(history: seq<int>, d: nat, cutoff: int)
    requires d <= |history| && Sharp(history, d, cutoff)
    ensures |Recent(history, cutoff)| == |history| - d
  {
    SplitCount(history, d, cutoff);
    OldGoes(history[..d], cutoff);
    RecentStays(history[d..], cutoff);
  }

  /** Pruning drops the entries from place d to place e, the first one past the cutoff. */
  ghost predicate Prunes(history: seq<int>, d: nat, e: nat, cutoff: int)
  {
    && d <= e <= |history| && (forall a :: d <= a < e ==> history[a] <= cutoff)
    && (e < |history| ==> history[e] > cutoff)
  }

  /** After an exact pruning the next one counts right only if it is exact too. */
  lemma CountsRightOnlyIfSharp(history: seq<int>, d: nat, before: int, e: nat, cutoff: int)
    requires Sharp(history, d, before) && Prunes(history, d, e, cutoff)
    requires |Recent(history, cutoff)| == |history| - e
    ensures Sharp(history, e, cutoff)
  {
    SplitCount(history, e, cutoff);
    var dropped, kept := history[..e], history[e..];
    if cutoff >= before {
      forall a | 0 <= a < e ensures dropped[a] <= cutoff { assert dropped[a] == history[a]; }
      OldGoes(dropped, cutoff);
      OldIsLost(kept, cutoff);
      assert forall a :: e <= a < |history| ==> history[a] == kept[a - e];
    } else {
      forall a | 0 <= a < |kept| ensures kept[a] > cutoff { assert kept[a] == history[e + a] > before; }
      RecentStays(kept, cutoff);
      OldCount(dropped, cutoff);
      assert forall a :: 0 <= a < e ==> history[a] == dropped[a];
    }
  }

  lemma PruningOf(window: int, calls: seq<Call>, i: nat)
    requires i < |calls|
    ensures Prunes(InvalidBy(calls, i), Dropped(window, calls, i), Dropped(window, calls, i + 1), calls[i].now - window)
  {
    hide Leading, InvalidBy, LogAt;
    LogIsSuffix(window, calls, i);
    LeadingPrunes(InvalidBy(calls, i), Dropped(window, calls, i), calls[i].now - window);
  }

  lemma LeadingPrunes(history: seq<int>, d: nat, cutoff: int)
    requires d <= |history|
    ensures Prunes(history, d, d + Leading(history[d..], cutoff, 0), cutoff)
  {
    hide Leading;
    var log := history[d..];
    LeadingEnds(log, cutoff, 0);
    assert forall a :: d <= a < |history| ==> history[a] == log[a - d];
  }

  /** Call i prunes exactly the responses a window before it. */
  ghost predicate SharpAt(window: int, calls: seq<Call>, i: nat)
    requires i < |calls|
  {
    Sharp(InvalidBy(calls, i), Dropped(window, calls, i + 1), calls[i].now - window)
  }

  /** The next call finds the history so pruned, with the response just recorded behind it. */
  lemma SharpCarries(window: int, calls: seq<Call>, i: nat)
    requires i < |calls| && window > 0 && SharpAt(window, calls, i)
    ensures Sharp(InvalidBy(calls, i + 1), Dropped(window, calls, i + 1), calls[i].now - window)
  {
    hide Dropped;
    PrunedIsSuffix(window, calls, i);
  }

  /** The number of entries left by the pruning call i begins with is that of the history's
      responses in its window. */
  ghost predicate CountsRightAt(window: int, calls: seq<Call>, i: nat)
    requires i < |calls|
  {
    |PrunedLogAt(window, calls, i)| == |Recent(InvalidBy(calls, i), calls[i].now - window)|
  }

  lemma SharpCountsRight(window: int, calls: seq<Call>, i: nat)
    requires i < |calls| && SharpAt(window, calls, i)
    ensures CountsRightAt(window, calls, i)
  {
    hide Dropped, InvalidBy, PrunedLogAt, Recent, Sharp;
    PrunedIsSuffix(window, calls, i);
    SharpCounts(InvalidBy(calls, i), Dropped(window, calls, i + 1), calls[i].now - window);
  }

  lemma RightCountIsSharp(window: int, calls: seq<Call>, i: nat)
    requires 0 < i < |calls| && window > 0 && SharpAt(window, calls, i - 1) && CountsRightAt(window, calls, i)
    ensures SharpAt(window, calls, i)
  {
    hide Dropped, InvalidBy, PrunedLogAt, Recent, Sharp, Prunes;
    PrunedIsSuffix(window, calls, i);
    PruningOf(window, calls, i);
    SharpCarries(window, calls, i - 1);
    CountsRightOnlyIfSharp(InvalidBy(calls, i), Dropped(window, calls, i), calls[i - 1].now - window,
                           Dropped(window, calls, i + 1), calls[i].now - window);
  }

  lemma {:induction false} RightCountsAreSharp(window: int, calls: seq<Call>, i: nat)
    requires i < |calls| && window > 0 && forall k: nat :: k <= i ==> CountsRightAt(window, calls, k)
    ensures SharpAt(window, calls, i)
  {
    hide SharpAt, CountsRightAt;
    if i == 0 {
      NothingBefore(window, calls);
    } else {
      RightCountsAreSharp(window, calls, i - 1);
      RightCountIsSharp(window, calls, i);
    }
  }

  lemma NothingBefore(window: int, calls: seq<Call>)
    requires calls != []
    ensures SharpAt(window, calls, 0)
  {
  }

  /** No response up to the cutoff of call i was recorded after one past it. */
  ghost predicate InOrderAt(window: int, calls: seq<Call>, i: nat)
    requires i < |calls|
  {
    OldFirst(InvalidBy(calls, i), calls[i].now - window)
  }

  /** Response a was recorded before call k came, and call k's window had passed it. */
  predicate PastAt(window: int, calls: seq<Call>, k: nat, a: nat)
    requires k < |calls|
  {
    a < |InvalidBy(calls, k)| && InvalidBy(calls, k)[a] <= calls[k].now - window
  }

  /** No response that some earlier call's window had passed lies in the window of call i. */
  ghost predicate NoneReturnsAt(window: int, calls: seq<Call>, i: nat)
    requires i < |calls|
  {
    forall k: nat, a: nat :: k < i && PastAt(window, calls, k, a) ==>
      a < |InvalidBy(calls, i)| && InvalidBy(calls, i)[a] <= calls[i].now - window
  }

  /** The condition on the times of the calls. */
  ghost predicate Timely(window: int, calls: seq<Call>)
  {
    forall i: nat :: i < |calls| ==> InOrderAt(window, calls, i) && NoneReturnsAt(window, calls, i)
  }

  lemma {:induction false} HistoryGrows(calls: seq<Call>, k: nat, i: nat)
    requires k <= i <= |calls|
    ensures InvalidBy(calls, k) <= InvalidBy(calls, i)
  {
    if k < i { HistoryGrows(calls, k, i - 1); }
  }

  lemma {:induction false} DroppedGrows(window: int, calls: seq<Call>, k: nat, i: nat)
    requires k <= i <= |calls|
    ensures Dropped(window, calls, k) <= Dropped(window, calls, i)
  {
    if k < i { DroppedGrows(window, calls, k, i - 1); }
  }

  lemma SharpIsTimely(window: int, calls: seq<Call>, i: nat)
    requires i < |calls| && forall k: nat :: k <= i ==> SharpAt(window, calls, k)
    ensures InOrderAt(window, calls, i) && NoneReturnsAt(window, calls, i)
  {
    hide Dropped, InvalidBy;
    assert SharpAt(window, calls, i);
    forall k: nat, a: nat | k < i && PastAt(window, calls, k, a)
      ensures a < |InvalidBy(calls, i)| && InvalidBy(calls, i)[a] <= calls[i].now - window
    {
      HistoryGrows(calls, k, i);
      DroppedGrows(window, calls, k + 1, i + 1);
      assert SharpAt(window, calls, k);
      assert InvalidBy(calls, i)[a] == InvalidBy(calls, k)[a];
    }
  }

  lemma TimelyStep(window: int, calls: seq<Call>, i: nat)
    requires 0 < i < |calls| && SharpAt(window, calls, i - 1)
    requires InOrderAt(window, calls, i) && NoneReturnsAt(window, calls, i)
    ensures SharpAt(window, calls, i)
  {
    hide Dropped, InvalidBy, Sharp, Prunes, OldFirst, NoneReturnsAt;
    PruningOf(window, calls, i);
    OldStayOld(window, calls, i);
    SharpFromPruning(InvalidBy(calls, i), Dropped(window, calls, i), Dropped(window, calls, i + 1),
                     calls[i].now - window);
  }

  lemma {:induction false} TimelyIsSharp(window: int, calls: seq<Call>, i: nat)
    requires i < |calls| && window > 0 && Timely(window, calls)
    ensures SharpAt(window, calls, i)
  {
    hide SharpAt, InOrderAt, NoneReturnsAt;
    if i == 0 {
      NothingBefore(window, calls);
    } else {
      TimelyIsSharp(window, calls, i - 1);
      TimelyStep(window, calls, i);
    }
  }

  ghost predicate OldUpTo(history: seq<int>, d: nat, cutoff: int)
  {
    d <= |history| && forall a :: 0 <= a < d ==> history[a] <= cutoff
  }

  /** What was dropped before call i is still old for it. */
  lemma OldStayOld(window: int, calls: seq<Call>, i: nat)
    requires 0 < i < |calls| && SharpAt(window, calls, i - 1) && NoneReturnsAt(window, calls, i)
    ensures OldUpTo(InvalidBy(calls, i), Dropped(window, calls, i), calls[i].now - window)
  {
    hide Dropped, InvalidBy;
    PrunedIsSuffix(window, calls, i - 1);
    HistoryGrows(calls, i - 1, i);
    forall a | 0 <= a < Dropped(window, calls, i)
      ensures a < |InvalidBy(calls, i)| && InvalidBy(calls, i)[a] <= calls[i].now - window
    {
      assert PastAt(window, calls, i - 1, a);
    }
  }

  lemma SharpFromPruning(history: seq<int>, d: nat, e: nat, cutoff: int)
    requires Prunes(history, d, e, cutoff) && OldFirst(history, cutoff)
    requires OldUpTo(history, d, cutoff)
    ensures Sharp(history, e, cutoff)
  {
  }

  /** Every report of a run is exact: as many responses as lie in the window of its call. */
  ghost predicate AllExact(config: Config, calls: seq<Call>)
  {
    forall i: nat :: i < |calls| ==> StatusOf(config, calls, i).count == CountAt(config, calls, i + 1, calls[i].now)
  }

  /** A report is exact exactly if the pruning before it counts right: the response it logs itself
      is in its window. */
  lemma ReportIsExactIff(config: Config, calls: seq<Call>, i: nat)
    requires i < |calls|
    ensures StatusOf(config, calls, i).count == CountAt(config, calls, i + 1, calls[i].now)
            <==> CountsRightAt(Window(config), calls, i)
  {
    hide StatusOf, PrunedLogAt, Recent;
    StatusCountsLog(config, calls, i);
    RecentConcat(InvalidBy(calls, i), Logged(calls[i]), calls[i].now - Window(config));
    RecentStays(Logged(calls[i]), calls[i].now - Window(config));
  }

  /** Over any run, whatever the order of its times, every report is exact if and only if at each
      call the responses its window has passed were recorded before those it has not, and none
      that an earlier call's window had passed is inside its own. */
  lemma CountsAreExactIff(config: Config, calls: seq<Call>)
    ensures AllExact(config, calls) <==> Timely(Window(config), calls)
  {
    hide StatusOf, CountAt, CountsRightAt, SharpAt, InOrderAt, NoneReturnsAt;
    var window := Window(config);
    if AllExact(config, calls) {
      forall i: nat | i < |calls| ensures CountsRightAt(window, calls, i) { ReportIsExactIff(config, calls, i); }
      forall i: nat | i < |calls| ensures SharpAt(window, calls, i) { RightCountsAreSharp(window, calls, i); }
      forall i: nat | i < |calls| ensures InOrderAt(window, calls, i) && NoneReturnsAt(window, calls, i) {
        SharpIsTimely(window, calls, i);
      }
    }
    if Timely(window, calls) {
      forall i: nat | i < |calls|
        ensures StatusOf(config, calls, i).count == CountAt(config, calls, i + 1, calls[i].now)
      {
        TimelyIsSharp(window, calls, i);
        SharpCountsRight(window, calls, i);
        ReportIsExactIff(config, calls, i);
      }
    }
  }

  ghost predicate Ordered(calls: seq<Call>)
  {
    forall i, j :: 0 <= i < j < |calls| ==> calls[i].now <= calls[j].now
  }

  /** A history in the order of its times that ends by `now`. */
  ghost predicate History(history: seq<int>, now: int)
  {
    && (forall a, b :: 0 <= a < b < |history| ==> history[a] <= history[b])
    && (forall a :: 0 <= a < |history| ==> history[a] <= now)
  }

  lemma HistoryLater(history: seq<int>, before: int, now: int)
    requires History(history, before) && before <= now
    ensures History(history, now) && History(history + [now], now) && History(history + [], now)
  {
    assert history + [] == history;
  }

  lemma {:induction false} InvalidIsOrdered(calls: seq<Call>, n: nat, now: int)
    requires Ordered(calls) && n <= |calls| && (n > 0 ==> calls[n - 1].now <= now)
    ensures History(InvalidBy(calls, n), now)
  {
    if n > 0 {
      hide History;
      var before := if n == 1 then calls[0].now else calls[n - 2].now;
      InvalidIsOrdered(calls, n - 1, before);
      HistoryLater(InvalidBy(calls, n - 1), before, calls[n - 1].now);
      HistoryLater(InvalidBy(calls, n), calls[n - 1].now, now);
    }
  }

  /** Calls in the order of their times are timely, so all their reports are exact. */
  lemma OrderedIsTimely(window: int, calls: seq<Call>)
    requires Ordered(calls)
    ensures Timely(window, calls)
  {
    hide InvalidBy;
    forall i: nat | i < |calls| ensures InOrderAt(window, calls, i) && NoneReturnsAt(window, calls, i) {
      InvalidIsOrdered(calls, i, calls[i].now);
      forall k: nat, a: nat | k < i && PastAt(window, calls, k, a)
        ensures a < |InvalidBy(calls, i)| && InvalidBy(calls, i)[a] <= calls[i].now - window
      {
        HistoryGrows(calls, k, i);
        assert InvalidBy(calls, i)[a] == InvalidBy(calls, k)[a];
      }
    }
  }

  // ---- the two ways to fail

  /** Two recorders that read the clock before they take the lock can leave an entry behind: the
      older one is still counted after its window has passed. */
  lemma OutOfOrderIsOvercounted(config: Config)
    ensures var calls := [Record(401, 2), Record(401, 1), Ask(Window(config) + 1)];
            StatusOf(config, calls, 2).count == 2 && CountAt(config, calls, 3, Window(config) + 1) == 1
  {
    var calls := [Record(401, 2), Record(401, 1), Ask(Window(config) + 1)];
    StatusCountsLog(config, calls, 2);
    LeftBehind(Window(config), calls);
  }

  lemma PrunedTo(window: int, calls: seq<Call>, i: nat, log: seq<int>, rest: seq<int>)
    requires i < |calls| && LogAt(window, calls, i) == log && DropLeading(log, calls[i].now - window) == rest
    ensures LogAt(window, calls, i + 1) == rest + Logged(calls[i])
  {
  }

  lemma LeftBehind(window: int, calls: seq<Call>)
    requires window > 0 && calls == [Record(401, 2), Record(401, 1), Ask(window + 1)]
    ensures LogAt(window, calls, 3) == [2, 1] && |Recent(InvalidBy(calls, 3), 1)| == 1
  {
    hide LogAt, PrunedLogAt, InvalidBy, Leading, DropLeading, Recent;
    Histories(window, calls);
    NoneLeads([], 2 - window);
    NoneLeads([2], 1 - window);
    NoneLeads([2, 1], 1);
    PrunedTo(window, calls, 0, [], []);
    PrunedTo(window, calls, 1, [2], [2]);
    PrunedTo(window, calls, 2, [2, 1], [2, 1]);
    assert InvalidBy(calls, 3) == [2, 1];
    TwoThenOne();
  }

  lemma NoneLeads(log: seq<int>, cutoff: int)
    requires log == [] || log[0] > cutoff
    ensures DropLeading(log, cutoff) == log
  {
  }

  lemma TwoThenOne()
    ensures |Recent([2, 1], 1)| == 1
  {
    assert [2, 1][..1] == [2] && [2][..0] == [];
    assert Recent([2], 1) == [2];
  }

  lemma Histories(window: int, calls: seq<Call>)
    requires |calls| == 3
    ensures LogAt(window, calls, 0) == []
    ensures InvalidBy(calls, 3) == Logged(calls[0]) + Logged(calls[1]) + Logged(calls[2])
  {
    assert InvalidBy(calls, 1) == Logged(calls[0]);
    assert InvalidBy(calls, 2) == Logged(calls[0]) + Logged(calls[1]);
  }

  /** And a reader whose clock reading is overtaken finds an entry pruned that its own window still
      holds, so the count can be too low as well. */
  lemma OvertakenIsUndercounted(config: Config)
    ensures var calls := [Record(401, 10), Ask(10 + Window(config)), Ask(9 + Window(config))];
            StatusOf(config, calls, 2).count == 0 && CountAt(config, calls, 3, 9 + Window(config)) == 1
  {
    var calls := [Record(401, 10), Ask(10 + Window(config)), Ask(9 + Window(config))];
    StatusCountsLog(config, calls, 2);
    PrunedTooSoon(Window(config), calls);
  }

  lemma PrunedTooSoon(window: int, calls: seq<Call>)
    requires window > 0 && calls == [Record(401, 10), Ask(10 + window), Ask(9 + window)]
    ensures LogAt(window, calls, 3) == [] && |Recent(InvalidBy(calls, 3), 9)| == 1
  {
    hide LogAt, PrunedLogAt, InvalidBy, Leading, DropLeading, Recent;
    Histories(window, calls);
    NoneLeads([], 10 - window);
    NoneLeads([], 9);
    TenIsOld();
    PrunedTo(window, calls, 0, [], []);
    PrunedTo(window, calls, 1, [10], []);
    PrunedTo(window, calls, 2, [], []);
    assert InvalidBy(calls, 3) == [10];
  }

  lemma TenIsOld()
    ensures DropLeading([10], 10) == [] && |Recent([10], 9)| == 1
  {
    assert [10][..0] == [];
  }

  // ---- what is counted and when it blocks

  /** How many of the first n calls recorded a 401, 403 or 429 later than a time. */
  function InvalidCalls(calls: seq<Call>, n: nat, after: int): nat
    requires n <= |calls|
  {
    if n == 0 then 0
    else
      var call := calls[n - 1];
      InvalidCalls(calls, n - 1, after)
      + if call.Record? && call.statusCode in {401, 403, 429} && call.now > after then 1 else 0
  }

  lemma {:induction false} RecentIsInvalidCalls(calls: seq<Call>, n: nat, after: int)
    requires n <= |calls|
    ensures |Recent(InvalidBy(calls, n), after)| == InvalidCalls(calls, n, after)
  {
    if n > 0 {
      RecentIsInvalidCalls(calls, n - 1, after);
      RecentConcat(InvalidBy(calls, n - 1), Logged(calls[n - 1]), after);
    }
  }

  /** In a timely run a report says that requests are blocked exactly if the 401, 403 and 429 responses
      within the window, ten minutes unless another is set, have reached the limit, and warns exactly
      if they have reached the warning threshold, which is the limit unless a lower one is set. */
  lemma BlockedExactly(config: Config, calls: seq<Call>, i: nat)
    requires Timely(Window(config), calls) && i < |calls|
    ensures var window := if config.window > 0 then config.window else 600_000_000_000;
            var count := InvalidCalls(calls, i + 1, calls[i].now - window);
            && StatusOf(config, calls, i).count == count
            && (StatusOf(config, calls, i).blocked <==> config.limit > 0 && count >= config.limit)
            && (StatusOf(config, calls, i).warning <==>
                  && config.limit > 0
                  && count >= if 0 < config.warning < config.limit then config.warning else config.limit)
  {
    hide Step, At, Recent, InvalidBy, Timely, InvalidCalls;
    TimelyCount(config, calls, i);
    RecentIsInvalidCalls(calls, i + 1, calls[i].now - Window(config));
    ReportsByCount(config, At(config, calls, i), calls[i]);
  }

  lemma TimelyCount(config: Config, calls: seq<Call>, i: nat)
    requires Timely(Window(config), calls) && i < |calls|
    ensures StatusOf(config, calls, i).count == CountAt(config, calls, i + 1, calls[i].now)
  {
    hide StatusOf, CountAt, Timely;
    CountsAreExactIff(config, calls);
  }

  lemma ReportsByCount(config: Config, s: State, call: Call)
    ensures var status := Step(config, s, call).1;
            && (status.blocked <==> config.limit > 0 && status.count >= config.limit)
            && (status.warning <==>
                  && config.limit > 0
                  && status.count >= if 0 < config.warning < config.limit then config.warning else config.limit)
  {
  }

  // ---- warnings

  /** Trigger i is followed by no low count up to n. */
  ghost predicate Pending(triggers: nat -> bool, low: nat -> bool, i: nat, n: nat)
  {
    i < n && triggers(i) && forall k: nat :: i < k < n ==> !low(k)
  }

  ghost predicate SomePending(triggers: nat -> bool, low: nat -> bool, n: nat)
  {
    exists i: nat :: Pending(triggers, low, i, n)
  }

  lemma PendingStep(triggers: nat -> bool, low: nat -> bool, n: nat)
    ensures SomePending(triggers, low, n + 1) <==> triggers(n) || (SomePending(triggers, low, n) && !low(n))
  {
    if triggers(n) { assert Pending(triggers, low, n, n + 1); }
    if SomePending(triggers, low, n) && !low(n) {
      var i: nat :| Pending(triggers, low, i, n);
      assert Pending(triggers, low, i, n + 1);
    }
    if SomePending(triggers, low, n + 1) {
      var i: nat :| Pending(triggers, low, i, n + 1);
      if i < n { assert Pending(triggers, low, i, n); }
    }
  }

  ghost function TriggersOf(config: Config, calls: seq<Call>): nat -> bool
  {
    (i: nat) => i < |calls| && StatusOf(config, calls, i).warningTriggered
  }

  /** The pruning that call i begins with leaves fewer entries than the threshold. */
  ghost function LowOf(config: Config, calls: seq<Call>): nat -> bool
  {
    (i: nat) => i < |calls| && |Prune(config, At(config, calls, i), calls[i].now).log| < Threshold(config)
  }

  /** The flag is set exactly while a warning is pending. */
  lemma {:induction false} FlagMeansPending(config: Config, calls: seq<Call>, n: nat)
    requires n <= |calls|
    ensures At(config, calls, n).warned <==> SomePending(TriggersOf(config, calls), LowOf(config, calls), n)
  {
    hide Step, TriggersOf, LowOf;
    if n > 0 {
      FlagMeansPending(config, calls, n - 1);
      FlagStep(config, calls, n - 1);
      PendingStep(TriggersOf(config, calls), LowOf(config, calls), n - 1);
    }
  }

  lemma FlagStep(config: Config, calls: seq<Call>, i: nat)
    requires i < |calls|
    ensures At(config, calls, i + 1).warned <==>
              TriggersOf(config, calls)(i) || (At(config, calls, i).warned && !LowOf(config, calls)(i))
  {
    hide DropLeading;
  }

  /** A call after i, up to j, found a low count. */
  ghost predicate Fell(low: nat -> bool, i: nat, j: nat)
  {
    exists k: nat :: i < k <= j && low(k)
  }

  /** Every trigger before j has been followed by a low count. */
  ghost predicate AllFell(triggers: nat -> bool, low: nat -> bool, j: nat)
  {
    forall i: nat :: i < j && triggers(i) ==> Fell(low, i, j)
  }

  lemma PendingIff(triggers: nat -> bool, low: nat -> bool, j: nat)
    ensures SomePending(triggers, low, j) && !low(j) <==> !AllFell(triggers, low, j)
  {
    forall i: nat | i < j && triggers(i) ensures Pending(triggers, low, i, j) && !low(j) <==> !Fell(low, i, j) {
    }
  }

  lemma TriggersIff(config: Config, calls: seq<Call>, j: nat)
    requires j < |calls|
    ensures StatusOf(config, calls, j).warningTriggered <==>
              && calls[j].Record? && StatusOf(config, calls, j).count >= Threshold(config) > 0
              && !(At(config, calls, j).warned && !LowOf(config, calls)(j))
  {
    hide DropLeading;
  }

  /** Over any run, whatever the order of its times, a call triggers the warning exactly if it
      records a response, the count has reached the threshold, and every earlier warning has been
      followed by a pruned count below it. */
  lemma WarnsOncePerExcursion(config: Config, calls: seq<Call>, j: nat)
    requires j < |calls|
    ensures StatusOf(config, calls, j).warningTriggered <==>
              && calls[j].Record? && StatusOf(config, calls, j).count >= Threshold(config) > 0
              && AllFell(TriggersOf(config, calls), LowOf(config, calls), j)
  {
    hide StatusOf, At, TriggersOf, LowOf, AllFell, SomePending;
    FlagMeansPending(config, calls, j);
    TriggersIff(config, calls, j);
    PendingIff(TriggersOf(config, calls), LowOf(config, calls), j);
  }

  /** In a timely run the pruned counts are those of the history as well. */
  lemma LowInTimelyRuns(config: Config, calls: seq<Call>, i: nat)
    requires Timely(Window(config), calls) && i < |calls|
    ensures LowOf(config, calls)(i) <==> CountAt(config, calls, i, calls[i].now) < Threshold(config)
  {
    hide Prune, At, InvalidBy, PrunedLogAt;
    TimelyIsSharp(Window(config), calls, i);
    SharpCountsRight(Window(config), calls, i);
    StatusCountsLog(config, calls, i);
  }
}
