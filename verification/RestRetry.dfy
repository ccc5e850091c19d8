/** The retry loop of one REST request, for every sequence of outcomes. Durations are nanoseconds. */
module RestRetry {
  import opened Prelude

  datatype Config = Config(method_: string, retryUnsafeMethods: bool, maxRestRetries: int, shouldRetryOnRateLimit: bool,
                           maxRateLimitWait: int, maxRetryWait: int)

  /** What one attempt meets: no request could be built, the network failed, or a response came,
      with the decoded wait of a 429 and whether the invalid-request limit is reached. */
  datatype Reply =
    | NoRequest
    | NetworkError(contextDone: bool)
    | Response(status: int, readable: bool, blocked: bool, retryAfter: Option<int>)

  /** The reply to an attempt, the clock that seeds the jitter, and how the wait and the locking
      after it go: relocking may yield another bucket. */
  datatype Outcome = Outcome(reply: Reply, clock: nat, interrupted: bool, relocked: Option<nat>)

  datatype Result =
    | Body | InvalidRequest | Cancelled | NetworkFailed | Unreadable | Blocked | BadRateLimit | RateLimited
    | TooManyRetries | WaitTooLong | RestError | Unauthorized | WaitFailed | RelockFailed

  datatype Action = Sent(reply: Reply) | Released(bucket: nat) | Waited(delay: int) | Locked(bucket: nat)

  function CanRetryMethod(cfg: Config): bool
  {
    cfg.retryUnsafeMethods || cfg.method_ in ["GET", "HEAD", "PUT", "DELETE", "OPTIONS", "TRACE"]
  }

  function IsTransientStatus(status: int): bool
  {
    status == 500 || status == 502 || status == 504 || status == 524
  }

  function RestRetryDelay(retry: int, clock: nat): int
  {
    var base := 250 * MILLISECOND * (if retry <= 0 then 1 else if retry == 1 then 2 else if retry == 2 then 4 else 8);
    base + clock % (base / 4)
  }

  function RateLimitRetryDelay(delay: int, maximum: int, clock: nat): int
  {
    if delay <= 0 then delay
    else
      var jitterRange := if delay / 10 > 50 * MILLISECOND then 50 * MILLISECOND else delay / 10;
      if jitterRange <= 0 then delay
      else
        var jitter := clock % jitterRange;
        if maximum > 0 && delay + jitter > maximum then delay else delay + jitter
  }

  /** The jittered delay is never below the announced one, and stays within the maximum. */
  lemma RateLimitDelayBounds(delay: int, maximum: int, clock: nat)
    requires 0 <= delay <= maximum
    ensures delay <= RateLimitRetryDelay(delay, maximum, clock) <= maximum
    ensures RateLimitRetryDelay(delay, maximum, clock) <= delay + delay / 10
  {
  }

  /** Backoff grows from a quarter second to two seconds, with less than a quarter on top. */
  lemma RestDelayBounds(retry: int, clock: nat)
    ensures 250 * MILLISECOND <= RestRetryDelay(retry, clock) < 2500 * MILLISECOND
    ensures forall later: int, c: nat :: later > retry && retry < 3 && 0 < later ==>
              RestRetryDelay(retry, clock) < RestRetryDelay(later, c)
  {
  }

  datatype Decision = Stop(result: Result) | Again(delay: int)

  function Decide(cfg: Config, reply: Reply, retries: int, clock: nat): Decision
  {
    match reply
    case NoRequest => Stop(InvalidRequest)
    case NetworkError(contextDone) =>
      if contextDone then Stop(Cancelled)
      else if retries >= cfg.maxRestRetries || !CanRetryMethod(cfg) then Stop(NetworkFailed)
      else Again(RestRetryDelay(retries, clock))
    case Response(status, readable, blocked, retryAfter) =>
      if !readable then Stop(Unreadable)
      else if blocked && status != 429 then Stop(Blocked)
      else if 200 <= status < 300 then Stop(Body)
      else if status == 429 then
        if retryAfter.None? then Stop(BadRateLimit)
        else if blocked then Stop(Blocked)
        else if !cfg.shouldRetryOnRateLimit then Stop(RateLimited)
        else if retries >= cfg.maxRestRetries then Stop(TooManyRetries)
        else if retryAfter.value < 0 || retryAfter.value > cfg.maxRateLimitWait then Stop(WaitTooLong)
        else Again(RateLimitRetryDelay(retryAfter.value, cfg.maxRateLimitWait, clock))
      else if IsTransientStatus(status) then
        if retries >= cfg.maxRestRetries || !CanRetryMethod(cfg) then
          Stop(if retries >= cfg.maxRestRetries && CanRetryMethod(cfg) then TooManyRetries else RestError)
        else Again(RestRetryDelay(retries, clock))
      else if status == 401 then Stop(Unauthorized)
      else Stop(RestError)
  }

  /** Whether a wait may begin. */
  predicate WaitFits(cfg: Config, delay: int, totalWait: int)
  {
    delay >= 0 && (cfg.maxRetryWait <= 0 || totalWait + delay <= cfg.maxRetryWait)
  }

  /** An attempt ends the request, or another follows with the bucket locked for it and the total
      wait so far. */
  datatype Verdict = Finished(result: Result) | GoOn(bucket: nat, totalWait: int)

  /** Sending and releasing: nothing is sent if no request could be built. */
  function SendActions(reply: Reply, bucket: nat): seq<Action>
  {
    if reply.NoRequest? then [Released(bucket)] else [Sent(reply), Released(bucket)]
  }

  /** What one attempt under a locked bucket does, up to and including the locking for the next. */
  function Attempt(cfg: Config, o: Outcome, bucket: nat, retries: int, totalWait: int): (r: (seq<Action>, Verdict))
    ensures r.1.GoOn? ==> retries < cfg.maxRestRetries
  {
    var sent := SendActions(o.reply, bucket);
    match Decide(cfg, o.reply, retries, o.clock)
    case Stop(result) => (sent, Finished(result))
    case Again(delay) =>
      if !WaitFits(cfg, delay, totalWait) then (sent, Finished(WaitFailed))
      else if o.interrupted then (sent + [Waited(delay)], Finished(WaitFailed))
      else if o.relocked.None? then (sent + [Waited(delay)], Finished(RelockFailed))
      else (sent + [Waited(delay), Locked(o.relocked.value)], GoOn(o.relocked.value, totalWait + delay))
  }

  /** What the loop does from attempt n on, and what it returns. */
  function Run(cfg: Config, world: nat -> Outcome, n: nat, bucket: nat, retries: int, totalWait: int):
    (seq<Action>, Result)
    decreases cfg.maxRestRetries - retries
  {
    var (one, verdict) := Attempt(cfg, world(n), bucket, retries, totalWait);
    match verdict
    case Finished(result) => (one, result)
    case GoOn(next, total) =>
      var (rest, result) := Run(cfg, world, n + 1, next, retries + 1, total);
      (one + rest, result)
  }

  /** What a request starts from: the bucket its caller locked, the sequence number of its first
      retry, and whether there is a limiter and the invalid-request limit is reached. */
  datatype Start = Start(bucket: nat, sequence: int, hasLimiter: bool, blocked: bool)

  /** The whole request: nothing is sent without a limiter or past the invalid-request limit. */
  function Request(cfg: Config, world: nat -> Outcome, start: Start): (seq<Action>, Result)
  {
    if !start.hasLimiter then ([Released(start.bucket)], InvalidRequest)
    else if start.blocked then ([Released(start.bucket)], Blocked)
    else Run(cfg, world, 0, start.bucket, start.sequence, 0)
  }

  /** The wait before a retry, added to the total. */
  method WaitForRetry(cfg: Config, delay: int, totalWait: int, interrupted: bool)
    returns (total: int, waited: seq<Action>, ok: bool)
    ensures total == if WaitFits(cfg, delay, totalWait) then totalWait + delay else totalWait
    ensures waited == if WaitFits(cfg, delay, totalWait) then [Waited(delay)] else []
    ensures ok <==> WaitFits(cfg, delay, totalWait) && !interrupted
  {
    if delay < 0 {
      return totalWait, [], false;
    }
    if cfg.maxRetryWait > 0 && totalWait + delay > cfg.maxRetryWait {
      return totalWait, [], false;
    }
    return totalWait + delay, [Waited(delay)], !interrupted;
  }

  /** The branches taken on a reply. Another attempt follows only a reply that may be repeated, with
      retries left, after a wait that is not negative; a body only a success. */
  method HandleReply(cfg: Config, reply: Reply, retries: int, clock: nat) returns (d: Decision)
    ensures d == Decide(cfg, reply, retries, clock)
    ensures d.Again? <==> Repeatable(cfg, reply) && retries < cfg.maxRestRetries && WaitAllowed(cfg, reply)
    ensures d.Again? ==> d.delay >= 0
    ensures d == Stop(Body) <==> Succeeded(reply)
  {
    if reply.NoRequest? {
      return Stop(InvalidRequest);
    }
    if reply.NetworkError? {
      if reply.contextDone {
        return Stop(Cancelled);
      }
      if retries >= cfg.maxRestRetries || !CanRetryMethod(cfg) {
        return Stop(NetworkFailed);
      }
      return Again(RestRetryDelay(retries, clock));
    }
    var Response(status, readable, blocked, retryAfter) := reply;
    if !readable {
      return Stop(Unreadable);
    }
    if blocked && status != 429 {
      return Stop(Blocked);
    }
    if 200 <= status < 300 {
      return Stop(Body);
    } else if status == 429 {
      if retryAfter.None? {
        return Stop(BadRateLimit);
      }
      if blocked {
        return Stop(Blocked);
      }
      if !cfg.shouldRetryOnRateLimit {
        return Stop(RateLimited);
      }
      if retries >= cfg.maxRestRetries {
        return Stop(TooManyRetries);
      }
      if retryAfter.value < 0 || retryAfter.value > cfg.maxRateLimitWait {
        return Stop(WaitTooLong);
      }
      return Again(RateLimitRetryDelay(retryAfter.value, cfg.maxRateLimitWait, clock));
    } else if IsTransientStatus(status) {
      if retries >= cfg.maxRestRetries || !CanRetryMethod(cfg) {
        if retries >= cfg.maxRestRetries && CanRetryMethod(cfg) {
          return Stop(TooManyRetries);
        }
        return Stop(RestError);
      }
      return Again(RestRetryDelay(retries, clock));
    } else if status == 401 {
      return Stop(Unauthorized);
    }
    return Stop(RestError);
  }

  method MakeAttempt(cfg: Config, o: Outcome, bucket: nat, retries: int, totalWait: int)
    returns (trace: seq<Action>, verdict: Verdict)
    ensures (trace, verdict) == Attempt(cfg, o, bucket, retries, totalWait)
  {
    trace := if o.reply.NoRequest? then [Released(bucket)] else [Sent(o.reply), Released(bucket)];
    var decision := HandleReply(cfg, o.reply, retries, o.clock);
    if decision.Stop? {
      return trace, Finished(decision.result);
    }
    var total, waited, ok := WaitForRetry(cfg, decision.delay, totalWait, o.interrupted);
    ghost var sent := trace;
    assert sent + [] == sent;
    trace := trace + waited;
    if !ok {
      return trace, Finished(WaitFailed);
    }
    if o.relocked.None? {
      return trace, Finished(RelockFailed);
    }
    var next := o.relocked.value;
    assert sent + [Waited(decision.delay)] + [Locked(next)] == sent + [Waited(decision.delay), Locked(next)];
    return trace + [Locked(next)], GoOn(next, total);
  }

  method RequestWithLockedBucket(cfg: Config, world: nat -> Outcome, start: Start)
    returns (trace: seq<Action>, result: Result)
    ensures (trace, result) == Request(cfg, world, start)
  {
    if !start.hasLimiter {
      return [Released(start.bucket)], InvalidRequest;
    }
    if start.blocked {
      return [Released(start.bucket)], Blocked;
    }
    trace := [];
    var n, bucket, retries, totalWait := 0, start.bucket, start.sequence, 0;
    ghost var whole := Run(cfg, world, 0, bucket, retries, 0);
    assert trace + whole.0 == whole.0;
    while true
      invariant n >= 0
      invariant whole.0 == trace + Run(cfg, world, n, bucket, retries, totalWait).0
      invariant whole.1 == Run(cfg, world, n, bucket, retries, totalWait).1
      decreases cfg.maxRestRetries - retries
    {
      var one, verdict := MakeAttempt(cfg, world(n), bucket, retries, totalWait);
      trace := trace + one;
      if verdict.Finished? {
        return trace, verdict.result;
      }
      n, bucket, retries, totalWait := n + 1, verdict.bucket, retries + 1, verdict.totalWait;
    }
  }

  // ---- what every run keeps

  /** The replies received, in order. */
  function Replies(trace: seq<Action>): seq<Reply>
  {
    if trace == [] then []
    else (if trace[0].Sent? then [trace[0].reply] else []) + Replies(trace[1..])
  }

  function TotalWait(trace: seq<Action>): int
  {
    if trace == [] then 0
    else (if trace[0].Waited? then trace[0].delay else 0) + TotalWait(trace[1..])
  }

  /** Sending needs a bucket held, releasing the one that is, and waiting and locking none. */
  predicate Allowed(action: Action, held: Option<nat>)
  {
    match action
    case Sent(_) => held.Some?
    case Released(bucket) => held == Some(bucket)
    case Waited(_) => held.None?
    case Locked(_) => held.None?
  }

  /** The bucket held after an action. */
  function HeldNext(action: Action, held: Option<nat>): Option<nat>
  {
    if action.Released? then None else if action.Locked? then Some(action.bucket) else held
  }

  /** Which bucket is held after a trace; None if the trace breaks the rules. */
  function HeldAfter(trace: seq<Action>, held: Option<nat>): Option<Option<nat>>
  {
    if trace == [] then Some(held)
    else if Allowed(trace[0], held) then HeldAfter(trace[1..], HeldNext(trace[0], held))
    else None
  }

  lemma TraceCons(action: Action, rest: seq<Action>, held: Option<nat>)
    ensures Replies([action] + rest) == (if action.Sent? then [action.reply] else []) + Replies(rest)
    ensures TotalWait([action] + rest) == (if action.Waited? then action.delay else 0) + TotalWait(rest)
    ensures Allowed(action, held) ==> HeldAfter([action] + rest, held) == HeldAfter(rest, HeldNext(action, held))
  {
    assert ([action] + rest)[1..] == rest;
  }

  lemma {:induction false} TraceConcat(a: seq<Action>, b: seq<Action>, held: Option<nat>)
    ensures Replies(a + b) == Replies(a) + Replies(b) && TotalWait(a + b) == TotalWait(a) + TotalWait(b)
    ensures HeldAfter(a, held).Some? ==> HeldAfter(a + b, held) == HeldAfter(b, HeldAfter(a, held).value)
  {
    if a == [] {
      assert a + b == b;
    } else {
      TraceConcat(a[1..], b, HeldNext(a[0], held));
      TraceCons(a[0], a[1..] + b, held);
      assert a + b == [a[0]] + (a[1..] + b);
    }
  }

  lemma TraceOfOne(action: Action, held: Option<nat>)
    ensures Replies([action]) == (if action.Sent? then [action.reply] else [])
    ensures TotalWait([action]) == if action.Waited? then action.delay else 0
    ensures Allowed(action, held) ==> HeldAfter([action], held) == Some(HeldNext(action, held))
  {
    assert [action][1..] == [];
  }

  lemma SentFacts(reply: Reply, bucket: nat)
    ensures var sent := SendActions(reply, bucket);
            && Replies(sent) == (if reply.NoRequest? then [] else [reply]) && TotalWait(sent) == 0
            && HeldAfter(sent, Some(bucket)) == Some(None)
  {
    hide Replies, TotalWait, HeldAfter;
    TraceOfOne(Released(bucket), Some(bucket));
    TraceCons(Sent(reply), [Released(bucket)], Some(bucket));
    assert [Sent(reply), Released(bucket)] == [Sent(reply)] + [Released(bucket)];
  }

  lemma WaitFacts(delay: int, next: nat)
    ensures var waited := [Waited(delay)];
            Replies(waited) == [] && TotalWait(waited) == delay && HeldAfter(waited, None) == Some(None)
    ensures var relocked := [Waited(delay), Locked(next)];
            Replies(relocked) == [] && TotalWait(relocked) == delay && HeldAfter(relocked, None) == Some(Some(next))
  {
    hide Replies, TotalWait, HeldAfter;
    TraceOfOne(Waited(delay), None);
    TraceOfOne(Locked(next), None);
    TraceCons(Waited(delay), [Locked(next)], None);
    assert [Waited(delay), Locked(next)] == [Waited(delay)] + [Locked(next)];
  }

  lemma AttemptFacts(cfg: Config, o: Outcome, bucket: nat, retries: int, totalWait: int)
    ensures var (one, verdict) := Attempt(cfg, o, bucket, retries, totalWait);
            && Replies(one) == (if o.reply.NoRequest? then [] else [o.reply])
            && HeldAfter(one, Some(bucket)) == Some(if verdict.GoOn? then Some(verdict.bucket) else None)
            && (verdict.GoOn? ==> verdict.totalWait == totalWait + TotalWait(one))
            && (TotalWait(one) == 0 || WaitFits(cfg, TotalWait(one), totalWait))
  {
    hide Replies, TotalWait, HeldAfter;
    var sent := SendActions(o.reply, bucket);
    SentFacts(o.reply, bucket);
    var d, next := Decide(cfg, o.reply, retries, o.clock), if o.relocked.Some? then o.relocked.value else 0;
    if d.Again? {
      WaitFacts(d.delay, next);
      TraceConcat(sent, [Waited(d.delay)], Some(bucket));
      TraceConcat(sent, [Waited(d.delay), Locked(next)], Some(bucket));
    }
  }

  /** A request makes no more attempts than the retries left and one, and keeps its total wait
      within the maximum. */
  lemma {:induction false} RunIsBounded(cfg: Config, world: nat -> Outcome, n: nat, bucket: nat, retries: int,
                                        totalWait: int)
    requires cfg.maxRetryWait > 0 ==> totalWait <= cfg.maxRetryWait
    ensures |Replies(Run(cfg, world, n, bucket, retries, totalWait).0)| <= Max0(cfg.maxRestRetries - retries) + 1
    ensures cfg.maxRetryWait > 0 ==>
              totalWait + TotalWait(Run(cfg, world, n, bucket, retries, totalWait).0) <= cfg.maxRetryWait
    decreases cfg.maxRestRetries - retries
  {
    hide Attempt, Replies, TotalWait, HeldAfter;
    var (one, verdict) := Attempt(cfg, world(n), bucket, retries, totalWait);
    AttemptFacts(cfg, world(n), bucket, retries, totalWait);
    if verdict.GoOn? {
      RunIsBounded(cfg, world, n + 1, verdict.bucket, retries + 1, verdict.totalWait);
      TraceConcat(one, Run(cfg, world, n + 1, verdict.bucket, retries + 1, verdict.totalWait).0, Some(bucket));
    }
  }

  /** Every bucket locked is released exactly once: never another than the one held, never twice,
      never left held, never taken while another is held, never missing while a request is sent, and
      never held during a wait. */
  lemma {:induction false} RunReleasesLock(cfg: Config, world: nat -> Outcome, n: nat, bucket: nat, retries: int,
                                           totalWait: int)
    ensures HeldAfter(Run(cfg, world, n, bucket, retries, totalWait).0, Some(bucket)) == Some(None)
    decreases cfg.maxRestRetries - retries
  {
    hide Attempt, Replies, TotalWait, HeldAfter;
    var (one, verdict) := Attempt(cfg, world(n), bucket, retries, totalWait);
    AttemptFacts(cfg, world(n), bucket, retries, totalWait);
    if verdict.GoOn? {
      RunReleasesLock(cfg, world, n + 1, verdict.bucket, retries + 1, verdict.totalWait);
      TraceConcat(one, Run(cfg, world, n + 1, verdict.bucket, retries + 1, verdict.totalWait).0, Some(bucket));
    }
  }

  /** A reply after which the request may be sent again: a network error or a transient status of a
      method that may be retried, or a readable 429. */
  predicate Repeatable(cfg: Config, reply: Reply)
  {
    match reply
    case NoRequest => false
    case NetworkError(contextDone) => !contextDone && CanRetryMethod(cfg)
    case Response(status, readable, blocked, retryAfter) =>
      && readable && !blocked
      && ((status == 429 && retryAfter.Some? && cfg.shouldRetryOnRateLimit)
          || (IsTransientStatus(status) && CanRetryMethod(cfg)))
  }

  /** The announced wait of a 429 is neither negative nor too long. */
  predicate WaitAllowed(cfg: Config, reply: Reply)
  {
    reply.Response? && reply.status == 429 && reply.retryAfter.Some? ==>
      0 <= reply.retryAfter.value <= cfg.maxRateLimitWait
  }

  predicate Succeeded(reply: Reply)
  {
    reply.Response? && reply.readable && !reply.blocked && 200 <= reply.status < 300
  }

  /** The branches of the loop, put as what they are for: another attempt is made exactly after a
      reply that may be repeated, with retries left and an acceptable wait, and a body is returned
      exactly for a success. */
  lemma RetriesExactlyWhen(cfg: Config, reply: Reply, retries: int, clock: nat)
    ensures Decide(cfg, reply, retries, clock).Again? <==>
              Repeatable(cfg, reply) && retries < cfg.maxRestRetries && WaitAllowed(cfg, reply)
    ensures Decide(cfg, reply, retries, clock) == Stop(Body) <==> Succeeded(reply)
    ensures !(Succeeded(reply) && Repeatable(cfg, reply))
  {
  }

  /** Every reply but the last is one that may be repeated. */
  ghost predicate OnlyRepeatable(cfg: Config, replies: seq<Reply>)
  {
    forall i :: 0 <= i < |replies| - 1 ==> Repeatable(cfg, replies[i])
  }

  lemma GoesOnAfterRepeatable(cfg: Config, o: Outcome, bucket: nat, retries: int, totalWait: int)
    ensures Attempt(cfg, o, bucket, retries, totalWait).1.GoOn? ==> Repeatable(cfg, o.reply)
    ensures Attempt(cfg, o, bucket, retries, totalWait).1 == Finished(Body) <==> Succeeded(o.reply)
  {
    RetriesExactlyWhen(cfg, o.reply, retries, o.clock);
    hide Decide;
  }

  ghost predicate EndsWell(replies: seq<Reply>)
  {
    |replies| > 0 && Succeeded(replies[|replies| - 1])
  }

  /** Which replies are answered by another attempt, and what a body comes from. */
  lemma {:induction false} RunRepeatsOnlyRepeatable(cfg: Config, world: nat -> Outcome, n: nat, bucket: nat,
                                                    retries: int, totalWait: int)
    ensures OnlyRepeatable(cfg, Replies(Run(cfg, world, n, bucket, retries, totalWait).0))
    ensures Run(cfg, world, n, bucket, retries, totalWait).1 == Body <==>
              EndsWell(Replies(Run(cfg, world, n, bucket, retries, totalWait).0))
    decreases cfg.maxRestRetries - retries
  {
    hide Attempt, Replies, TotalWait, HeldAfter;
    var (one, verdict) := Attempt(cfg, world(n), bucket, retries, totalWait);
    AttemptFacts(cfg, world(n), bucket, retries, totalWait);
    GoesOnAfterRepeatable(cfg, world(n), bucket, retries, totalWait);
    RetriesExactlyWhen(cfg, world(n).reply, retries, world(n).clock);
    if verdict.GoOn? {
      RunRepeatsOnlyRepeatable(cfg, world, n + 1, verdict.bucket, retries + 1, verdict.totalWait);
      TraceConcat(one, Run(cfg, world, n + 1, verdict.bucket, retries + 1, verdict.totalWait).0, Some(bucket));
    }
  }

  /** A rate-limited request is not sent again before the announced time has been waited for. */
  lemma RateLimitIsWaitedOut(cfg: Config, o: Outcome, bucket: nat, retries: int, totalWait: int)
    requires Attempt(cfg, o, bucket, retries, totalWait).1.GoOn? && o.reply.Response? && o.reply.status == 429
    ensures o.reply.retryAfter.Some?
    ensures 0 <= o.reply.retryAfter.value <= TotalWait(Attempt(cfg, o, bucket, retries, totalWait).0)
    ensures TotalWait(Attempt(cfg, o, bucket, retries, totalWait).0) <= cfg.maxRateLimitWait
  {
    AttemptFacts(cfg, o, bucket, retries, totalWait);
    RateLimitDelayBounds(o.reply.retryAfter.value, cfg.maxRateLimitWait, o.clock);
  }

  // ---- main results

  /** No more attempts than the retries allow, no more waiting than allowed in total. */
  lemma AttemptsAndWaitsAreBounded(cfg: Config, world: nat -> Outcome, start: Start)
    ensures var trace := Request(cfg, world, start).0;
            && |Replies(trace)| <= Max0(cfg.maxRestRetries - start.sequence) + 1
            && (cfg.maxRetryWait > 0 ==> TotalWait(trace) <= cfg.maxRetryWait)
  {
    hide Run;
    RunIsBounded(cfg, world, 0, start.bucket, start.sequence, 0);
  }

  /** The bucket locked by the caller, and every one locked in its place, is released by the end,
      whatever happens. */
  lemma LockIsReleased(cfg: Config, world: nat -> Outcome, start: Start)
    ensures HeldAfter(Request(cfg, world, start).0, Some(start.bucket)) == Some(None)
  {
    hide Run;
    RunReleasesLock(cfg, world, 0, start.bucket, start.sequence, 0);
  }

  /** Methods that may change something each time they are sent are sent again only after a 429. */
  lemma UnsafeResentOnlyAfter429(cfg: Config, world: nat -> Outcome, start: Start, i: nat)
    requires !cfg.retryUnsafeMethods && cfg.method_ !in {"GET", "HEAD", "PUT", "DELETE", "OPTIONS", "TRACE"}
    requires i + 1 < |Replies(Request(cfg, world, start).0)|
    ensures var reply := Replies(Request(cfg, world, start).0)[i];
            reply.Response? && reply.status == 429
  {
    hide Run;
    RunRepeatsOnlyRepeatable(cfg, world, 0, start.bucket, start.sequence, 0);
  }

  /** What any request is sent again after: a network error, one of four server errors, or a 429. */
  lemma ResentOnlyAfter(cfg: Config, world: nat -> Outcome, start: Start, i: nat)
    requires i + 1 < |Replies(Request(cfg, world, start).0)|
    ensures var reply := Replies(Request(cfg, world, start).0)[i];
            || reply == NetworkError(false)
            || (reply.Response? && reply.readable && !reply.blocked && reply.status in {429, 500, 502, 504, 524})
  {
    hide Run, CanRetryMethod;
    RunRepeatsOnlyRepeatable(cfg, world, 0, start.bucket, start.sequence, 0);
  }

  /** The outcome lets another attempt follow: the wait is not interrupted and a bucket is locked. */
  predicate GoesThrough(o: Outcome)
  {
    !o.interrupted && o.relocked.Some?
  }

  /** A failure that a repetition may mend: the network's, or one of four server errors. */
  predicate Passing(reply: Reply)
  {
    match reply
    case NetworkError(contextDone) => !contextDone
    case Response(status, readable, blocked, _) => readable && !blocked && status in {500, 502, 504, 524}
    case _ => false
  }

  /** And it is sent again after them: for a method that may be repeated, exactly if there are retries
      left and the backoff fits into what may still be waited. */
  lemma SafeIsResentExactly(cfg: Config, o: Outcome, bucket: nat, retries: int, totalWait: int)
    requires cfg.retryUnsafeMethods || cfg.method_ in {"GET", "HEAD", "PUT", "DELETE", "OPTIONS", "TRACE"}
    requires Passing(o.reply)
    ensures Attempt(cfg, o, bucket, retries, totalWait).1.GoOn? <==>
              && retries < cfg.maxRestRetries && GoesThrough(o)
              && (cfg.maxRetryWait <= 0 || totalWait + RestRetryDelay(retries, o.clock) <= cfg.maxRetryWait)
  {
    RestDelayBounds(retries, o.clock);
  }

  /** The backoff: a quarter second doubled at each retry up to two seconds, with less than a quarter
      on top. */
  lemma BackoffDoubles(retry: int, clock: nat)
    ensures var base := 250 * MILLISECOND * (if retry <= 0 then 1 else if retry >= 3 then 8 else 2 * retry);
            base <= RestRetryDelay(retry, clock) && 4 * RestRetryDelay(retry, clock) < 5 * base
  {
  }

  /** After a 429 it is sent again exactly if its wait was announced, that is wanted, there are retries
      left, and the wait is within both its own maximum and what may still be waited. */
  lemma RateLimitedIsResentExactly(cfg: Config, o: Outcome, bucket: nat, retries: int, totalWait: int)
    requires o.reply.Response? && o.reply.readable && o.reply.status == 429
    ensures var announced := o.reply.retryAfter;
            Attempt(cfg, o, bucket, retries, totalWait).1.GoOn? <==>
              && !o.reply.blocked && cfg.shouldRetryOnRateLimit && retries < cfg.maxRestRetries && GoesThrough(o)
              && announced.Some? && 0 <= announced.value <= cfg.maxRateLimitWait
              && (var delay := RateLimitRetryDelay(announced.value, cfg.maxRateLimitWait, o.clock);
                  cfg.maxRetryWait <= 0 || totalWait + delay <= cfg.maxRetryWait)
  {
    if o.reply.retryAfter.Some? && 0 <= o.reply.retryAfter.value <= cfg.maxRateLimitWait {
      RateLimitDelayBounds(o.reply.retryAfter.value, cfg.maxRateLimitWait, o.clock);
    }
  }

  /** How an attempt that is not followed by another ends. */
  lemma EndsBecause(cfg: Config, o: Outcome, bucket: nat, retries: int, totalWait: int)
    ensures var verdict, reply := Attempt(cfg, o, bucket, retries, totalWait).1, o.reply;
            var answered := reply.Response? && reply.readable;
            var repeatable := cfg.retryUnsafeMethods
              || cfg.method_ in {"GET", "HEAD", "PUT", "DELETE", "OPTIONS", "TRACE"};
            var left := retries < cfg.maxRestRetries;
            var limited := answered && reply.status == 429 && reply.retryAfter.Some? && !reply.blocked;
            && (verdict == Finished(InvalidRequest) <==> reply.NoRequest?)
            && (verdict == Finished(Cancelled) <==> reply == NetworkError(true))
            && (verdict == Finished(Unreadable) <==> reply.Response? && !reply.readable)
            && (verdict == Finished(Blocked) <==>
                  answered && reply.blocked && (reply.status == 429 ==> reply.retryAfter.Some?))
            && (verdict == Finished(BadRateLimit) <==> answered && reply.status == 429 && reply.retryAfter.None?)
            && (verdict == Finished(Unauthorized) <==> answered && !reply.blocked && reply.status == 401)
            && (verdict == Finished(RateLimited) <==> limited && !cfg.shouldRetryOnRateLimit)
            && (verdict == Finished(WaitTooLong) <==>
                  && limited && cfg.shouldRetryOnRateLimit && retries < cfg.maxRestRetries
                  && !(0 <= reply.retryAfter.value <= cfg.maxRateLimitWait))
            && (verdict == Finished(NetworkFailed) <==> reply == NetworkError(false) && !(repeatable && left))
            && (verdict == Finished(TooManyRetries) <==>
                  && !left
                  && (if limited then cfg.shouldRetryOnRateLimit else Passing(reply) && reply.Response? && repeatable))
            && (verdict == Finished(RestError) <==>
                  && answered && !reply.blocked && !Succeeded(reply) && reply.status != 401 && reply.status != 429
                  && (Passing(reply) ==> !repeatable))
  {
  }

  /** Without a limiter, or past the invalid-request limit, nothing is sent; otherwise the first attempt
      is made. */
  lemma SendsUnlessRefused(cfg: Config, world: nat -> Outcome, start: Start)
    ensures var (trace, result) := Request(cfg, world, start);
            && (!start.hasLimiter ==> Replies(trace) == [] && result == InvalidRequest)
            && (start.hasLimiter && start.blocked ==> Replies(trace) == [] && result == Blocked)
            && (start.hasLimiter && !start.blocked && !world(0).reply.NoRequest? ==>
                  Replies(trace) != [] && Replies(trace)[0] == world(0).reply)
  {
    hide Attempt;
    TraceOfOne(Released(start.bucket), Some(start.bucket));
    var (one, verdict) := Attempt(cfg, world(0), start.bucket, start.sequence, 0);
    AttemptFacts(cfg, world(0), start.bucket, start.sequence, 0);
    if verdict.GoOn? {
      TraceConcat(one, Run(cfg, world, 1, verdict.bucket, start.sequence + 1, verdict.totalWait).0, Some(start.bucket));
    }
  }

  /** A request returns a body exactly if the last reply it received is a success, and no success is
      followed by another attempt. */
  lemma BodyIsLastReply(cfg: Config, world: nat -> Outcome, start: Start)
    ensures var (trace, result) := Request(cfg, world, start);
            && (result == Body <==> EndsWell(Replies(trace)))
            && forall i :: 0 <= i < |Replies(trace)| - 1 ==> !Succeeded(Replies(trace)[i])
  {
    hide Run, CanRetryMethod;
    RunRepeatsOnlyRepeatable(cfg, world, 0, start.bucket, start.sequence, 0);
  }
}
