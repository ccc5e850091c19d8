/** The only writer of one gateway connection: a queue of requests and a log of recent sends
    that keeps the connection within Discord's send limit. */
module GatewayWriter {
  import opened Clocks
  import opened Prelude
  import opened SlidingWindow

  const SEND_LIMIT: nat := 120
  const SEND_WINDOW: int := 60_000_000_000

  datatype Outcome = Written | ContextError | WaitFailed | WriteFailed | NoWriter

  datatype Request = Request(id: nat, data: string)

  datatype Answer = Answer(request: Request, outcome: Outcome)

  /** The kept log is a suffix of all sends; what was dropped has left the window; and the whole
      log is spaced by the window over the limit. */
  ghost predicate Tracks(sends: seq<int>, sentAt: seq<int>, now: int)
  {
    && |sentAt| <= |sends| && sentAt == sends[|sends| - |sentAt|..]
    && |sentAt| <= SEND_LIMIT
    && Sorted(sends) && (forall i :: 0 <= i < |sends| ==> sends[i] <= now)
    && (forall i :: 0 <= i < |sends| - |sentAt| ==> sends[i] + SEND_WINDOW <= now)
    && Spaced(sends, SEND_LIMIT, SEND_WINDOW)
  }

  lemma TracksLater(sends: seq<int>, sentAt: seq<int>, now: int, later: int)
    requires Tracks(sends, sentAt, now) && now <= later
    ensures Tracks(sends, sentAt, later)
  {
  }

  lemma TracksPruned(sends: seq<int>, sentAt: seq<int>, now: int, first: nat)
    requires Tracks(sends, sentAt, now) && first <= |sentAt|
    requires forall i :: 0 <= i < first ==> sentAt[i] + SEND_WINDOW <= now
    ensures Tracks(sends, sentAt[first..], now)
  {
    var d := |sends| - |sentAt|;
    forall i | 0 <= i < d + first ensures sends[i] + SEND_WINDOW <= now {
      if i >= d { assert sends[i] == sentAt[i - d]; }
    }
  }

  lemma TracksSent(sends: seq<int>, sentAt: seq<int>, now: int, t: int)
    requires Tracks(sends, sentAt, now) && |sentAt| < SEND_LIMIT && now <= t
    ensures Tracks(sends + [t], sentAt + [t], t)
  {
    AppendSorted(sends, t);
    AppendSpaced(sends, t, SEND_LIMIT, SEND_WINDOW);
  }

  lemma NothingSent(now: int)
    ensures Tracks([], [], now) && WrittenData([]) == [] && AllWritten([])
  {
  }

  lemma TracksSize(sends: seq<int>, sentAt: seq<int>, now: int)
    requires Tracks(sends, sentAt, now)
    ensures |sentAt| <= SEND_LIMIT && forall i :: 0 <= i < |sentAt| ==> sentAt[i] <= now
  {
  }

  lemma TracksSpaced(sends: seq<int>, sentAt: seq<int>, now: int)
    requires Tracks(sends, sentAt, now)
    ensures Sorted(sends) && Spaced(sends, SEND_LIMIT, SEND_WINDOW)
  {
  }

  class GatewayWriteQueue {
    const clock: Clock
    const hasWriter: bool
    var requests: seq<Request>
    var answers: seq<Answer>
    /** What has been written to the connection. */
    var wire: seq<string>
    ghost var sends: seq<int>
    /** How many writes have failed. */
    ghost var failures: nat

    constructor (clock: Clock, hasWriter: bool, requests: seq<Request>)
      ensures this.clock == clock && this.hasWriter == hasWriter
      ensures this.requests == requests && answers == [] && wire == [] && sends == []
      ensures failures == 0
    {
      this.clock, this.hasWriter, this.requests := clock, hasWriter, requests;
      answers, wire, sends, failures := [], [], [], 0;
    }

    /** Writes to the connection, which takes time and may fail. */
    method WriteJSON(data: string) returns (ok: bool)
      modifies clock`now, this`wire, this`failures
      ensures clock.now >= old(clock.now) && failures == old(failures) + if ok then 0 else 1
      ensures wire == if ok then old(wire) + [data] else old(wire)
    {
      var passed :| 0 <= passed;
      clock.now := clock.now + passed;
      ok := *;
      if ok {
        wire := wire + [data];
      } else {
        failures := failures + 1;
      }
    }

    /** Drops the sends that have left the window. */
    method Prune(sent: seq<int>, now: int) returns (sentAt: seq<int>)
      requires Tracks(sends, sent, now)
      ensures Tracks(sends, sentAt, now)
      ensures |sent| > 0 && sent[0] + SEND_WINDOW <= now ==> |sentAt| < |sent|
      ensures |sentAt| > 0 ==> sentAt[0] + SEND_WINDOW > now
    {
      var cutoff := now - SEND_WINDOW;
      var firstActive := 0;
      while firstActive < |sent| && sent[firstActive] <= cutoff
        invariant 0 <= firstActive <= |sent|
        invariant forall i :: 0 <= i < firstActive ==> sent[i] <= cutoff
        invariant firstActive == 0 && |sent| > 0 && sent[0] <= cutoff ==> firstActive < |sent|
      {
        firstActive := firstActive + 1;
      }
      TracksPruned(sends, sent, now, firstActive);
      sentAt := if firstActive > 0 then sent[firstActive..] else sent;
      assert sentAt == sent[firstActive..];
    }

    /** Waits at most once, and for a positive delay; after a full wait the oldest send has left the
        window. */
    method WaitForSlot(sent: seq<int>) returns (sentAt: seq<int>, ok: bool, ghost waited: Option<int>)
      requires Tracks(sends, sent, clock.now)
      modifies clock
      ensures clock.now >= old(clock.now) && Tracks(sends, sentAt, clock.now)
      ensures ok ==> |sentAt| < SEND_LIMIT
      ensures clock.interrupted == (old(clock.interrupted) || !ok)
      ensures waited.Some? ==> 0 < waited.value <= SEND_WINDOW
      ensures waited.Some? && ok ==> clock.now >= old(clock.now) + waited.value
    {
      hide Tracks;
      sentAt := sent;
      waited := None;
      while true
        invariant clock.now >= old(clock.now) && Tracks(sends, sentAt, clock.now)
        invariant clock.interrupted == old(clock.interrupted)
        invariant waited.Some? ==> |sentAt| > 0 && sentAt[0] + SEND_WINDOW <= clock.now
        invariant waited.Some? ==> 0 < waited.value <= SEND_WINDOW && clock.now >= old(clock.now) + waited.value
        decreases waited.None?
      {
        ghost var entry := clock.now;
        var now := clock.Now();
        TracksLater(sends, sentAt, entry, now);
        TracksSize(sends, sentAt, now);
        sentAt := Prune(sentAt, now);
        TracksSize(sends, sentAt, now);
        if |sentAt| < SEND_LIMIT {
          return sentAt, true, waited;
        }
        var delay := sentAt[0] + SEND_WINDOW - now;
        if delay <= 0 {
          assert false;
        }
        var ended := clock.Ended();
        if ended {
          return sentAt, false, waited;
        }
        waited := Some(delay);
        var full := clock.Wait(delay);
        TracksLater(sends, sentAt, now, clock.now);
        if !full {
          return sentAt, false, waited;
        }
      }
    }

    method Reply(request: Request, outcome: Outcome)
      modifies this`answers
      ensures answers == old(answers) + [Answer(request, outcome)]
    {
      answers := answers + [Answer(request, outcome)];
    }

    method FailPending(outcome: Outcome)
      modifies this`requests, this`answers
      ensures requests == []
      ensures answers == old(answers) + Failed(old(requests), outcome)
    {
      while |requests| > 0
        invariant answers + Failed(requests, outcome) == old(answers) + Failed(old(requests), outcome)
        decreases |requests|
      {
        var request := requests[0];
        requests := requests[1..];
        assert Failed([request] + requests, outcome) == [Answer(request, outcome)] + Failed(requests, outcome);
        Reply(request, outcome);
      }
    }

    /** Serves one request: it is answered once, and recorded exactly if it was written, which it is
        unless a context ends or the connection fails. */
    method Serve(request: Request, sent: seq<int>) returns (sentAt: seq<int>)
      requires Tracks(sends, sent, clock.now)
      modifies this`answers, this`wire, this`sends, this`failures, clock
      ensures Tracks(sends, sentAt, clock.now)
      ensures |answers| == |old(answers)| + 1 && answers[..|old(answers)|] == old(answers)
      ensures answers[|old(answers)|].request == request
      ensures var written := if answers[|old(answers)|].outcome == Written then [request.data] else [];
              wire == old(wire) + written && |sends| == |old(sends)| + |written|
      ensures answers[|old(answers)|].outcome == Written || clock.interrupted || failures > old(failures)
      ensures (old(clock.interrupted) ==> clock.interrupted) && failures >= old(failures)
    {
      sentAt := sent;
      var dropped := clock.Ended();
      if dropped {
        Reply(request, ContextError);
        return;
      }
      var ok;
      ghost var waited;
      sentAt, ok, waited := WaitForSlot(sentAt);
      if !ok {
        Reply(request, WaitFailed);
        return;
      }
      ghost var entry := clock.now;
      var written := WriteJSON(request.data);
      TracksLater(sends, sentAt, entry, clock.now);
      if written {
        entry := clock.now;
        var t := clock.Now();
        TracksSent(sends, sentAt, entry, t);
        sentAt := sentAt + [t];
        sends := sends + [t];
        Reply(request, Written);
      } else {
        Reply(request, WriteFailed);
      }
    }

    /** Serves the submitted requests in order until they are served or the context ends, and
        fails the rest. Unless a context ends or the connection fails, everything is written. */
    method Run()
      requires sends == [] && wire == [] && answers == [] && failures == 0 && !clock.interrupted
      modifies this, clock
      ensures requests == []
      ensures Requests(answers) == old(requests)
      ensures wire == WrittenData(answers) && |sends| == |wire|
      ensures Sorted(sends) && Spaced(sends, SEND_LIMIT, SEND_WINDOW)
      ensures hasWriter || wire == []
      ensures hasWriter && !clock.interrupted && failures == 0 ==> wire == Data(old(requests))
    {
      hide Tracks, WrittenData, AllWritten, Data;
      if !hasWriter {
        FailPending(NoWriter);
        FailedAnswers(old(requests), NoWriter);
        assert answers == Failed(old(requests), NoWriter);
        return;
      }
      var sentAt: seq<int> := [];
      NothingSent(clock.now);
      var ended := clock.Ended();
      while !ended && |requests| > 0
        invariant Tracks(sends, sentAt, clock.now)
        invariant Requests(answers) + requests == old(requests)
        invariant wire == WrittenData(answers) && |sends| == |wire|
        invariant ended ==> clock.interrupted
        invariant !clock.interrupted && failures == 0 ==> AllWritten(answers)
        decreases |requests|
      {
        var request := requests[0];
        requests := requests[1..];
        ghost var before := answers;
        assert Requests(before) + [request] + requests == old(requests);
        sentAt := Serve(request, sentAt);
        assert answers == before + [answers[|before|]];
        AnswerAppended(before, answers[|before|]);
        if !clock.interrupted && failures == 0 { WrittenAppended(before, answers[|before|]); }
        ended := clock.Ended();
      }
      TracksSpaced(sends, sentAt, clock.now);
      if !clock.interrupted && failures == 0 {
        WrittenIsAll(answers);
        assert requests == [] && Requests(answers) == old(requests);
      }
      ghost var rest := requests;
      ghost var before := answers;
      FailPending(ContextError);
      FailedAnswers(rest, ContextError);
      AnswersAppended(before, Failed(rest, ContextError));
    }
  }

  function Failed(requests: seq<Request>, outcome: Outcome): seq<Answer>
  {
    seq(|requests|, i requires 0 <= i < |requests| => Answer(requests[i], outcome))
  }

  function Requests(answers: seq<Answer>): seq<Request>
  {
    seq(|answers|, i requires 0 <= i < |answers| => answers[i].request)
  }

  /** The data of the answered requests that were written, in order. */
  function WrittenData(answers: seq<Answer>): seq<string>
  {
    if answers == [] then []
    else
      var before, a := answers[..|answers| - 1], answers[|answers| - 1];
      WrittenData(before) + if a.outcome == Written then [a.request.data] else []
  }

  function Data(requests: seq<Request>): seq<string>
  {
    if requests == [] then [] else Data(requests[..|requests| - 1]) + [requests[|requests| - 1].data]
  }

  predicate AllWritten(answers: seq<Answer>)
  {
    forall i :: 0 <= i < |answers| ==> answers[i].outcome == Written
  }

  lemma WrittenAppended(answers: seq<Answer>, a: Answer)
    requires AllWritten(answers) && a.outcome == Written
    ensures AllWritten(answers + [a])
  {
  }

  lemma {:induction false} WrittenIsAll(answers: seq<Answer>)
    requires AllWritten(answers)
    ensures WrittenData(answers) == Data(Requests(answers))
  {
    if answers != [] {
      WrittenIsAll(answers[..|answers| - 1]);
      assert Requests(answers)[..|answers| - 1] == Requests(answers[..|answers| - 1]);
    }
  }

  lemma AnswerAppended(answers: seq<Answer>, a: Answer)
    ensures Requests(answers + [a]) == Requests(answers) + [a.request]
    ensures WrittenData(answers + [a]) == WrittenData(answers) + if a.outcome == Written then [a.request.data] else []
  {
    assert (answers + [a])[..|answers|] == answers;
  }

  lemma {:induction false} AnswersAppended(a: seq<Answer>, b: seq<Answer>)
    ensures Requests(a + b) == Requests(a) + Requests(b)
    ensures WrittenData(a + b) == WrittenData(a) + WrittenData(b)
  {
    if b == [] {
      assert a + b == a;
    } else {
      AnswersAppended(a, b[..|b| - 1]);
      assert (a + b)[..|a + b| - 1] == a + b[..|b| - 1];
    }
  }

  lemma {:induction false} FailedAnswers(requests: seq<Request>, outcome: Outcome)
    requires outcome != Written
    ensures Requests(Failed(requests, outcome)) == requests && WrittenData(Failed(requests, outcome)) == []
  {
    if requests != [] {
      FailedAnswers(requests[..|requests| - 1], outcome);
      assert Failed(requests, outcome)[..|requests| - 1] == Failed(requests[..|requests| - 1], outcome);
    }
  }

  /** What Run guarantees of its send log, put as the limit itself: no half-open minute holds more
      than 120 recorded sends. */
  lemma NoWindowOverLimit(sends: seq<int>, lo: int)
    requires Sorted(sends) && Spaced(sends, SEND_LIMIT, SEND_WINDOW)
    ensures CountIn(sends, lo, lo + 60_000_000_000) <= 120
  {
    assert CountFrom(sends, lo, SEND_WINDOW) == CountIn(sends, lo, lo + SEND_WINDOW);
    SpacedIffBounded(sends, SEND_LIMIT, SEND_WINDOW);
  }
}
