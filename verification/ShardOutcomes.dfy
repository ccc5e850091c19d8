/** How the manager's openings and closings come out, over every interleaving: an opening in which a
    session failed is cleaned up and never open, and a Close that returns has seen the manager Closed. */
module ShardOutcomes {
  import opened Prelude
  import opened ShardManager

  type Schedule = seq<(nat, Action)>

  /** A session failed to open in the round the log is in. */
  predicate RoundFailed(log: seq<Mark>)
  {
    |log| % 5 >= 2 && log[|log| - |log| % 5 + 1] == RunEnd(true)
  }

  /** The opener is past the decision to clean up. */
  predicate CleansUp(pc: Pc)
  {
    pc.OpenCleanup? || pc.OpenInPass? || pc.OpenPassed?
  }

  /** The manager is open only if every session opened, the opener knows whether one failed, and it
      cleans up only for that or because somebody is closing. */
  ghost predicate Outcomes(m: Machine)
  {
    && (m.shared.phase == Open ==> !RoundFailed(m.log))
    && (m.opener.Some? ==>
          var pc := At(m, m.opener.value);
          && (pc.OpenReturned? ==> (pc.failed <==> RoundFailed(m.log)))
          && (CleansUp(pc) ==> RoundFailed(m.log) || m.shared.phase == Closing))
  }

  /** Whether a round failed is settled when its sessions have returned. */
  lemma RoundStays(log: seq<Mark>, mark: Mark)
    requires 2 <= |log| % 5 < 4
    ensures RoundFailed(log + [mark]) <==> RoundFailed(log)
  {
    assert |log + [mark]| % 5 == |log| % 5 + 1;
    assert |log + [mark]| - |log + [mark]| % 5 == |log| - |log| % 5;
  }

  lemma RoundSettles(log: seq<Mark>, failed: bool)
    requires |log| % 5 == 1
    ensures RoundFailed(log + [RunEnd(failed)]) <==> failed
  {
    assert |log + [RunEnd(failed)]| % 5 == 2;
  }

  lemma RoundStarts(log: seq<Mark>, mark: Mark)
    requires |log| % 5 == 0 || |log| % 5 == 4
    ensures !RoundFailed(log + [mark])
  {
  }

  /** Only the opener's own steps, a Close's entry and a Close's end matter to the outcome. */
  lemma OpenStepKeepsOutcomes(m: Machine, t: nat, a: Action)
    requires Inv(m) && Outcomes(m) && IsOpener(At(m, t))
    ensures Outcomes(Step(m, t, a))
  {
    hide Channels;
    if At(m, t).OpenRunning? { RoundSettles(m.log, a.Continue? && a.failed); }
    if At(m, t).OpenCleanup? { RoundStays(m.log, PassBegin); }
    if At(m, t).OpenInPass? { RoundStays(m.log, PassEnd); }
    if At(m, t).OpenPassed? { RoundStarts(m.log, Return); }
  }

  lemma CloseStepKeepsOutcomes(m: Machine, t: nat, a: Action)
    requires Inv(m) && Outcomes(m) && (IsCloser(At(m, t)) || At(m, t).CloseWaiting?)
    ensures Outcomes(Step(m, t, a))
  {
    hide Channels;
    if At(m, t).CloseCleanup? { RoundStays(m.log, PassBegin); }
    if At(m, t).CloseInPass? { RoundStays(m.log, PassEnd); }
    if At(m, t).ClosePassed? { RoundStarts(m.log, Return); }
  }

  lemma CallKeepsOutcomes(m: Machine, t: nat, a: Action)
    requires Inv(m) && Outcomes(m) && At(m, t).Outside?
    ensures Outcomes(Step(m, t, a))
  {
    hide Channels;
    if m.shared.phase == Closed { RoundStarts(m.log, Leave); }
  }

  lemma StepKeepsOutcomes(m: Machine, t: nat, a: Action)
    requires Inv(m) && Outcomes(m)
    ensures Outcomes(Step(m, t, a))
  {
    hide Inv, Outcomes, Step;
    if IsOpener(At(m, t)) {
      OpenStepKeepsOutcomes(m, t, a);
    } else if At(m, t).Outside? {
      CallKeepsOutcomes(m, t, a);
    } else {
      CloseStepKeepsOutcomes(m, t, a);
    }
  }

  lemma {:induction false} EveryInterleavingKeepsOutcomes(schedule: Schedule)
    ensures Inv(After(schedule)) && Outcomes(After(schedule))
  {
    EveryInterleavingKeepsInv(schedule);
    if schedule != [] {
      hide Inv, Outcomes, Step;
      var before, last := schedule[..|schedule| - 1], schedule[|schedule| - 1];
      EveryInterleavingKeepsOutcomes(before);
      StepKeepsOutcomes(After(before), last.0, last.1);
    } else {
      NothingHappened();
    }
  }

  lemma NothingHappened()
    ensures Outcomes(START)
  {
  }

  // ---- opening

  /** The manager has left Closed again since position i. */
  ghost predicate LeftAgain(log: seq<Mark>, i: nat)
  {
    exists k :: i < k < |log| && log[k] == Leave
  }

  /** After an opening in which a session failed the manager is not open before it has left Closed
      once more; before that comes a closeSessions pass, and nothing else. */
  lemma FailedRoundIsNeverOpen(schedule: Schedule, i: nat)
    requires i < |After(schedule).log| && After(schedule).log[i] == RunEnd(true)
    ensures var m := After(schedule);
            && (m.shared.phase == Open ==> LeftAgain(m.log, i))
            && (i + 1 < |m.log| ==> m.log[i + 1] == PassBegin)
            && (m.shared.phase == Closed || LeftAgain(m.log, i) ==>
                  i + 4 <= |m.log| && m.log[i..i + 4] == [RunEnd(true), PassBegin, PassEnd, Return])
  {
    EveryInterleavingKeepsOutcomes(schedule);
    RunsFollowThePattern(schedule);
    FailedRoundEnds(After(schedule).log, i);
  }

  ghost predicate FitsAll(log: seq<Mark>)
  {
    forall k :: 0 <= k < |log| ==> Fits(log[k], k)
  }

  lemma FitsAt(log: seq<Mark>, k: nat)
    requires FitsAll(log) && k < |log|
    ensures Fits(log[k], k)
  {
  }

  lemma FailedRoundEnds(log: seq<Mark>, i: nat)
    requires FitsAll(log) && i < |log| && log[i] == RunEnd(true)
    ensures i + 1 < |log| ==> log[i + 1] == PassBegin
    ensures |log| < i + 4 ==> RoundFailed(log) && |log| % 5 != 0 && !LeftAgain(log, i)
    ensures |log| >= i + 4 ==> log[i..i + 4] == [RunEnd(true), PassBegin, PassEnd, Return]
    ensures |log| > i + 4 ==> LeftAgain(log, i)
    ensures |log| == i + 4 ==> |log| % 5 == 0
  {
    FitsAt(log, i);
    assert i % 5 == 1;
    if i + 1 < |log| { FitsAt(log, i + 1); }
    if i + 2 < |log| { FitsAt(log, i + 2); }
    if i + 3 < |log| { FitsAt(log, i + 3); }
    if i + 4 < |log| { FitsAt(log, i + 4); }
    if |log| < i + 4 { assert |log| - |log| % 5 == i - 1; }
  }

  /** Open's second section opens the manager and lets its caller go exactly if no session failed and
      nobody is closing. */
  lemma SettlesExactly(schedule: Schedule, t: nat, a: Action)
    requires At(After(schedule), t).OpenReturned?
    ensures var m, next := After(schedule), After(schedule + [(t, a)]);
            && |m.log| > 0 && m.log[|m.log| - 1].RunEnd?
            && (At(next, t).Outside? <==> !m.log[|m.log| - 1].failed && m.shared.phase != Closing)
            && (At(next, t).Outside? <==> next.shared.phase == Open)
            && (!At(next, t).Outside? ==> At(next, t).OpenCleanup?)
  {
    EveryInterleavingKeepsOutcomes(schedule);
    assert (schedule + [(t, a)])[..|schedule|] == schedule;
    hide After;
    SettlingStep(After(schedule), t, a);
  }

  lemma SettlingStep(m: Machine, t: nat, a: Action)
    requires Inv(m) && Outcomes(m) && At(m, t).OpenReturned?
    ensures var next := Step(m, t, a);
            && |m.log| > 0 && m.log[|m.log| - 1].RunEnd?
            && (At(next, t).Outside? <==> !m.log[|m.log| - 1].failed && m.shared.phase != Closing)
            && (At(next, t).Outside? <==> next.shared.phase == Open)
            && (!At(next, t).Outside? ==> At(next, t).OpenCleanup?)
  {
    hide Channels;
    assert |m.log| % 5 == 2 && Fits(m.log[|m.log| - 1], |m.log| - 1);
  }

  ghost predicate NobodyCloses(schedule: Schedule)
  {
    forall i :: 0 <= i < |schedule| ==> !schedule[i].1.CallClose?
  }

  lemma {:induction false} NobodyClosesNobodyClosing(schedule: Schedule)
    requires NobodyCloses(schedule)
    ensures After(schedule).shared.phase != Closing && After(schedule).closer.None?
  {
    EveryInterleavingKeepsInv(schedule);
    if schedule != [] {
      var before := schedule[..|schedule| - 1];
      NobodyClosesNobodyClosing(before);
      EveryInterleavingKeepsInv(before);
    }
  }

  /** In every state of a run without a Close: if a session failed in this round the manager is not
      open, and if none did there is no closeSessions pass, and the manager is open once the opener
      has taken its next step. */
  lemma WithoutCloseOpeningDecides(schedule: Schedule)
    requires NobodyCloses(schedule)
    ensures var m := After(schedule);
            |m.log| % 5 >= 2 ==>
              if RoundFailed(m.log) then m.shared.phase == Opening
              else |m.log| % 5 == 2 && (m.shared.phase == Open
                     || (m.opener.Some? && At(m, m.opener.value).OpenReturned? && !At(m, m.opener.value).failed))
  {
    EveryInterleavingKeepsOutcomes(schedule);
    NobodyClosesNobodyClosing(schedule);
  }

  /** Open goes ahead exactly if the manager is Closed. */
  lemma OpenStartsExactly(schedule: Schedule, t: nat)
    requires At(After(schedule), t).Outside?
    ensures var m, next := After(schedule), After(schedule + [(t, CallOpen)]);
            && (At(next, t).OpenRunning? <==> m.shared.phase == Closed)
            && (m.shared.phase != Closed ==> next == m)
            && (m.shared.phase == Closed ==> next.shared.phase == Opening && next.log == m.log + [Leave])
  {
    assert (schedule + [(t, CallOpen)])[..|schedule|] == schedule;
  }

  // ---- closing

  predicate SawClosed(schedule: Schedule, call: nat, end: nat)
    requires end <= |schedule|
  {
    exists n :: call <= n <= end && After(schedule[..n]).shared.phase == Closed
  }

  /** A closing caller that has not seen the manager Closed: it does the closing, or it waits for the
      channel of the Close that does. */
  ghost predicate StillClosing(m: Machine, t: nat)
  {
    && m.shared.phase == Closing
    && (IsCloser(At(m, t))
        || (At(m, t).CloseWaiting? && m.shared.closeDone.Some? && At(m, t).other == m.shared.closeDone))
  }

  lemma ClosingStep(m: Machine, t: nat, u: nat, a: Action)
    requires Inv(m) && StillClosing(m, t)
    ensures StillClosing(Step(m, u, a), t) || Step(m, u, a).shared.phase == Closed
  {
  }

  lemma CloseStarts(m: Machine, t: nat)
    requires Inv(m) && At(m, t).Outside? && m.shared.phase != Closed
    ensures StillClosing(Step(m, t, CallClose), t)
  {
  }

  lemma {:induction false} CloseGoesOn(schedule: Schedule, t: nat, call: nat, end: nat)
    requires call < end <= |schedule| && schedule[call] == (t, CallClose) && At(After(schedule[..call]), t).Outside?
    ensures SawClosed(schedule, call, end) || StillClosing(After(schedule[..end]), t)
    decreases end
  {
    hide Inv, Step, StillClosing;
    var before, now := After(schedule[..end - 1]), After(schedule[..end]);
    EveryInterleavingKeepsInv(schedule[..end - 1]);
    assert schedule[..end][..end - 1] == schedule[..end - 1];
    assert now == Step(before, schedule[end - 1].0, schedule[end - 1].1);
    if call == end - 1 {
      if before.shared.phase != Closed { CloseStarts(before, t); }
    } else {
      CloseGoesOn(schedule, t, call, end - 1);
      if StillClosing(before, t) { ClosingStep(before, t, schedule[end - 1].0, schedule[end - 1].1); }
    }
  }

  /** A Close that has returned has seen the manager Closed: at its call, or at some point since. */
  lemma CloseReturnsFromClosed(schedule: Schedule, t: nat, call: nat, end: nat)
    requires call < end <= |schedule| && schedule[call] == (t, CallClose) && At(After(schedule[..call]), t).Outside?
    requires At(After(schedule[..end]), t).Outside?
    ensures SawClosed(schedule, call, end)
  {
    CloseGoesOn(schedule, t, call, end);
  }
}
