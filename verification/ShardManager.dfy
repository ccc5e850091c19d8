/** Opening and closing all shards: any number of concurrent callers, one atomic step between
    two lock sections at a time. */
module ShardManager {
  import opened Prelude

  datatype Phase = Closed | Opening | Open | Closing

  /** The fields behind the manager's lock. Channels are numbered by creation and `closes` counts
      how often each was closed; a second close would panic. */
  datatype Shared = Shared(
    phase: Phase,
    hasCancel: bool,
    openDone: Option<nat>,
    closeDone: Option<nat>,
    cleanupCompleted: bool,
    closes: seq<nat>)

  const CREATED := Shared(Closed, false, None, None, false, [])

  function CloseChannel(closes: seq<nat>, c: nat): seq<nat>
  {
    if c < |closes| then closes[c := closes[c] + 1] else closes
  }

  predicate IsClosed(closes: seq<nat>, c: nat)
  {
    c < |closes| && closes[c] > 0
  }

  // ---- the lock sections as state changes

  /** Open's first section: leaves Closed, or reports that the manager is already open. */
  function OpenEnter(s: Shared): (Shared, Option<nat>)
  {
    if s.phase != Closed then (s, None)
    else (Shared(Opening, true, Some(|s.closes|), s.closeDone, false, s.closes + [0]), Some(|s.closes|))
  }

  /** Open's second section: settles as Open, or decides to clean up. */
  function OpenSettle(s: Shared, openDone: nat, failed: bool): (Shared, bool)
  {
    if !failed && s.phase != Closing
    then (s.(phase := Open, openDone := None, closes := CloseChannel(s.closes, openDone)), true)
    else (s, false)
  }

  /** Open's last section, after its cleanup. */
  function OpenFinish(s: Shared, openDone: nat): Shared
  {
    s.(cleanupCompleted := true, hasCancel := false, openDone := None,
       phase := if s.phase == Opening then Closed else s.phase, closes := CloseChannel(s.closes, openDone))
  }

  datatype CloseAnswer =
    | AlreadyClosed
    | WaitFor(other: Option<nat>)
    | Proceed(closeDone: nat, openDone: Option<nat>, cancel: bool)

  /** Close's first section. */
  function CloseEnter(s: Shared): (Shared, CloseAnswer)
  {
    match s.phase
    case Closed => (s, AlreadyClosed)
    case Closing => (s, WaitFor(s.closeDone))
    case _ =>
      (s.(phase := Closing, closeDone := Some(|s.closes|), closes := s.closes + [0]),
       Proceed(|s.closes|, s.openDone, s.hasCancel))
  }

  /** Close's last section. */
  function CloseFinish(s: Shared, closeDone: nat): Shared
  {
    Shared(Closed, false, None, None, true, CloseChannel(s.closes, closeDone))
  }

  class Manager {
    var phase: Phase
    var cancel: bool
    var openDone: Option<nat>
    var closeDone: Option<nat>
    var cleanupCompleted: bool
    var closes: seq<nat>

    ghost function View(): Shared
      reads this
    {
      Shared(phase, cancel, openDone, closeDone, cleanupCompleted, closes)
    }

    constructor ()
      ensures View() == CREATED
    {
      phase, cancel, openDone, closeDone, cleanupCompleted, closes := Closed, false, None, None, false, [];
    }

    method MakeChannel() returns (c: nat)
      modifies this`closes
      ensures c == old(|closes|) && closes == old(closes) + [0]
    {
      c := |closes|;
      closes := closes + [0];
    }

    method EnterOpen() returns (started: Option<nat>)
      modifies this
      ensures (View(), started) == OpenEnter(old(View()))
    {
      if phase != Closed {
        return None;
      }
      var channel := MakeChannel();
      phase := Opening;
      cancel := true;
      openDone := Some(channel);
      cleanupCompleted := false;
      return Some(channel);
    }

    method SettleOpen(channel: nat, failed: bool) returns (settled: bool)
      modifies this
      ensures (View(), settled) == OpenSettle(old(View()), channel, failed)
    {
      var closing := phase == Closing;
      if !failed && !closing {
        phase := Open;
        openDone := None;
        closes := CloseChannel(closes, channel);
        return true;
      }
      return false;
    }

    method FinishOpen(channel: nat)
      modifies this
      ensures View() == OpenFinish(old(View()), channel)
    {
      cleanupCompleted := true;
      cancel := false;
      openDone := None;
      if phase == Opening {
        phase := Closed;
      }
      closes := CloseChannel(closes, channel);
    }

    method EnterClose() returns (answer: CloseAnswer)
      modifies this
      ensures (View(), answer) == CloseEnter(old(View()))
    {
      match phase
      case Closed => return AlreadyClosed;
      case Closing => return WaitFor(closeDone);
      case _ =>
        phase := Closing;
        var channel := MakeChannel();
        closeDone := Some(channel);
        return Proceed(channel, openDone, cancel);
    }

    method FinishClose(channel: nat)
      modifies this
      ensures View() == CloseFinish(old(View()), channel)
    {
      phase := Closed;
      cancel := false;
      openDone := None;
      cleanupCompleted := true;
      closeDone := None;
      closes := CloseChannel(closes, channel);
    }
  }

  // ---- the callers

  /** Where a caller stands. `done` and `closing` are the channels it made; a pass is one run of
      closeSessions. */
  datatype Pc =
    | Outside
    | OpenRunning(done: nat)
    | OpenReturned(done: nat, failed: bool)
    | OpenCleanup(done: nat)
    | OpenInPass(done: nat)
    | OpenPassed(done: nat)
    | CloseWaiting(other: Option<nat>)
    | CloseStarted(closing: nat, awaited: Option<nat>)
    | CloseReady(closing: nat)
    | CloseCleanup(closing: nat)
    | CloseInPass(closing: nat)
    | ClosePassed(closing: nat)

  predicate IsOpener(pc: Pc)
  {
    pc.OpenRunning? || pc.OpenReturned? || pc.OpenCleanup? || pc.OpenInPass? || pc.OpenPassed?
  }

  predicate IsCloser(pc: Pc)
  {
    pc.CloseStarted? || pc.CloseReady? || pc.CloseCleanup? || pc.CloseInPass? || pc.ClosePassed?
  }

  /** What a run shows: the manager leaves Closed, all openSession calls have returned and one of them
      failed or none, a closeSessions pass begins and ends, the manager is Closed again. */
  datatype Mark = Leave | RunEnd(failed: bool) | PassBegin | PassEnd | Return

  /** `opener` and `closer` name the caller between Open's or Close's first and last section. */
  datatype Machine = Machine(shared: Shared, pcs: map<nat, Pc>, opener: Option<nat>, closer: Option<nat>,
                             log: seq<Mark>)

  const START := Machine(CREATED, map[], None, None, [])

  function At(m: Machine, t: nat): Pc
  {
    if t in m.pcs then m.pcs[t] else Outside
  }

  function Move(m: Machine, t: nat, pc: Pc): Machine
  {
    m.(pcs := m.pcs[t := pc])
  }

  /** What caller t does next; a caller outside chooses a call, and openSession may fail. */
  datatype Action = CallOpen | CallClose | Continue(failed: bool)

  /** One step of caller t; a step that is not enabled changes nothing. */
  function Step(m: Machine, t: nat, a: Action): Machine
  {
    match At(m, t)
    case Outside =>
      if a.CallOpen? then StartOpen(m, t) else if a.CallClose? then StartClose(m, t) else m
    case OpenRunning(c) =>
      var failed := a.Continue? && a.failed;
      Move(m, t, OpenReturned(c, failed)).(log := m.log + [RunEnd(failed)])
    case OpenReturned(c, failed) =>
      var (s, settled) := OpenSettle(m.shared, c, failed);
      if settled then Move(m, t, Outside).(shared := s, opener := None) else Move(m, t, OpenCleanup(c))
    case OpenCleanup(c) => Move(m, t, OpenInPass(c)).(log := m.log + [PassBegin])
    case OpenInPass(c) => Move(m, t, OpenPassed(c)).(log := m.log + [PassEnd])
    case OpenPassed(c) =>
      var s := OpenFinish(m.shared, c);
      Move(m, t, Outside).(shared := s, opener := None, log := if s.phase == Closed then m.log + [Return] else m.log)
    case CloseWaiting(other) =>
      if other.Some? && IsClosed(m.shared.closes, other.value) then Move(m, t, Outside) else m
    case CloseStarted(c, awaited) =>
      if awaited.None? || IsClosed(m.shared.closes, awaited.value) then Move(m, t, CloseReady(c)) else m
    case CloseReady(c) => Move(m, t, if m.shared.cleanupCompleted then ClosePassed(c) else CloseCleanup(c))
    case CloseCleanup(c) => Move(m, t, CloseInPass(c)).(log := m.log + [PassBegin])
    case CloseInPass(c) => Move(m, t, ClosePassed(c)).(log := m.log + [PassEnd])
    case ClosePassed(c) =>
      Move(m, t, Outside).(shared := CloseFinish(m.shared, c), closer := None, log := m.log + [Return])
  }

  function StartOpen(m: Machine, t: nat): Machine
  {
    var (s, started) := OpenEnter(m.shared);
    if started.None? then m
    else Move(m, t, OpenRunning(started.value)).(shared := s, opener := Some(t), log := m.log + [Leave])
  }

  function StartClose(m: Machine, t: nat): Machine
  {
    var (s, answer) := CloseEnter(m.shared);
    match answer
    case AlreadyClosed => m
    case WaitFor(other) => Move(m, t, CloseWaiting(other))
    case Proceed(c, awaited, _) => Move(m, t, CloseStarted(c, awaited)).(shared := s, closer := Some(t))
  }

  /** One interleaving: who moves, and how. */
  function After(schedule: seq<(nat, Action)>): Machine
  {
    if schedule == [] then START
    else
      var last := schedule[|schedule| - 1];
      Step(After(schedule[..|schedule| - 1]), last.0, last.1)
  }

  // ---- the invariant

  /** At most one opener and one closer, and they are the recorded ones. */
  ghost predicate Roles(m: Machine)
  {
    && (forall t: nat :: IsOpener(At(m, t)) <==> m.opener == Some(t))
    && (forall t: nat :: IsCloser(At(m, t)) <==> m.closer == Some(t))
  }

  /** Phase and roles fit together. */
  ghost predicate Phases(m: Machine)
    requires Roles(m)
  {
    && (m.shared.phase == Closed ==> m.opener.None? && m.closer.None?)
    && (m.shared.phase == Opening ==> m.opener.Some? && m.closer.None? && !m.shared.cleanupCompleted)
    && (m.shared.phase == Open ==> m.opener.None? && m.closer.None? && !m.shared.cleanupCompleted)
    && (m.shared.phase == Closing ==> m.closer.Some?)
    && (m.opener.Some? ==> !m.shared.cleanupCompleted)
    && (m.shared.phase == Opening || m.shared.phase == Open ==> m.shared.hasCancel)
    && (m.closer.Some? && !At(m, m.closer.value).CloseStarted? ==> m.opener.None?)
    && (m.closer.Some? && (At(m, m.closer.value).CloseCleanup? || At(m, m.closer.value).CloseInPass?) ==>
         !m.shared.cleanupCompleted)
  }

  /** The recorded channels belong to the opener and closer, and every other channel made so far
      has been closed exactly once; waiters wait for channels that are, or will be, closed. */
  ghost predicate Channels(m: Machine)
    requires Roles(m)
  {
    var s := m.shared;
    && (s.openDone.Some? <==> m.opener.Some?) && (s.closeDone.Some? <==> m.closer.Some?)
    && (m.opener.Some? ==> s.openDone == Some(At(m, m.opener.value).done) && s.openDone.value < |s.closes|)
    && (m.closer.Some? ==> s.closeDone == Some(At(m, m.closer.value).closing) && s.closeDone.value < |s.closes|)
    && (m.opener.Some? && m.closer.Some? ==> s.openDone != s.closeDone)
    && (forall c :: 0 <= c < |s.closes| ==>
          s.closes[c] == if s.openDone == Some(c) || s.closeDone == Some(c) then 0 else 1)
    && (forall t: nat :: At(m, t).CloseWaiting? ==>
         At(m, t).other.Some? && At(m, t).other.value < |s.closes| && At(m, t).other != s.openDone)
    && (m.closer.Some? && At(m, m.closer.value).CloseStarted? ==> OpenerAwaited(m, At(m, m.closer.value).awaited))
  }

  /** The closer waits for the opener that runs, if one does. */
  ghost predicate OpenerAwaited(m: Machine, awaited: Option<nat>)
  {
    && (m.opener.Some? ==> awaited == m.shared.openDone)
    && (awaited.Some? ==> awaited.value < |m.shared.closes| && awaited != m.shared.closeDone)
  }

  /** The mark belongs at position i of every log. */
  predicate Fits(mark: Mark, i: nat)
  {
    match i % 5
    case 0 => mark.Leave?
    case 1 => mark.RunEnd?
    case 2 => mark.PassBegin?
    case 3 => mark.PassEnd?
    case _ => mark.Return?
  }

  /** How many marks of the current cycle have been made. */
  ghost function Progress(m: Machine): nat
    requires Roles(m)
  {
    if m.shared.phase == Closed then 0
    else if m.opener.Some? then
      match At(m, m.opener.value)
      case OpenRunning(_) => 1
      case OpenInPass(_) => 3
      case OpenPassed(_) => 4
      case _ => 2
    else if m.closer.Some? then
      match At(m, m.closer.value)
      case CloseInPass(_) => 3
      case ClosePassed(_) => 4
      case _ => if m.shared.cleanupCompleted then 4 else 2
    else 2
  }

  ghost predicate Logged(m: Machine)
    requires Roles(m)
  {
    && |m.log| % 5 == Progress(m)
    && forall i :: 0 <= i < |m.log| ==> Fits(m.log[i], i)
  }

  ghost predicate Inv(m: Machine)
  {
    Roles(m) && Phases(m) && Channels(m) && Logged(m)
  }

  lemma StartOpenKeeps(m: Machine, t: nat)
    requires Inv(m) && At(m, t).Outside?
    ensures Inv(StartOpen(m, t))
  {
  }

  lemma CloseJoins(m: Machine, t: nat)
    requires Inv(m) && At(m, t).Outside? && m.shared.phase == Closing
    ensures Inv(StartClose(m, t))
  {
    assert m.shared.closeDone != m.shared.openDone;
  }

  lemma CloseBegins(m: Machine, t: nat)
    requires Inv(m) && At(m, t).Outside? && (m.shared.phase == Opening || m.shared.phase == Open)
    ensures Inv(StartClose(m, t))
  {
  }

  lemma StartCloseKeeps(m: Machine, t: nat)
    requires Inv(m) && At(m, t).Outside?
    ensures Inv(StartClose(m, t))
  {
    if m.shared.phase == Closing { CloseJoins(m, t); } else if m.shared.phase != Closed { CloseBegins(m, t); }
  }

  lemma OpenRunningKeeps(m: Machine, t: nat, a: Action)
    requires Inv(m) && At(m, t).OpenRunning?
    ensures Inv(Step(m, t, a))
  {
  }

  lemma OpenReturnedKeeps(m: Machine, t: nat, a: Action)
    requires Inv(m) && At(m, t).OpenReturned?
    ensures Inv(Step(m, t, a))
  {
  }

  lemma OpenCleanupKeeps(m: Machine, t: nat, a: Action)
    requires Inv(m) && At(m, t).OpenCleanup?
    ensures Inv(Step(m, t, a))
  {
  }

  lemma OpenInPassKeeps(m: Machine, t: nat, a: Action)
    requires Inv(m) && At(m, t).OpenInPass?
    ensures Inv(Step(m, t, a))
  {
  }

  lemma OpenPassedKeeps(m: Machine, t: nat, a: Action)
    requires Inv(m) && At(m, t).OpenPassed?
    ensures Inv(Step(m, t, a))
  {
  }

  lemma CloseWaitingKeeps(m: Machine, t: nat, a: Action)
    requires Inv(m) && At(m, t).CloseWaiting?
    ensures Inv(Step(m, t, a))
  {
  }

  lemma CloseStartedKeeps(m: Machine, t: nat, a: Action)
    requires Inv(m) && At(m, t).CloseStarted?
    ensures Inv(Step(m, t, a))
  {
  }

  lemma CloseReadyKeeps(m: Machine, t: nat, a: Action)
    requires Inv(m) && At(m, t).CloseReady?
    ensures Inv(Step(m, t, a))
  {
  }

  lemma CloseCleanupKeeps(m: Machine, t: nat, a: Action)
    requires Inv(m) && At(m, t).CloseCleanup?
    ensures Inv(Step(m, t, a))
  {
  }

  lemma CloseInPassKeeps(m: Machine, t: nat, a: Action)
    requires Inv(m) && At(m, t).CloseInPass?
    ensures Inv(Step(m, t, a))
  {
  }

  lemma ClosePassedKeeps(m: Machine, t: nat, a: Action)
    requires Inv(m) && At(m, t).ClosePassed?
    ensures Inv(Step(m, t, a))
  {
  }

  lemma StepKeepsInv(m: Machine, t: nat, a: Action)
    requires Inv(m)
    ensures Inv(Step(m, t, a))
  {
    match At(m, t)
    case Outside => if a.CallOpen? { StartOpenKeeps(m, t); } else if a.CallClose? { StartCloseKeeps(m, t); }
    case OpenRunning(_) => OpenRunningKeeps(m, t, a);
    case OpenReturned(_, _) => OpenReturnedKeeps(m, t, a);
    case OpenCleanup(_) => OpenCleanupKeeps(m, t, a);
    case OpenInPass(_) => OpenInPassKeeps(m, t, a);
    case OpenPassed(_) => OpenPassedKeeps(m, t, a);
    case CloseWaiting(_) => CloseWaitingKeeps(m, t, a);
    case CloseStarted(_, _) => CloseStartedKeeps(m, t, a);
    case CloseReady(_) => CloseReadyKeeps(m, t, a);
    case CloseCleanup(_) => CloseCleanupKeeps(m, t, a);
    case CloseInPass(_) => CloseInPassKeeps(m, t, a);
    case ClosePassed(_) => ClosePassedKeeps(m, t, a);
  }

  lemma {:induction false} EveryInterleavingKeepsInv(schedule: seq<(nat, Action)>)
    ensures Inv(After(schedule))
  {
    if schedule != [] {
      var before, last := schedule[..|schedule| - 1], schedule[|schedule| - 1];
      EveryInterleavingKeepsInv(before);
      StepKeepsInv(After(before), last.0, last.1);
    }
  }

  // ---- what every interleaving shows

  /** The marks of every run repeat Leave, RunEnd, PassBegin, PassEnd, Return, and the manager is
      Closed exactly between two rounds. */
  lemma RunsFollowThePattern(schedule: seq<(nat, Action)>)
    ensures var m := After(schedule);
            && (forall i :: 0 <= i < |m.log| ==> Fits(m.log[i], i))
            && (m.shared.phase == Closed <==> |m.log| % 5 == 0)
  {
    EveryInterleavingKeepsInv(schedule);
  }

  /** Between leaving Closed and the next return to it there is exactly one closeSessions pass, and
      it begins after every openSession call has returned. */
  lemma OnePassPerCycle(schedule: seq<(nat, Action)>, i: nat, j: nat)
    requires i < j < |After(schedule).log| && After(schedule).log[i] == Leave && After(schedule).log[j] == Return
    requires forall k :: i < k < j ==> After(schedule).log[k] != Return
    ensures var round := After(schedule).log[i..j + 1];
            exists failed :: round == [Leave, RunEnd(failed), PassBegin, PassEnd, Return]
  {
    RunsFollowThePattern(schedule);
    PatternCycle(After(schedule).log, i, j);
  }

  lemma PatternCycle(log: seq<Mark>, i: nat, j: nat)
    requires forall k :: 0 <= k < |log| ==> Fits(log[k], k)
    requires i < j < |log| && log[i] == Leave && log[j] == Return
    requires forall k :: i < k < j ==> log[k] != Return
    ensures exists failed :: log[i..j + 1] == [Leave, RunEnd(failed), PassBegin, PassEnd, Return]
  {
    var q := i / 5;
    assert Fits(log[i], i) && i == 5 * q;
    assert Fits(log[j], j) && j % 5 == 4;
    assert i + 4 < |log| ==> Fits(log[i + 4], 5 * q + 4);
    assert j == i + 4;
    assert Fits(log[i + 1], 5 * q + 1) && Fits(log[i + 2], 5 * q + 2) && Fits(log[i + 3], 5 * q + 3);
    assert log[i..j + 1] == [Leave, RunEnd(log[i + 1].failed), PassBegin, PassEnd, Return];
  }

  /** No channel is closed twice, and while the manager is Closed every channel made so far has
      been closed exactly once. */
  lemma ChannelsCloseOnce(schedule: seq<(nat, Action)>, c: nat)
    requires c < |After(schedule).shared.closes|
    ensures After(schedule).shared.closes[c] <= 1
    ensures After(schedule).shared.phase == Closed ==> After(schedule).shared.closes[c] == 1
  {
    EveryInterleavingKeepsInv(schedule);
  }

  /** A Close that goes ahead always finds a lifetime to cancel, and a Close that joins another
      always finds a channel to wait on. */
  lemma CloseFindsWhatItNeeds(schedule: seq<(nat, Action)>)
    ensures var answer := CloseEnter(After(schedule).shared).1;
            && (answer.Proceed? ==> answer.cancel)
            && (answer.WaitFor? ==> answer.other.Some?)
  {
    EveryInterleavingKeepsInv(schedule);
  }

  predicate Blocked(m: Machine, t: nat)
  {
    match At(m, t)
    case CloseWaiting(other) => other.None? || !IsClosed(m.shared.closes, other.value)
    case CloseStarted(_, awaited) => awaited.Some? && !IsClosed(m.shared.closes, awaited.value)
    case _ => false
  }

  /** Nobody waits forever for lack of a partner: while some caller is blocked, another caller is
      inside Open or Close and free to move. */
  lemma BlockedCallersHaveAPartner(schedule: seq<(nat, Action)>, t: nat)
    requires Blocked(After(schedule), t)
    ensures exists u: nat :: !At(After(schedule), u).Outside? && !Blocked(After(schedule), u)
  {
    EveryInterleavingKeepsInv(schedule);
    var m := After(schedule);
    var s := m.shared;
    if m.opener.Some? {
      assert !At(m, m.opener.value).Outside? && !Blocked(m, m.opener.value);
    } else if At(m, t).CloseWaiting? {
      assert s.closeDone == At(m, t).other;
      assert !At(m, m.closer.value).Outside? && !Blocked(m, m.closer.value);
    }
  }
}
