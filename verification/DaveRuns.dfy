/** Properties of every sequence of calls on one media-encryption session. */
module DaveRuns {
  import opened Prelude
  import opened Cipher
  import opened SecureFrame
  import opened HashRatchet
  import opened DaveModel

  /** One call. Welcomes and commits are both `EpochMessage`; `GroupTouched` stands for the
      calls that only change the MLS group (external sender, proposals, key packages). */
  datatype Event =
    | Configured(groupID: string, version: int, reset: GroupCall)
    | ReWelcomed(reset: GroupCall, package: GroupCall)
    | EpochMessage(call: EpochCall)
    | Prepare(id: u16, newVersion: int)
    | Execute(id: u16)
    | NewEpoch(epoch: u64, epochVersion: int, reset: GroupCall, package: GroupCall)
    | DeriveKey
    | SetSsrc(ssrc: u32, user: string)
    | Encrypt(opus: Bytes)
    | Decrypt(ssrc: u32, data: Bytes)
    | GroupTouched(group: nat)
    | ResetAll

  /** The state after a call and whether the call succeeded. */
  function Step(p: Primitives, s: Session, e: Event): (Session, bool)
  {
    match e
    case Configured(id, version, reset) => Configure(s, id, version, reset)
    case ReWelcomed(reset, package) => ResetForReWelcome(s, reset, package)
    case EpochMessage(call) => HandleEpochMessage(s, call)
    case Prepare(id, version) => PrepareTransition(s, id, version)
    case Execute(id) => ExecuteTransition(p, s, id)
    case NewEpoch(epoch, version, reset, package) => PrepareEpoch(s, epoch, version, reset, package)
    case DeriveKey => var (sender, ok) := DeriveSenderKey(p, s); (s.(sender := sender), ok)
    case SetSsrc(ssrc, user) => (s.(ssrcToUserID := s.ssrcToUserID[ssrc := user]), true)
    case Encrypt(opus) => var (next, r) := EncryptFrame(p, s, opus); (next, r.Ok?)
    case Decrypt(ssrc, data) => var (next, r) := DecryptFrame(p, s, ssrc, data); (next, r.Ok?)
    case GroupTouched(group) => (if s.mls.groupErr then s else s.(mls := s.mls.(group := Some(group))), true)
    case ResetAll => (Reset(s), true)
  }

  function After(p: Primitives, s: Session, es: seq<Event>): Session
  {
    if es == [] then s else Step(p, After(p, s, es[..|es| - 1]), es[|es| - 1]).0
  }

  predicate Succeeds(p: Primitives, s: Session, es: seq<Event>, i: nat)
    requires i < |es|
  {
    Step(p, After(p, s, es[..i]), es[i]).1
  }

  lemma AfterPrefix(p: Primitives, s: Session, es: seq<Event>, i: nat)
    requires i < |es|
    ensures After(p, s, es[..i + 1]) == Step(p, After(p, s, es[..i]), es[i]).0
  {
    assert es[..i + 1][..i] == es[..i];
  }

  // ---- what every state satisfies

  /** An active session has a cipher and a base secret, and a pending transition is never the
      one executed last. */
  ghost predicate Sound(s: Session)
  {
    && (s.active ==> s.sender.frameCipher.Some? && s.sender.ratchetBaseSecret.Some?)
    && (s.transition.pendingTransition && s.transition.hasLastTransition ==>
         s.transition.pendingTransitionID != s.transition.lastTransitionID)
  }

  lemma StepKeepsKeys(p: Primitives, s: Session, e: Event)
    requires s.active ==> s.sender.frameCipher.Some? && s.sender.ratchetBaseSecret.Some?
    ensures Step(p, s, e).0.active ==>
              Step(p, s, e).0.sender.frameCipher.Some? && Step(p, s, e).0.sender.ratchetBaseSecret.Some?
  {
  }

  lemma StepKeepsSound(p: Primitives, s: Session, e: Event)
    requires Sound(s)
    ensures Sound(Step(p, s, e).0)
  {
    StepKeepsKeys(p, s, e);
    LastTransitionStep(p, s, e);
    if Step(p, s, e).0.transition.pendingTransition { PendingStep(p, s, e); }
    if e.Prepare? { FreshTransition(s, e.id, e.newVersion); }
  }

  lemma FreshTransition(s: Session, id: u16, version: int)
    ensures PrepareTransition(s, id, version).1 ==>
              !(s.transition.hasLastTransition && id == s.transition.lastTransitionID)
  {
  }

  lemma {:induction false} EveryStateIsSound(p: Primitives, userID: string, group: Option<nat>, es: seq<Event>)
    ensures Sound(After(p, NewSession(userID, group), es))
  {
    if es != [] {
      EveryStateIsSound(p, userID, group, es[..|es| - 1]);
      StepKeepsSound(p, After(p, NewSession(userID, group), es[..|es| - 1]), es[|es| - 1]);
    }
  }

  // ---- activations and epoch messages

  predicate Activates(p: Primitives, s: Session, e: Event)
  {
    e.Execute? && s.transition.pendingVersion > 0 && Step(p, s, e).1
  }

  predicate Processes(p: Primitives, s: Session, e: Event)
  {
    e.EpochMessage? && Step(p, s, e).1
  }

  ghost function Count(p: Primitives, s: Session, es: seq<Event>, what: (Primitives, Session, Event) -> bool): nat
  {
    if es == [] then 0
    else
      var before, e := es[..|es| - 1], es[|es| - 1];
      Count(p, s, before, what) + if what(p, After(p, s, before), e) then 1 else 0
  }

  /** Each activation uses up the pending key of a welcome or commit of its own. */
  lemma {:induction false} ActivationsNeedEpochs(p: Primitives, userID: string, group: Option<nat>, es: seq<Event>)
    ensures var s := NewSession(userID, group);
            Count(p, s, es, Activates) + (if After(p, s, es).hasPendingKey then 1 else 0) <= Count(p, s, es, Processes)
  {
    if es != [] {
      ActivationsNeedEpochs(p, userID, group, es[..|es| - 1]);
      PendingKeyStep(p, After(p, NewSession(userID, group), es[..|es| - 1]), es[|es| - 1]);
    }
  }

  lemma PendingKeyStep(p: Primitives, s: Session, e: Event)
    ensures Activates(p, s, e) ==> s.hasPendingKey && !Step(p, s, e).0.hasPendingKey
    ensures Step(p, s, e).0.hasPendingKey ==> s.hasPendingKey || Processes(p, s, e)
  {
  }

  // ---- transitions

  /** The call removes a pending transition: it executes it, or restarts the group. */
  predicate ClearsPending(p: Primitives, s: Session, e: Event)
  {
    match e
    case Execute(_) => Step(p, s, e).1
    case Configured(_, _, _) => Step(p, s, e).1
    case ReWelcomed(reset, _) => !s.mls.groupErr && s.mls.groupID != [] && reset.ok
    case NewEpoch(epoch, version, reset, _) =>
      epoch == 1 && (version == 0 || (version == 1 && s.mls.groupID != [] && reset.ok))
    case ResetAll => true
    case _ => false
  }

  predicate Prepares(p: Primitives, s: Session, e: Event)
  {
    e.Prepare? && Step(p, s, e).1
  }

  /** The call prepares a transition or removes the pending one. */
  predicate Unsettles(p: Primitives, s: Session, e: Event)
  {
    Prepares(p, s, e) || ClearsPending(p, s, e)
  }

  /** Call j prepared this transition and nothing has prepared or cleared one since. */
  ghost predicate PreparedAt(p: Primitives, s: Session, es: seq<Event>, j: nat, id: u16, version: int)
  {
    && j < |es| && es[j] == Prepare(id, version) && Prepares(p, After(p, s, es[..j]), es[j])
    && forall k :: j < k < |es| ==> !Unsettles(p, After(p, s, es[..k]), es[k])
  }

  lemma PendingStep(p: Primitives, s: Session, e: Event)
    requires Step(p, s, e).0.transition.pendingTransition
    ensures Prepares(p, s, e) ==>
              e == Prepare(Step(p, s, e).0.transition.pendingTransitionID, Step(p, s, e).0.transition.pendingVersion)
    ensures !Prepares(p, s, e) ==> Step(p, s, e).0.transition == s.transition && !Unsettles(p, s, e)
  {
  }

  lemma {:induction false} PendingWasPrepared(p: Primitives, userID: string, group: Option<nat>, es: seq<Event>)
    returns (j: nat)
    requires After(p, NewSession(userID, group), es).transition.pendingTransition
    ensures var s := NewSession(userID, group); var t := After(p, s, es).transition;
            PreparedAt(p, s, es, j, t.pendingTransitionID, t.pendingVersion)
  {
    var s, before, e := NewSession(userID, group), es[..|es| - 1], es[|es| - 1];
    PendingStep(p, After(p, s, before), e);
    if Prepares(p, After(p, s, before), e) {
      j := |es| - 1;
    } else {
      j := PendingWasPrepared(p, userID, group, before);
      var t := After(p, s, before).transition;
      PreparedCarries(p, s, es, j, t.pendingTransitionID, t.pendingVersion);
    }
  }

  lemma PreparedCarries(p: Primitives, s: Session, es: seq<Event>, j: nat, id: u16, version: int)
    requires es != [] && PreparedAt(p, s, es[..|es| - 1], j, id, version)
    requires !Unsettles(p, After(p, s, es[..|es| - 1]), es[|es| - 1])
    ensures PreparedAt(p, s, es, j, id, version)
  {
    hide After, Unsettles;
    var before := es[..|es| - 1];
    forall k | 0 <= k < |before| ensures before[..k] == es[..k] && before[k] == es[k] {}
    forall k | j < k < |es| ensures !Unsettles(p, After(p, s, es[..k]), es[k]) {
      if k < |before| { assert !Unsettles(p, After(p, s, before[..k]), before[k]); }
    }
  }

  /** Every executed transition was prepared, with the version it executes, and neither
      replaced nor cleared between. */
  lemma ExecutedWasPrepared(p: Primitives, userID: string, group: Option<nat>, es: seq<Event>, i: nat)
    requires i < |es| && es[i].Execute? && Succeeds(p, NewSession(userID, group), es, i)
    ensures var s := NewSession(userID, group);
            exists j :: PreparedAt(p, s, es[..i], j, es[i].id, After(p, s, es[..i]).transition.pendingVersion)
  {
    var j := PendingWasPrepared(p, userID, group, es[..i]);
  }

  predicate Executed(p: Primitives, s: Session, es: seq<Event>, i: nat)
    requires i < |es|
  {
    es[i].Execute? && Succeeds(p, s, es, i)
  }

  lemma LastTransitionStep(p: Primitives, s: Session, e: Event)
    ensures e.Execute? && Step(p, s, e).1 ==>
              s.transition.pendingTransition && s.transition.pendingTransitionID == e.id &&
              Step(p, s, e).0.transition.hasLastTransition && Step(p, s, e).0.transition.lastTransitionID == e.id
    ensures !e.ResetAll? && !(e.Execute? && Step(p, s, e).1) ==>
              Step(p, s, e).0.transition.hasLastTransition == s.transition.hasLastTransition &&
              Step(p, s, e).0.transition.lastTransitionID == s.transition.lastTransitionID
  {
  }

  lemma {:induction false} LastExecutedIsRemembered(p: Primitives, s: Session, es: seq<Event>, i: nat, k: nat)
    requires i < k <= |es| && Executed(p, s, es, i)
    requires forall m :: i < m < k ==> !es[m].ResetAll? && !Executed(p, s, es, m)
    ensures After(p, s, es[..k]).transition.hasLastTransition
         && After(p, s, es[..k]).transition.lastTransitionID == es[i].id
    decreases k
  {
    hide Step;
    AfterPrefix(p, s, es, k - 1);
    LastTransitionStep(p, After(p, s, es[..k - 1]), es[k - 1]);
    if i < k - 1 { LastExecutedIsRemembered(p, s, es, i, k - 1); }
  }

  /** Without a reset between them, two successive executed transitions have different ids. */
  lemma NoTransitionRepeats(p: Primitives, userID: string, group: Option<nat>, es: seq<Event>, i: nat, j: nat)
    requires i < j < |es|
    requires Executed(p, NewSession(userID, group), es, i) && Executed(p, NewSession(userID, group), es, j)
    requires forall m :: i < m < j ==> !es[m].ResetAll? && !Executed(p, NewSession(userID, group), es, m)
    ensures es[i].id != es[j].id
  {
    var s := NewSession(userID, group);
    LastExecutedIsRemembered(p, s, es, i, j);
    EveryStateIsSound(p, userID, group, es[..j]);
    LastTransitionStep(p, After(p, s, es[..j]), es[j]);
  }

  // ---- exhaustion

  /** Neither active nor able to become so. */
  predicate Dormant(s: Session)
  {
    !s.active && !s.hasPendingKey
  }

  lemma ExhaustionDeactivates(p: Primitives, s: Session, opus: Bytes)
    requires Sound(s) && s.active && s.sender.senderNonce == U32_LIMIT - 1
    ensures EncryptFrame(p, s, opus).1 == Err(NonceExhausted) && Dormant(EncryptFrame(p, s, opus).0)
  {
  }

  /** A dormant session wakes up only after another welcome or commit. */
  lemma {:induction false} DormantUntilNextEpoch(p: Primitives, s: Session, es: seq<Event>)
    requires Dormant(s)
    requires forall i :: 0 <= i < |es| ==> !Processes(p, After(p, s, es[..i]), es[i])
    ensures Dormant(After(p, s, es))
  {
    if es != [] {
      var before := es[..|es| - 1];
      forall i | 0 <= i < |before| ensures !Processes(p, After(p, s, before[..i]), before[i]) {
        assert before[..i] == es[..i] && before[i] == es[i];
      }
      DormantUntilNextEpoch(p, s, before);
      DormantStep(p, After(p, s, before), es[|es| - 1]);
    }
  }

  lemma DormantStep(p: Primitives, s: Session, e: Event)
    requires Dormant(s) && !Processes(p, s, e)
    ensures Dormant(Step(p, s, e).0)
  {
  }

  // ---- the stream of frames

  /** Every generation a 32-bit nonce can reach has a key. */
  ghost predicate AllDerivable(p: Primitives, base: Bytes)
  {
    forall g: nat :: g < 256 ==> Derivable(p, base, g)
  }

  function Key(p: Primitives, base: Bytes, nonce: u32): Bytes
    requires Derivable(p, base, nonce / GENERATION_SIZE)
  {
    RatchetKey(p, base, nonce / GENERATION_SIZE).value
  }

  /** The frame of one nonce: sealed under the key of the nonce's generation. */
  function FrameOf(p: Primitives, base: Bytes, nonce: u32, opus: Bytes): Bytes
    requires Derivable(p, base, nonce / GENERATION_SIZE)
  {
    Layout(Seal(p, Key(p, base, nonce), nonce, opus))
  }

  /** The cipher is keyed for the generation of the nonce used last. */
  predicate InStep(p: Primitives, s: Sender, base: Bytes)
  {
    && s.ratchetBaseSecret == Some(base)
    && s.currentGeneration == s.senderNonce / GENERATION_SIZE
    && Derivable(p, base, s.currentGeneration)
    && s.frameCipher == Some(Key(p, base, s.senderNonce))
  }

  /** After a derivation the sender is in step at nonce zero. */
  lemma DerivationStartsInStep(p: Primitives, s: Session)
    requires DeriveSenderKey(p, s).1
    ensures var sender := DeriveSenderKey(p, s).0;
            sender.senderNonce == 0 && BaseSecret(p, s.mls.group, s.userID).Some?
            && InStep(p, sender, BaseSecret(p, s.mls.group, s.userID).value)
  {
  }

  /** One frame takes the next nonce and the key of its generation. */
  lemma SendStep(p: Primitives, s: Sender, base: Bytes, opus: Bytes)
    requires InStep(p, s, base) && s.senderNonce < U32_LIMIT - 1
    requires Derivable(p, base, (s.senderNonce + 1) / GENERATION_SIZE)
    ensures SendNext(p, s, opus).1 == Ok(FrameOf(p, base, s.senderNonce + 1, opus))
    ensures SendNext(p, s, opus).0.senderNonce == s.senderNonce + 1 && InStep(p, SendNext(p, s, opus).0, base)
  {
  }

  /** A call that leaves the sender alone, or sends. */
  predicate KeepsStream(p: Primitives, s: Session, e: Event)
  {
    e.Encrypt? || (Step(p, s, e).0.sender == s.sender && Step(p, s, e).0.active == s.active)
  }

  ghost predicate StreamRun(p: Primitives, s: Session, es: seq<Event>)
  {
    forall i :: 0 <= i < |es| ==> KeepsStream(p, After(p, s, es[..i]), es[i])
  }

  /** What was handed in to be sent. */
  function Submitted(es: seq<Event>): seq<Bytes>
  {
    if es == [] then []
    else
      var before, e := es[..|es| - 1], es[|es| - 1];
      if e.Encrypt? then Submitted(before) + [e.opus] else Submitted(before)
  }

  /** The frames that came out. */
  function Sent(p: Primitives, s: Session, es: seq<Event>): seq<Bytes>
  {
    if es == [] then []
    else
      SentBy(p, After(p, s, es[..|es| - 1]), es[|es| - 1], Sent(p, s, es[..|es| - 1]))
  }

  /** From nonce n on: `sent` are the frames of the submissions up to the last nonce, one nonce
      each, and the session is active until one submission more than that. */
  ghost predicate Streamed(p: Primitives, base: Bytes, n: u32, submitted: seq<Bytes>, sent: seq<Bytes>, now: Session)
    requires AllDerivable(p, base)
  {
    var free := U32_LIMIT - 1 - n;
    && |sent| == (if |submitted| <= free then |submitted| else free)
    && (forall k :: 0 <= k < |sent| ==> sent[k] == FrameOf(p, base, n + 1 + k, submitted[k]))
    && (now.active <==> |submitted| <= free)
    && (now.active ==> InStep(p, now.sender, base) && now.sender.senderNonce == n + |sent|)
  }

  lemma StreamStarts(p: Primitives, base: Bytes, s: Session)
    requires s.active && InStep(p, s.sender, base) && AllDerivable(p, base)
    ensures Streamed(p, base, s.sender.senderNonce, [], [], s)
  {
  }

  /** The frames after one more call. */
  function SentBy(p: Primitives, s: Session, e: Event, sent: seq<Bytes>): seq<Bytes>
  {
    if e.Encrypt? && EncryptFrame(p, s, e.opus).1.Ok? then sent + [EncryptFrame(p, s, e.opus).1.value] else sent
  }

  lemma StreamedEvent(p: Primitives, base: Bytes, n: u32, submitted: seq<Bytes>, sent: seq<Bytes>, now: Session,
                      e: Event)
    requires AllDerivable(p, base) && Streamed(p, base, n, submitted, sent, now) && KeepsStream(p, now, e)
    ensures Streamed(p, base, n, if e.Encrypt? then submitted + [e.opus] else submitted, SentBy(p, now, e, sent),
                     Step(p, now, e).0)
  {
    if e.Encrypt? { StreamedStep(p, base, n, submitted, sent, now, e.opus); }
  }

  lemma StreamedStep(p: Primitives, base: Bytes, n: u32, submitted: seq<Bytes>, sent: seq<Bytes>, now: Session,
                     opus: Bytes)
    requires AllDerivable(p, base) && Streamed(p, base, n, submitted, sent, now)
    ensures var (next, r) := EncryptFrame(p, now, opus);
            Streamed(p, base, n, submitted + [opus], if r.Ok? then sent + [r.value] else sent, next)
  {
    if now.active && now.sender.senderNonce < U32_LIMIT - 1 {
      SendStep(p, now.sender, base, opus);
    }
  }

  lemma StreamRunPrefix(p: Primitives, s: Session, es: seq<Event>)
    requires StreamRun(p, s, es) && es != []
    ensures StreamRun(p, s, es[..|es| - 1]) && KeepsStream(p, After(p, s, es[..|es| - 1]), es[|es| - 1])
  {
    var before := es[..|es| - 1];
    forall i | 0 <= i < |before| ensures KeepsStream(p, After(p, s, before[..i]), before[i]) {
      assert before[..i] == es[..i] && before[i] == es[i];
    }
  }

  /** From a sender in step, the frames take the nonces after its own one by one, each sealed
      under the key of its generation, until 2^32 - 1; nothing is sent after that. */
  lemma {:induction false} NoncesAreConsecutive(p: Primitives, s: Session, base: Bytes, es: seq<Event>)
    requires s.active && InStep(p, s.sender, base) && AllDerivable(p, base) && StreamRun(p, s, es)
    ensures Streamed(p, base, s.sender.senderNonce, Submitted(es), Sent(p, s, es), After(p, s, es))
  {
    if es == [] {
      StreamStarts(p, base, s);
    } else {
      var before := es[..|es| - 1];
      StreamRunPrefix(p, s, es);
      NoncesAreConsecutive(p, s, base, before);
      StreamedEvent(p, base, s.sender.senderNonce, Submitted(before), Sent(p, s, before), After(p, s, before),
                    es[|es| - 1]);
    }
  }

  // ---- when the keys run out of step

  /** Should a new generation have no key, which label expansion at the ratchet's lengths never
      brings about, then and only then the first frame of it would be lost and the second would leave
      under the previous generation's key. */
  lemma SecondFrameOfGeneration(p: Primitives, s: Sender, base: Bytes, first: Bytes, second: Bytes)
    requires InStep(p, s, base) && (s.senderNonce + 1) % GENERATION_SIZE == 0 && s.senderNonce < U32_LIMIT - 2
    ensures var g := s.currentGeneration + 1;
            var (s1, r1) := SendNext(p, s, first);
            && (r1.Ok? <==> Derivable(p, base, g))
            && SendNext(p, s1, second).1
               == Ok(Layout(Seal(p, if Derivable(p, base, g) then RatchetKey(p, base, g).value else s.frameCipher.value,
                                 s.senderNonce + 2, second)))
  {
    var g := s.currentGeneration + 1;
    assert (s.senderNonce + 1) / GENERATION_SIZE == g && (s.senderNonce + 2) / GENERATION_SIZE == g;
  }
}
