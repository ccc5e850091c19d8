/** When the calls of a session succeed, and what they make of its being active. The conditions are
    on the state before the call, so that a caller can tell. */
module DaveCalls {
  import opened Prelude
  import opened Cipher
  import opened SecureFrame
  import opened HashRatchet
  import opened DaveModel
  import opened DaveRuns

  // ---- conditions

  /** The call takes the group back to its beginning. */
  predicate Restarts(s: Session, e: Event)
  {
    match e
    case Configured(id, _, reset) => !s.mls.groupErr && ParseUint(id).Some? && reset.ok
    case ReWelcomed(reset, _) => !s.mls.groupErr && s.mls.groupID != [] && reset.ok
    case NewEpoch(epoch, version, reset, _) =>
      epoch == 1 && (version == 0 || (version == 1 && s.mls.groupID != [] && reset.ok))
    case ResetAll => true
    case _ => false
  }

  /** It executes the pending transition. */
  predicate Due(s: Session, e: Event)
  {
    e.Execute? && s.transition.pendingTransition && s.transition.pendingTransitionID == e.id
  }

  /** The pending transition is one to unencrypted audio. */
  predicate Downgrades(s: Session, e: Event)
  {
    Due(s, e) && s.transition.pendingVersion <= 0
  }

  /** The session's own key exists in its group. */
  predicate HasOwnKey(p: Primitives, s: Session)
  {
    BaseSecret(p, s.mls.group, s.userID).Some? && Derivable(p, BaseSecret(p, s.mls.group, s.userID).value, 0)
  }

  predicate Upgrades(p: Primitives, s: Session, e: Event)
  {
    Due(s, e) && s.transition.pendingVersion > 0 && s.hasPendingKey && HasOwnKey(p, s)
  }

  /** It asks for a frame past the last nonce. */
  predicate Exhausts(s: Session, e: Event)
  {
    e.Encrypt? && s.active && s.sender.frameCipher.Some? && s.sender.senderNonce == U32_LIMIT - 1
  }

  /** The call takes the media encryption down. */
  predicate Silences(s: Session, e: Event)
  {
    Restarts(s, e) || Downgrades(s, e) || Exhausts(s, e)
  }

  /** It is a welcome or commit that is taken. */
  predicate TakesEpoch(s: Session, e: Event)
  {
    e.EpochMessage? && !s.mls.groupErr && e.call.processed.ok && e.call.epoch.Some?
  }

  /** Nothing is left to encrypt or to listen with. */
  predicate Silent(s: Session)
  {
    && !s.active && !s.hasPendingKey && s.receivers == map[] && s.sender.frameCipher.None?
    && s.sender.senderKey.None? && s.sender.ratchetBaseSecret.None? && s.sender.senderNonce == 0
    && s.sender.currentGeneration == 0
  }

  // ---- one call

  lemma RestartSilences(p: Primitives, s: Session, e: Event)
    requires Restarts(s, e)
    ensures Silent(Step(p, s, e).0) && !Step(p, s, e).0.transition.pendingTransition
  {
  }

  /** A call that takes media encryption down leaves nothing of it: no cipher, no secret, no receivers,
      and an inactive session. */
  lemma SilencedIsSilent(p: Primitives, s: Session, e: Event)
    requires Silences(s, e)
    ensures Silent(Step(p, s, e).0)
  {
    if Restarts(s, e) { RestartSilences(p, s, e); }
  }

  /** A session is active after a call exactly if the call turned encryption on, or it was active and
      the call did not take it down; and likewise for the key that waits for a transition. */
  lemma ActivityOf(p: Primitives, s: Session, e: Event)
    ensures Step(p, s, e).0.active <==> Upgrades(p, s, e) || (s.active && !Silences(s, e))
    ensures Step(p, s, e).0.hasPendingKey <==>
              TakesEpoch(s, e) || (s.hasPendingKey && !Silences(s, e) && !Upgrades(p, s, e))
  {
    hide DecryptFrame, RatchetKey, ParseUint, Seal;
    if Silences(s, e) { SilencedIsSilent(p, s, e); }
    if e.Decrypt? { DecryptKeepsActivity(p, s, e.ssrc, e.data); }
    if e.Encrypt? { EncryptActivity(p, s, e.opus); }
  }

  lemma DecryptKeepsActivity(p: Primitives, s: Session, ssrc: u32, data: Bytes)
    ensures var next := DecryptFrame(p, s, ssrc, data).0; next == s.(receivers := next.receivers)
  {
    hide Receive, Parse;
  }

  lemma EncryptActivity(p: Primitives, s: Session, opus: Bytes)
    ensures var next := EncryptFrame(p, s, opus).0;
            next == s.(sender := next.sender) || (Exhausts(s, Encrypt(opus)) && Silent(next))
    ensures Exhausts(s, Encrypt(opus)) ==> Silent(EncryptFrame(p, s, opus).0)
  {
    hide SendNext;
  }

  /** Why no frame is sent. */
  lemma RefusesToSendBecause(p: Primitives, s: Session, opus: Bytes)
    ensures var answer := EncryptFrame(p, s, opus).1; var ready := s.active && s.sender.frameCipher.Some?;
            && (answer == Err(NotActive) <==> !s.active) && (answer == Err(NoCipher) <==> s.active && !ready)
            && (answer == Err(NonceExhausted) <==> ready && s.sender.senderNonce == U32_LIMIT - 1)
            && (answer == Err(KeyUnavailable) <==>
                  ready && s.sender.senderNonce < U32_LIMIT - 1 && !CanSend(p, s.sender))
  {
    hide RatchetKey, Seal, Layout;
  }

  /** Which protocol version and epoch the session is told of: a channel's version, an epoch's number
      and version, a processed message's epoch, an executed transition's version. */
  lemma VersionAndEpochOf(p: Primitives, s: Session, e: Event)
    ensures Step(p, s, e).1 && e.Configured? ==> Step(p, s, e).0.mls.protocolVersion == e.version
    ensures Step(p, s, e).1 && e.NewEpoch? ==>
              Step(p, s, e).0.mls.epoch == e.epoch && Step(p, s, e).0.mls.protocolVersion == e.epochVersion
    ensures TakesEpoch(s, e) ==> Step(p, s, e).0.mls.epoch == e.call.epoch.value
    ensures Downgrades(s, e) || Upgrades(p, s, e) ==>
              Step(p, s, e).0.mls.protocolVersion == s.transition.pendingVersion
    ensures !e.Configured? && !e.NewEpoch? && !e.Execute? ==>
              Step(p, s, e).0.mls.protocolVersion == s.mls.protocolVersion
    ensures !e.NewEpoch? && !TakesEpoch(s, e) ==> Step(p, s, e).0.mls.epoch == s.mls.epoch
  {
    hide DecryptFrame, EncryptFrame, ParseUint, RatchetKey;
    if e.Decrypt? { DecryptKeepsActivity(p, s, e.ssrc, e.data); }
    if e.Encrypt? { EncryptTouchesOnly(p, s, e.opus); }
  }

  /** There is a cipher, a nonce left, and a key for the next one. */
  predicate CanSend(p: Primitives, s: Sender)
  {
    && s.frameCipher.Some? && s.senderNonce < U32_LIMIT - 1
    && var g := (s.senderNonce + 1) / GENERATION_SIZE;
       g == s.currentGeneration || Derivable(p, RatchetBase(s), g)
  }

  /** When a call reports success. */
  lemma SucceedsExactly(p: Primitives, s: Session, e: Event)
    ensures e.Configured? ==> (Step(p, s, e).1 <==> Restarts(s, e))
    ensures e.ReWelcomed? ==> (Step(p, s, e).1 <==> Restarts(s, e) && e.package.ok)
    ensures e.EpochMessage? ==> (Step(p, s, e).1 <==> TakesEpoch(s, e))
    ensures e.Execute? ==> (Step(p, s, e).1 <==> Downgrades(s, e) || Upgrades(p, s, e))
    ensures e.DeriveKey? ==> (Step(p, s, e).1 <==> HasOwnKey(p, s))
    ensures e.Prepare? ==>
              (Step(p, s, e).1 <==>
                 && (e.newVersion == 0 || (e.newVersion == 1 && s.hasPendingKey))
                 && !(s.transition.hasLastTransition && s.transition.lastTransitionID == e.id)
                 && (s.transition.pendingTransition ==> s.transition.pendingTransitionID == e.id))
    ensures e.NewEpoch? ==>
              (Step(p, s, e).1 <==>
                 && e.epoch > 0 && (e.epochVersion == 0 || e.epochVersion == 1)
                 && (e.epoch == 1 && e.epochVersion == 1 ==> s.mls.groupID != [] && e.reset.ok && e.package.ok))
    ensures e.Encrypt? ==> (Step(p, s, e).1 <==> s.active && CanSend(p, s.sender))
  {
    hide ParseUint, RatchetKey, Seal;
  }

  /** What each call leaves alone: the table of speakers and the group's failure, the receivers, the
      transitions, and the sender's keys. */
  lemma CallsKeepTable(p: Primitives, s: Session, e: Event)
    ensures Step(p, s, e).0.userID == s.userID && Step(p, s, e).0.mls.groupErr == s.mls.groupErr
    ensures !e.SetSsrc? && !e.ResetAll? ==> Step(p, s, e).0.ssrcToUserID == s.ssrcToUserID
  {
    hide DecryptFrame, EncryptFrame, DeriveSenderKey, ParseUint;
    if e.Decrypt? { DecryptKeepsActivity(p, s, e.ssrc, e.data); }
    if e.Encrypt? { EncryptTouchesOnly(p, s, e.opus); }
  }

  lemma SpeakersAreThoseSet(p: Primitives, s: Session, ssrc: u32, user: string)
    ensures Step(p, s, SetSsrc(ssrc, user)).0.ssrcToUserID == s.ssrcToUserID[ssrc := user]
  {
  }

  /** A full reset forgets the speakers, and the last transition too: its id may come again. */
  lemma ResetForgets(p: Primitives, s: Session, id: u16)
    ensures Step(p, s, ResetAll).0.ssrcToUserID == map[]
    ensures Step(p, Step(p, s, ResetAll).0, Prepare(id, 0)).1
  {
  }

  lemma CallsKeepReceivers(p: Primitives, s: Session, e: Event)
    ensures !Silences(s, e) && !TakesEpoch(s, e) && !e.Decrypt? ==> Step(p, s, e).0.receivers == s.receivers
    ensures TakesEpoch(s, e) ==>
              Step(p, s, e).0.receivers == map[] && Step(p, s, e).0.mls.group == Some(e.call.processed.group)
  {
    hide DecryptFrame, EncryptFrame, DeriveSenderKey, ParseUint;
    if e.Decrypt? { DecryptKeepsActivity(p, s, e.ssrc, e.data); }
    if e.Encrypt? { EncryptTouchesOnly(p, s, e.opus); }
  }

  lemma CallsKeepTransition(p: Primitives, s: Session, e: Event)
    requires !Restarts(s, e) && !e.Execute? && !e.Prepare?
    ensures Step(p, s, e).0.transition == s.transition
  {
    hide DecryptFrame, EncryptFrame, DeriveSenderKey, ParseUint;
    if e.Decrypt? { DecryptKeepsActivity(p, s, e.ssrc, e.data); }
    if e.Encrypt? { EncryptTouchesOnly(p, s, e.opus); }
  }

  lemma CallsKeepKeys(p: Primitives, s: Session, e: Event)
    requires !Silences(s, e) && !e.Execute? && !e.Encrypt? && !e.DeriveKey?
    ensures Step(p, s, e).0.sender == s.sender
  {
    hide DecryptFrame, ParseUint;
    if e.Decrypt? { DecryptKeepsActivity(p, s, e.ssrc, e.data); }
  }

  lemma EncryptTouchesOnly(p: Primitives, s: Session, opus: Bytes)
    ensures var next := EncryptFrame(p, s, opus).0;
            && next.userID == s.userID && next.mls == s.mls && next.ssrcToUserID == s.ssrcToUserID
            && next.transition == s.transition && (!Exhausts(s, Encrypt(opus)) ==> next.receivers == s.receivers)
  {
    hide SendNext;
  }

  // ---- runs

  ghost predicate Undisturbed(p: Primitives, s: Session, es: seq<Event>, i: nat)
  {
    forall k :: i < k < |es| ==> !Silences(After(p, s, es[..k]), es[k])
  }

  /** Call i turned encryption on, and nothing has taken it down since. */
  ghost predicate UpgradedAt(p: Primitives, s: Session, es: seq<Event>, i: nat)
  {
    i < |es| && Upgrades(p, After(p, s, es[..i]), es[i]) && Undisturbed(p, s, es, i)
  }

  lemma UndisturbedStep(p: Primitives, s: Session, es: seq<Event>, i: nat)
    requires es != [] && i < |es| - 1
    ensures Undisturbed(p, s, es, i) <==>
              Undisturbed(p, s, es[..|es| - 1], i) && !Silences(After(p, s, es[..|es| - 1]), es[|es| - 1])
  {
    hide After, Silences;
    var before := es[..|es| - 1];
    assert forall k :: 0 <= k < |before| ==> before[..k] == es[..k] && before[k] == es[k];
  }

  lemma UpgradedStep(p: Primitives, s: Session, es: seq<Event>, i: nat)
    requires es != [] && i < |es| - 1
    ensures UpgradedAt(p, s, es, i) <==>
              UpgradedAt(p, s, es[..|es| - 1], i) && !Silences(After(p, s, es[..|es| - 1]), es[|es| - 1])
  {
    hide After, Silences, Undisturbed, Upgrades;
    UndisturbedStep(p, s, es, i);
    assert es[..|es| - 1][..i] == es[..i];
  }

  /** Over every run a session is active exactly if some transition turned encryption on and nothing
      has taken it down since: no restart of the group, no downgrade, no exhausted nonce. */
  lemma {:induction false} ActiveExactly(p: Primitives, userID: string, group: Option<nat>, es: seq<Event>)
    ensures After(p, NewSession(userID, group), es).active <==>
              exists i: nat :: UpgradedAt(p, NewSession(userID, group), es, i)
  {
    if es != [] {
      hide Step, Silences, Upgrades, UpgradedAt, NewSession;
      var s, before, e := NewSession(userID, group), es[..|es| - 1], es[|es| - 1];
      ActiveExactly(p, userID, group, before);
      ActivityOf(p, After(p, s, before), e);
      LastUpgrade(p, s, es);
      forall i: nat | i < |es| - 1
        ensures UpgradedAt(p, s, es, i) <==> UpgradedAt(p, s, before, i) && !Silences(After(p, s, before), e)
      {
        UpgradedStep(p, s, es, i);
      }
      UpgradedInRange(p, s, es);
      UpgradedInRange(p, s, before);
    }
  }

  lemma LastUpgrade(p: Primitives, s: Session, es: seq<Event>)
    requires es != []
    ensures UpgradedAt(p, s, es, |es| - 1) <==> Upgrades(p, After(p, s, es[..|es| - 1]), es[|es| - 1])
  {
  }

  lemma UpgradedInRange(p: Primitives, s: Session, es: seq<Event>)
    ensures forall i: nat :: UpgradedAt(p, s, es, i) ==> i < |es|
  {
  }

  /** A prepared transition stays pending until a call removes or replaces it. */
  lemma {:induction false} PreparedIsPending(p: Primitives, s: Session, es: seq<Event>, j: nat, id: u16, version: int)
    requires PreparedAt(p, s, es, j, id, version)
    ensures var t := After(p, s, es).transition;
            t.pendingTransition && t.pendingTransitionID == id && t.pendingVersion == version
    decreases |es|
  {
    PreparedRange(p, s, es, j, id, version);
    hide PreparedAt, Step, Unsettles, Prepares, ClearsPending;
    var before, e := es[..|es| - 1], es[|es| - 1];
    if j == |es| - 1 {
      PreparedNow(p, After(p, s, before), id, version);
    } else {
      PreparedIsPending(p, s, before, j, id, version);
      UnsettledStays(p, After(p, s, before), e);
    }
  }

  lemma PreparedRange(p: Primitives, s: Session, es: seq<Event>, j: nat, id: u16, version: int)
    requires PreparedAt(p, s, es, j, id, version)
    ensures j < |es| && es[j] == Prepare(id, version) && Prepares(p, After(p, s, es[..j]), es[j])
    ensures j < |es| - 1 ==> PreparedAt(p, s, es[..|es| - 1], j, id, version)
    ensures j < |es| - 1 ==> !Unsettles(p, After(p, s, es[..|es| - 1]), es[|es| - 1])
  {
    hide After, Unsettles, Prepares;
    var before := es[..|es| - 1];
    assert forall k :: 0 <= k < |before| ==> before[..k] == es[..k] && before[k] == es[k];
  }

  lemma PreparedNow(p: Primitives, s: Session, id: u16, version: int)
    requires Prepares(p, s, Prepare(id, version))
    ensures var t := Step(p, s, Prepare(id, version)).0.transition;
            t.pendingTransition && t.pendingTransitionID == id && t.pendingVersion == version
  {
  }

  lemma UnsettledStays(p: Primitives, s: Session, e: Event)
    requires !Unsettles(p, s, e) && s.transition.pendingTransition
    ensures Step(p, s, e).0.transition == s.transition
  {
    hide DecryptFrame, Seal, RatchetKey;
    if e.Decrypt? { DecryptKeepsActivity(p, s, e.ssrc, e.data); }
    if e.Encrypt? { EncryptTouchesOnly(p, s, e.opus); }
  }

  /** A session that got no group, or whose user id is no number, never becomes active. */
  lemma {:induction false} BrokenGroupStaysInactive(p: Primitives, userID: string, group: Option<nat>, es: seq<Event>)
    requires ParseUint(userID).None? || group.None?
    ensures var s := After(p, NewSession(userID, group), es); s.mls.groupErr && !s.active && !s.hasPendingKey
  {
    if es != [] {
      hide Step, ParseUint;
      var s := After(p, NewSession(userID, group), es[..|es| - 1]);
      BrokenGroupStaysInactive(p, userID, group, es[..|es| - 1]);
      CallsKeepTable(p, s, es[|es| - 1]);
      ActivityOf(p, s, es[|es| - 1]);
    }
  }
}
