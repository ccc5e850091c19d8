/** A sender and a receiver in the same MLS epoch: what is sent is what is heard. */
module DaveEndToEnd {
  import opened Prelude
  import opened Cipher
  import opened SecureFrame
  import opened HashRatchet
  import opened ReplayWindow
  import opened DaveModel
  import opened DaveRuns

  /** A receiver that last accepted `last` (0 for none), keyed for that nonce's generation. */
  predicate ListensAfter(p: Primitives, r: Receiver, base: Bytes, last: u32)
  {
    && r.baseSecret == base
    && r.generation == last / GENERATION_SIZE
    && Derivable(p, base, r.generation)
    && r.blockKey == r.aeadKey == Key(p, base, last)
    && (r.replay.hasNonce ==> r.replay.highest == last)
  }

  /** A later frame of this or the next generation is heard and moves the receiver on. */
  lemma HearsNext(p: Primitives, r: Receiver, base: Bytes, last: u32, nonce: u32, opus: Bytes)
    requires ListensAfter(p, r, base, last) && last < nonce && |opus| <= GCM_MAX
    requires nonce / GENERATION_SIZE <= last / GENERATION_SIZE + 1
    requires Derivable(p, base, nonce / GENERATION_SIZE)
    ensures var (next, answer) := Receive(p, r, Seal(p, Key(p, base, nonce), nonce, opus));
            answer == Ok(opus) && ListensAfter(p, next, base, nonce)
  {
    var parts := Seal(p, Key(p, base, nonce), nonce, opus);
    OpensExactlySealed(p, Key(p, base, nonce), parts, opus);
    assert Advance(p, r, nonce / GENERATION_SIZE).1.None?;
  }

  /** The session plays the speaker's part: its receiver, existing or about to be created,
      listens after `last`. */
  predicate Follows(p: Primitives, s: Session, ssrc: u32, base: Bytes, last: u32)
  {
    && s.active
    && Enrol(p, s, ssrc).1.None?
    && ListensAfter(p, Enrol(p, s, ssrc).0.receivers[ssrc], base, last)
  }

  lemma FollowsNext(p: Primitives, s: Session, ssrc: u32, base: Bytes, last: u32, nonce: u32, opus: Bytes)
    requires Follows(p, s, ssrc, base, last) && last < nonce && |opus| <= GCM_MAX
    requires nonce / GENERATION_SIZE <= last / GENERATION_SIZE + 1
    requires Derivable(p, base, nonce / GENERATION_SIZE)
    ensures var (next, answer) := DecryptFrame(p, s, ssrc, FrameOf(p, base, nonce, opus));
            answer == Ok(opus) && Follows(p, next, ssrc, base, nonce)
  {
    var parts := Seal(p, Key(p, base, nonce), nonce, opus);
    ParseUndoesLayout(parts);
    HearsNext(p, Enrol(p, s, ssrc).0.receivers[ssrc], base, last, nonce, opus);
  }

  /** Decrypts frames one by one and collects the answers. */
  function DecryptAll(p: Primitives, s: Session, ssrc: u32, frames: seq<Bytes>):
    (Session, seq<Result<Bytes, DecryptError>>)
  {
    if frames == [] then (s, [])
    else
      var (before, answers) := DecryptAll(p, s, ssrc, frames[..|frames| - 1]);
      var (after, answer) := DecryptFrame(p, before, ssrc, frames[|frames| - 1]);
      (after, answers + [answer])
  }

  /** The picked frames arrive in order, none twice, starting in generation 0 or 1 and never
      skipping a generation. Frame k carries nonce k + 1. */
  predicate GoodPick(pick: seq<nat>, sent: nat)
  {
    && (forall i :: 0 <= i < |pick| ==> pick[i] < sent)
    && (forall i, j :: 0 <= i < j < |pick| ==> pick[i] < pick[j])
    && (|pick| > 0 ==> (pick[0] + 1) / GENERATION_SIZE <= 1)
    && (forall i, j :: 0 <= i < |pick| && j == i + 1 < |pick| ==>
         (pick[j] + 1) / GENERATION_SIZE <= (pick[i] + 1) / GENERATION_SIZE + 1)
  }

  /** These are the frames of the picked submissions. */
  ghost predicate ArePicked(p: Primitives, base: Bytes, opus: seq<Bytes>, pick: seq<nat>, frames: seq<Bytes>)
    requires AllDerivable(p, base) && |opus| < U32_LIMIT
  {
    && GoodPick(pick, |opus|) && |frames| == |pick|
    && (forall i :: 0 <= i < |pick| ==> |opus[pick[i]]| <= GCM_MAX)
    && (forall i :: 0 <= i < |pick| ==> frames[i] == FrameOf(p, base, pick[i] + 1, opus[pick[i]]))
  }

  /** The nonce of the frame picked before position n. */
  function NonceBefore(pick: seq<nat>, n: nat): nat
    requires n <= |pick|
  {
    if n == 0 then 0 else pick[n - 1] + 1
  }

  lemma PickAdvances(pick: seq<nat>, sent: nat, n: nat)
    requires GoodPick(pick, sent) && n < |pick|
    ensures NonceBefore(pick, n) < pick[n] + 1 <= sent
    ensures (pick[n] + 1) / GENERATION_SIZE <= NonceBefore(pick, n) / GENERATION_SIZE + 1
  {
    if n > 0 { assert pick[n - 1] < pick[n]; }
  }

  /** The answers are exactly the picked submissions. */
  ghost predicate Heard(answers: seq<Result<Bytes, DecryptError>>, opus: seq<Bytes>, pick: seq<nat>)
  {
    |answers| == |pick| && forall i :: 0 <= i < |pick| ==> pick[i] < |opus| && answers[i] == Ok(opus[pick[i]])
  }

  lemma {:induction false} HearsFirst(p: Primitives, s: Session, ssrc: u32, base: Bytes, opus: seq<Bytes>,
                                      pick: seq<nat>, frames: seq<Bytes>, n: nat)
    requires AllDerivable(p, base) && Follows(p, s, ssrc, base, 0) && |opus| < U32_LIMIT
    requires ArePicked(p, base, opus, pick, frames) && n <= |pick|
    ensures Heard(DecryptAll(p, s, ssrc, frames[..n]).1, opus, pick[..n])
    ensures NonceBefore(pick, n) < U32_LIMIT
         && Follows(p, DecryptAll(p, s, ssrc, frames[..n]).0, ssrc, base, NonceBefore(pick, n))
    decreases n
  {
    hide DecryptFrame, Follows, FrameOf, GoodPick;
    if n > 0 {
      HearsFirst(p, s, ssrc, base, opus, pick, frames, n - 1);
      PickAdvances(pick, |opus|, n - 1);
      assert frames[..n][..n - 1] == frames[..n - 1];
      FollowsNext(p, DecryptAll(p, s, ssrc, frames[..n - 1]).0, ssrc, base, NonceBefore(pick, n - 1), pick[n - 1] + 1,
                  opus[pick[n - 1]]);
    }
  }

  /** A listener in the sender's epoch that knows the speaker and has no receiver for it yet
      follows the speaker from the start. */
  lemma KnownSpeakerFollows(p: Primitives, s: Session, ssrc: u32, base: Bytes)
    requires s.active && ssrc !in s.receivers && ssrc in s.ssrcToUserID
    requires BaseSecret(p, s.mls.group, s.ssrcToUserID[ssrc]) == Some(base) && Derivable(p, base, 0)
    ensures Follows(p, s, ssrc, base, 0)
  {
    assert CreateReceiver(p, s.mls.group, s.ssrcToUserID[ssrc]).Some?;
  }

  /** The sender of a just executed transition: active, in step, and at nonce zero. */
  lemma ExecutionStartsStream(p: Primitives, before: Session, id: u16)
    requires before.transition.pendingVersion > 0 && ExecuteTransition(p, before, id).1
    ensures var s := ExecuteTransition(p, before, id).0;
            && s.active && s.sender.senderNonce == 0
            && BaseSecret(p, before.mls.group, before.userID).Some?
            && InStep(p, s.sender, BaseSecret(p, before.mls.group, before.userID).value)
  {
    DerivationStartsInStep(p, before);
  }

  /** The picked ones among the frames that were sent. */
  function Picked(sent: seq<Bytes>, pick: seq<nat>): seq<Bytes>
    requires forall i :: 0 <= i < |pick| ==> pick[i] < |sent|
  {
    seq(|pick|, i requires 0 <= i < |pick| => sent[pick[i]])
  }

  lemma PicksAreFrames(p: Primitives, base: Bytes, submitted: seq<Bytes>, sent: seq<Bytes>, now: Session,
                       pick: seq<nat>)
    requires AllDerivable(p, base) && Streamed(p, base, 0, submitted, sent, now) && GoodPick(pick, |sent|)
    requires forall i :: 0 <= i < |submitted| ==> |submitted[i]| <= GCM_MAX
    ensures |sent| <= |submitted| && |sent| < U32_LIMIT
    ensures ArePicked(p, base, submitted[..|sent|], pick, Picked(sent, pick))
  {
  }

  lemma HearsPicked(p: Primitives, s: Session, ssrc: u32, base: Bytes, opus: seq<Bytes>, pick: seq<nat>,
                    frames: seq<Bytes>)
    requires AllDerivable(p, base) && Follows(p, s, ssrc, base, 0) && |opus| < U32_LIMIT
    requires ArePicked(p, base, opus, pick, frames)
    ensures Heard(DecryptAll(p, s, ssrc, frames).1, opus, pick)
  {
    HearsFirst(p, s, ssrc, base, opus, pick, frames, |pick|);
    assert frames[..|pick|] == frames && pick[..|pick|] == pick;
  }

  /** A run of the sender's stream, heard through any good pick of its frames. */
  lemma StreamIsHeard(p: Primitives, s: Session, base: Bytes, es: seq<Event>, listener: Session, ssrc: u32,
                      pick: seq<nat>)
    requires s.active && s.sender.senderNonce == 0 && InStep(p, s.sender, base) && AllDerivable(p, base)
    requires StreamRun(p, s, es) && (forall i :: 0 <= i < |Submitted(es)| ==> |Submitted(es)[i]| <= GCM_MAX)
    requires Follows(p, listener, ssrc, base, 0) && GoodPick(pick, |Sent(p, s, es)|)
    ensures Heard(DecryptAll(p, listener, ssrc, Picked(Sent(p, s, es), pick)).1, Submitted(es), pick)
  {
    NoncesAreConsecutive(p, s, base, es);
    PicksAreFrames(p, base, Submitted(es), Sent(p, s, es), After(p, s, es), pick);
    HearsPicked(p, listener, ssrc, base, Submitted(es)[..|Sent(p, s, es)|], pick, Picked(Sent(p, s, es), pick));
  }

  /** After the sender executes a transition, any calls that keep its stream, and any picked
      frames delivered in order: a listener of the same group that knows the speaker hears exactly
      the submitted audio of those frames. */
  lemma SentIsHeard(p: Primitives, before: Session, id: u16, es: seq<Event>, listener: Session, ssrc: u32,
                    pick: seq<nat>)
    requires before.transition.pendingVersion > 0 && ExecuteTransition(p, before, id).1
    requires BaseSecret(p, before.mls.group, before.userID).Some?
          && AllDerivable(p, BaseSecret(p, before.mls.group, before.userID).value)
    requires StreamRun(p, ExecuteTransition(p, before, id).0, es)
    requires forall i :: 0 <= i < |Submitted(es)| ==> |Submitted(es)[i]| <= GCM_MAX
    requires listener.active && listener.mls.group == before.mls.group && ssrc !in listener.receivers
    requires ssrc in listener.ssrcToUserID && listener.ssrcToUserID[ssrc] == before.userID
    requires GoodPick(pick, |Sent(p, ExecuteTransition(p, before, id).0, es)|)
    ensures var sent := Sent(p, ExecuteTransition(p, before, id).0, es);
            Heard(DecryptAll(p, listener, ssrc, Picked(sent, pick)).1, Submitted(es), pick)
  {
    var base := BaseSecret(p, before.mls.group, before.userID).value;
    ExecutionStartsStream(p, before, id);
    KnownSpeakerFollows(p, listener, ssrc, base);
    StreamIsHeard(p, ExecuteTransition(p, before, id).0, base, es, listener, ssrc, pick);
  }

  // ---- listeners that change epochs

  /** Whatever receivers a session had, once it has taken a welcome or commit it follows every known
      speaker of the new group from the start: nothing of the old epoch is left to listen with. */
  lemma NewEpochFollows(p: Primitives, s: Session, call: EpochCall, ssrc: u32, base: Bytes)
    requires HandleEpochMessage(s, call).1 && s.active && ssrc in s.ssrcToUserID
    requires BaseSecret(p, Some(call.processed.group), s.ssrcToUserID[ssrc]) == Some(base) && Derivable(p, base, 0)
    ensures Follows(p, HandleEpochMessage(s, call).0, ssrc, base, 0)
  {
    KnownSpeakerFollows(p, HandleEpochMessage(s, call).0, ssrc, base);
  }

  /** No frame of the speaker is given to the session. */
  ghost predicate Unheard(es: seq<Event>, ssrc: u32)
  {
    forall i :: 0 <= i < |es| ==> !(es[i].Decrypt? && es[i].ssrc == ssrc)
  }

  lemma UnheardStep(p: Primitives, s: Session, e: Event, ssrc: u32)
    requires ssrc !in s.receivers && !(e.Decrypt? && e.ssrc == ssrc)
    ensures ssrc !in Step(p, s, e).0.receivers
  {
    hide Receive, Parse, ExecuteTransition, EncryptFrame;
    if e.Execute? { ExecutionKeepsOrDrops(p, s, e.id); }
    if e.Encrypt? { EncryptionKeepsOrDrops(p, s, e.opus); }
  }

  lemma ExecutionKeepsOrDrops(p: Primitives, s: Session, id: u16)
    ensures ExecuteTransition(p, s, id).0.receivers == s.receivers || ExecuteTransition(p, s, id).0.receivers == map[]
  {
  }

  lemma EncryptionKeepsOrDrops(p: Primitives, s: Session, opus: Bytes)
    ensures EncryptFrame(p, s, opus).0.receivers == s.receivers || EncryptFrame(p, s, opus).0.receivers == map[]
  {
  }

  lemma {:induction false} UnheardHasNoReceiver(p: Primitives, s: Session, es: seq<Event>, ssrc: u32)
    requires ssrc !in s.receivers && Unheard(es, ssrc)
    ensures ssrc !in After(p, s, es).receivers
  {
    if es != [] {
      UnheardHasNoReceiver(p, s, es[..|es| - 1], ssrc);
      UnheardStep(p, After(p, s, es[..|es| - 1]), es[|es| - 1], ssrc);
    }
  }

  /** The same for a listener in any state whatever that has taken the new epoch's welcome or commit
      and then made any calls, its own transition among them, but been given no frame of the speaker
      yet: it hears what the sender sends in that epoch, though it may have heard it in others. */
  lemma SentIsHeardInNewEpoch(p: Primitives, before: Session, id: u16, es: seq<Event>, old_: Session, call: EpochCall,
                              between: seq<Event>, ssrc: u32, pick: seq<nat>)
    requires before.transition.pendingVersion > 0 && ExecuteTransition(p, before, id).1
    requires BaseSecret(p, before.mls.group, before.userID).Some?
          && AllDerivable(p, BaseSecret(p, before.mls.group, before.userID).value)
    requires StreamRun(p, ExecuteTransition(p, before, id).0, es)
    requires forall i :: 0 <= i < |Submitted(es)| ==> |Submitted(es)[i]| <= GCM_MAX
    requires HandleEpochMessage(old_, call).1 && Unheard(between, ssrc)
    requires var listener := After(p, HandleEpochMessage(old_, call).0, between);
             && listener.active && listener.mls.group == before.mls.group
             && ssrc in listener.ssrcToUserID && listener.ssrcToUserID[ssrc] == before.userID
    requires GoodPick(pick, |Sent(p, ExecuteTransition(p, before, id).0, es)|)
    ensures var sent := Sent(p, ExecuteTransition(p, before, id).0, es);
            var listener := After(p, HandleEpochMessage(old_, call).0, between);
            Heard(DecryptAll(p, listener, ssrc, Picked(sent, pick)).1, Submitted(es), pick)
  {
    UnheardHasNoReceiver(p, HandleEpochMessage(old_, call).0, between, ssrc);
    SentIsHeard(p, before, id, es, After(p, HandleEpochMessage(old_, call).0, between), ssrc, pick);
  }

  // ---- any frames one receiver is given

  ghost predicate InRange(frames: seq<Parts>)
  {
    forall i :: 0 <= i < |frames| ==> frames[i].nonce < U32_LIMIT
  }

  /** The receiver after any frames, genuine or not. */
  function ReceiveAll(p: Primitives, r: Receiver, frames: seq<Parts>): Receiver
    requires InRange(frames)
  {
    if frames == [] then r
    else Receive(p, ReceiveAll(p, r, frames[..|frames| - 1]), frames[|frames| - 1]).0
  }

  /** The nonces of the frames that were answered with their audio. */
  function AcceptedNonces(p: Primitives, r: Receiver, frames: seq<Parts>): seq<u32>
    requires InRange(frames)
  {
    if frames == [] then []
    else
      var before, last := frames[..|frames| - 1], frames[|frames| - 1];
      AcceptedNonces(p, r, before)
      + if Receive(p, ReceiveAll(p, r, before), last).1.Ok? then [last.nonce] else []
  }

  lemma ReceiveKeepsExact(p: Primitives, r: Receiver, parts: Parts, accepted: seq<u32>)
    requires parts.nonce < U32_LIMIT && Exact(r.replay, accepted)
    ensures var (next, answer) := Receive(p, r, parts);
            Exact(next.replay, if answer.Ok? then accepted + [parts.nonce] else accepted)
  {
    hide Exact, Open, Accept, Fresh;
    if Fresh(r.replay, parts.nonce) { AcceptKeepsExact(r.replay, accepted, parts.nonce); }
  }

  /** Over every sequence of frames one receiver is given, its window is exactly the set of the
      nonces it has accepted, and it accepts none twice. */
  lemma {:induction false} ReceiverWindowIsExact(p: Primitives, r: Receiver, frames: seq<Parts>)
    requires r.replay == NO_NONCES && InRange(frames)
    ensures Exact(ReceiveAll(p, r, frames).replay, AcceptedNonces(p, r, frames))
  {
    if frames != [] {
      hide Receive, Exact;
      var before, last := frames[..|frames| - 1], frames[|frames| - 1];
      ReceiverWindowIsExact(p, r, before);
      ReceiveKeepsExact(p, ReceiveAll(p, r, before), last, AcceptedNonces(p, r, before));
      assert AcceptedNonces(p, r, before) + [] == AcceptedNonces(p, r, before);
    } else {
      NothingAccepted();
    }
  }

  lemma NothingAccepted()
    ensures Exact(NO_NONCES, [])
  {
  }

  /** The receiver's generation is never behind the highest nonce it accepted. */
  predicate InGeneration(r: Receiver)
  {
    r.replay.hasNonce ==> r.replay.highest / GENERATION_SIZE <= r.generation
  }

  lemma ReceiveKeepsGeneration(p: Primitives, r: Receiver, parts: Parts)
    requires parts.nonce < U32_LIMIT && InGeneration(r)
    ensures InGeneration(Receive(p, r, parts).0)
  {
    hide Open;
  }

  lemma {:induction false} ReceiverStaysInGeneration(p: Primitives, r: Receiver, frames: seq<Parts>)
    requires r.replay == NO_NONCES && InRange(frames)
    ensures InGeneration(ReceiveAll(p, r, frames))
  {
    if frames != [] {
      hide Receive, InGeneration;
      ReceiverStaysInGeneration(p, r, frames[..|frames| - 1]);
      ReceiveKeepsGeneration(p, ReceiveAll(p, r, frames[..|frames| - 1]), frames[|frames| - 1]);
    } else {
      assert InGeneration(r);
    }
  }

  // ---- rejected frames

  /** A frame that passes the replay check, belongs to the next generation, and finds a key there
      that is new to the receiver. */
  predicate EntersNext(p: Primitives, r: Receiver, parts: Parts)
    requires parts.nonce < U32_LIMIT
  {
    && Fresh(r.replay, parts.nonce) && parts.nonce / GENERATION_SIZE == r.generation + 1
    && var key := RatchetKey(p, r.baseSecret, r.generation + 1);
       key.Some? && (ValidAesKey(key.value) || key.value != r.key)
  }

  /** A refused frame leaves the receiver as it was, unless it is a frame of the next generation:
      that generation is entered before the tag is compared, and stays. */
  lemma RefusalKeepsReceiver(p: Primitives, r: Receiver, parts: Parts)
    requires parts.nonce < U32_LIMIT && Receive(p, r, parts).1.Err?
    ensures Receive(p, r, parts).0 == r <==> !EntersNext(p, r, parts)
  {
  }

  /** A tag other than the given one. */
  function OtherTag(tag: Bytes): (r: Bytes)
    requires |tag| == TAG_SIZE
    ensures |r| == TAG_SIZE && r != tag
  {
    [if tag[0] == 0 then 1 else 0] + tag[1..]
  }

  /** So it happens: to any receiver there is a frame of the next generation with a wrong tag that is
      refused and yet moves the receiver on, and from then on it refuses every frame of the
      generation it was in, genuine or not. */
  lemma RefusedFrameMovesReceiver(p: Primitives, r: Receiver, opus: Bytes) returns (wrong: Parts)
    requires InGeneration(r) && r.generation < 255 && Derivable(p, r.baseSecret, r.generation + 1) && |opus| <= GCM_MAX
    ensures wrong.nonce < U32_LIMIT && Receive(p, r, wrong).1 == Err(TagMismatch)
    ensures Receive(p, r, wrong).0.generation == r.generation + 1
    ensures forall parts: Parts :: parts.nonce < U32_LIMIT && parts.nonce / GENERATION_SIZE == r.generation ==>
              Receive(p, Receive(p, r, wrong).0, parts).1.Err?
  {
    var nonce: u32 := (r.generation + 1) * GENERATION_SIZE;
    var key := RatchetKey(p, r.baseSecret, r.generation + 1).value;
    var right := Seal(p, key, nonce, opus);
    wrong := right.(tag := OtherTag(right.tag));
    OpensExactlySealed(p, key, right, opus);
  }
}
