/** What a session takes for a speaker's frame, on any bytes at all: exactly what sealing some audio
    under the speaker's key of the nonce's generation lays out. */
module DaveFrames {
  import opened Prelude
  import opened Cipher
  import opened SecureFrame
  import opened HashRatchet
  import opened ReplayWindow
  import opened DaveModel
  import opened DaveRuns

  // ---- receivers are keyed

  /** Both ciphers of a receiver have the key of its generation. */
  predicate Keyed(p: Primitives, r: Receiver)
  {
    && Derivable(p, r.baseSecret, r.generation)
    && r.blockKey == r.aeadKey == RatchetKey(p, r.baseSecret, r.generation).value
  }

  ghost predicate AllKeyed(p: Primitives, s: Session)
  {
    forall k :: k in s.receivers ==> Keyed(p, s.receivers[k])
  }

  lemma ReceiveKeepsKeyed(p: Primitives, r: Receiver, parts: Parts)
    requires parts.nonce < U32_LIMIT && Keyed(p, r)
    ensures Keyed(p, Receive(p, r, parts).0)
  {
    hide Open, Accept, Fresh;
  }

  lemma DecryptKeepsKeyed(p: Primitives, s: Session, ssrc: u32, data: Bytes)
    requires AllKeyed(p, s)
    ensures AllKeyed(p, DecryptFrame(p, s, ssrc, data).0)
  {
    hide Keyed, Parse, Receive;
    if s.active && Parse(data).Ok? {
      LayoutUndoesParse(data);
      var enrolled := Enrol(p, s, ssrc).0;
      NewReceiverIsKeyed(p, s, ssrc);
      if ssrc in enrolled.receivers { ReceiveKeepsKeyed(p, enrolled.receivers[ssrc], Parse(data).value); }
    }
  }

  lemma NewReceiverIsKeyed(p: Primitives, s: Session, ssrc: u32)
    requires AllKeyed(p, s)
    ensures AllKeyed(p, Enrol(p, s, ssrc).0)
  {
  }

  lemma StepKeepsKeyed(p: Primitives, s: Session, e: Event)
    requires AllKeyed(p, s)
    ensures AllKeyed(p, Step(p, s, e).0)
  {
    if e.Decrypt? { DecryptKeepsKeyed(p, s, e.ssrc, e.data); } else { ReceiversStayOrGo(p, s, e); }
  }

  /** Only decrypting makes or changes a receiver. */
  lemma ReceiversStayOrGo(p: Primitives, s: Session, e: Event)
    requires !e.Decrypt?
    ensures Step(p, s, e).0.receivers == s.receivers || Step(p, s, e).0.receivers == map[]
  {
  }

  /** In every state of every run all receivers are keyed. */
  lemma {:induction false} EveryReceiverIsKeyed(p: Primitives, userID: string, group: Option<nat>, es: seq<Event>)
    ensures AllKeyed(p, After(p, NewSession(userID, group), es))
  {
    if es != [] {
      hide AllKeyed, Step, NewSession;
      EveryReceiverIsKeyed(p, userID, group, es[..|es| - 1]);
      StepKeepsKeyed(p, After(p, NewSession(userID, group), es[..|es| - 1]), es[|es| - 1]);
    }
  }

  // ---- what is taken for a frame

  /** The base secret of a speaker's frames: its receiver's or, before there is one, what the group
      exports for the user the speaker is known as. */
  function SpeakerSecret(p: Primitives, s: Session, ssrc: u32): Option<Bytes>
  {
    if ssrc in s.receivers then Some(s.receivers[ssrc].baseSecret)
    else if ssrc in s.ssrcToUserID then BaseSecret(p, s.mls.group, s.ssrcToUserID[ssrc])
    else None
  }

  function Generation(s: Session, ssrc: u32): u32
  {
    if ssrc in s.receivers then s.receivers[ssrc].generation else 0
  }

  function Heard(s: Session, ssrc: u32): Replay
  {
    if ssrc in s.receivers then s.receivers[ssrc].replay else NO_NONCES
  }

  /** A frame with this nonce would be news from the speaker: not accepted before and not too old,
      of the current generation or the next, and both have keys. */
  predicate Expects(p: Primitives, s: Session, ssrc: u32, base: Bytes, nonce: u32)
  {
    && SpeakerSecret(p, s, ssrc) == Some(base)
    && Fresh(Heard(s, ssrc), nonce)
    && Generation(s, ssrc) <= nonce / GENERATION_SIZE <= Generation(s, ssrc) + 1
    && Derivable(p, base, Generation(s, ssrc)) && Derivable(p, base, nonce / GENERATION_SIZE)
  }

  predicate IsFrameOf(p: Primitives, s: Session, ssrc: u32, data: Bytes, opus: Bytes, base: Bytes, nonce: u32)
  {
    Expects(p, s, ssrc, base, nonce) && data == FrameOf(p, base, nonce, opus)
  }

  lemma ReceivesExactly(p: Primitives, r: Receiver, parts: Parts, opus: Bytes)
    requires parts.nonce < U32_LIMIT && |parts.ciphertext| <= GCM_MAX && |opus| <= GCM_MAX && Keyed(p, r)
    ensures Receive(p, r, parts).1 == Ok(opus) <==>
              && Fresh(r.replay, parts.nonce) && Derivable(p, r.baseSecret, parts.nonce / GENERATION_SIZE)
              && r.generation <= parts.nonce / GENERATION_SIZE <= r.generation + 1
              && parts == Seal(p, Key(p, r.baseSecret, parts.nonce), parts.nonce, opus)
  {
    hide Open, Seal, Accept, Fresh;
    var g := parts.nonce / GENERATION_SIZE;
    if Fresh(r.replay, parts.nonce) && r.generation <= g <= r.generation + 1 && Derivable(p, r.baseSecret, g) {
      OpensExactlySealed(p, Key(p, r.baseSecret, parts.nonce), parts, opus);
    }
  }

  /** The receiver a frame meets is there, or is one the speaker's secret gives. */
  lemma EnrolledReceiver(p: Primitives, s: Session, ssrc: u32)
    requires AllKeyed(p, s)
    ensures var (enrolled, problem) := Enrol(p, s, ssrc); var secret := SpeakerSecret(p, s, ssrc);
            && (problem.None? <==> secret.Some? && Derivable(p, secret.value, Generation(s, ssrc)))
            && (problem.None? ==>
                  && ssrc in enrolled.receivers && enrolled.receivers[ssrc].baseSecret == secret.value
                  && enrolled.receivers[ssrc].generation == Generation(s, ssrc)
                  && enrolled.receivers[ssrc].replay == Heard(s, ssrc) && Keyed(p, enrolled.receivers[ssrc]))
  {
  }

  lemma DecryptsParts(p: Primitives, s: Session, ssrc: u32, parts: Parts, opus: Bytes)
    requires AllKeyed(p, s) && parts.nonce < U32_LIMIT && |parts.ciphertext| <= GCM_MAX && |opus| <= GCM_MAX
    ensures DecryptParts(p, s, ssrc, parts).1 == Ok(opus) <==>
              && SpeakerSecret(p, s, ssrc).Some? && Expects(p, s, ssrc, SpeakerSecret(p, s, ssrc).value, parts.nonce)
              && parts == Seal(p, Key(p, SpeakerSecret(p, s, ssrc).value, parts.nonce), parts.nonce, opus)
  {
    hide Receive, Seal, Fresh;
    EnrolledReceiver(p, s, ssrc);
    if Enrol(p, s, ssrc).1.None? { ReceivesExactly(p, Enrol(p, s, ssrc).0.receivers[ssrc], parts, opus); }
  }

  lemma LayoutSize(parts: Parts)
    requires |parts.tag| == TAG_SIZE && parts.nonce < U32_LIMIT
    ensures |parts.ciphertext| <= |Layout(parts)|
  {
  }

  /** Any bytes, given to an active session, come out as audio exactly if they are the frame of that
      audio: sealed under the speaker's key of the nonce's generation, with a nonce that is news. */
  lemma DecryptsExactly(p: Primitives, s: Session, ssrc: u32, data: Bytes, opus: Bytes)
    requires s.active && AllKeyed(p, s) && |data| <= GCM_MAX
    ensures DecryptFrame(p, s, ssrc, data).1 == Ok(opus) <==>
              exists base: Bytes, nonce: u32 :: IsFrameOf(p, s, ssrc, data, opus, base, nonce)
  {
    hide Parse, Expects, SpeakerSecret, Seal, Layout, DecryptParts;
    if DecryptFrame(p, s, ssrc, data).1 == Ok(opus) {
      LayoutUndoesParse(data);
      var parts := Parse(data).value;
      LayoutSize(parts);
      OpenedSize(p, s, ssrc, parts, opus);
      DecryptsParts(p, s, ssrc, parts, opus);
      assert IsFrameOf(p, s, ssrc, data, opus, SpeakerSecret(p, s, ssrc).value, parts.nonce);
    }
    forall base: Bytes, nonce: u32 | IsFrameOf(p, s, ssrc, data, opus, base, nonce)
      ensures DecryptFrame(p, s, ssrc, data).1 == Ok(opus)
    {
      ExpectedSecret(p, s, ssrc, base, nonce);
      var parts := Seal(p, Key(p, base, nonce), nonce, opus);
      ParseUndoesLayout(parts);
      LayoutSize(parts);
      DecryptsParts(p, s, ssrc, parts, opus);
    }
  }

  lemma ExpectedSecret(p: Primitives, s: Session, ssrc: u32, base: Bytes, nonce: u32)
    requires Expects(p, s, ssrc, base, nonce)
    ensures SpeakerSecret(p, s, ssrc) == Some(base) && Derivable(p, base, nonce / GENERATION_SIZE)
  {
  }

  lemma OpenedSize(p: Primitives, s: Session, ssrc: u32, parts: Parts, opus: Bytes)
    requires parts.nonce < U32_LIMIT && DecryptParts(p, s, ssrc, parts).1 == Ok(opus)
    ensures |opus| == |parts.ciphertext|
  {
    hide Enrol, Advance, Accept, Fresh;
  }

  // ---- what is refused, and what stays

  /** Bytes of the frame layout. */
  ghost predicate IsLaidOut(data: Bytes)
  {
    exists parts: Parts :: IsLayoutOf(data, parts)
  }

  predicate IsLayoutOf(data: Bytes, parts: Parts)
  {
    |parts.tag| == TAG_SIZE && parts.nonce < U32_LIMIT && data == Layout(parts)
  }

  /** An inactive session hands everything on as it is. An active one refuses exactly what is not
      laid out as a frame, unencrypted audio for one, without looking at the speaker, and stays as it
      was. */
  lemma OnlyFramesAreTried(p: Primitives, s: Session, ssrc: u32, data: Bytes)
    ensures !s.active ==> DecryptFrame(p, s, ssrc, data) == (s, Ok(data))
    ensures s.active && !IsLaidOut(data) ==>
              DecryptFrame(p, s, ssrc, data).0 == s && DecryptFrame(p, s, ssrc, data).1.Err?
    ensures s.active ==> (!IsLaidOut(data) <==>
              DecryptFrame(p, s, ssrc, data).1.Err? && DecryptFrame(p, s, ssrc, data).1.error.BadFrame?)
  {
    hide Layout, DecryptParts;
    if Parse(data).Ok? {
      LayoutUndoesParse(data);
      assert IsLayoutOf(data, Parse(data).value);
      PartsAreNoBadFrame(p, s, ssrc, Parse(data).value);
    } else {
      forall parts: Parts | IsLayoutOf(data, parts) ensures false { ParseUndoesLayout(parts); }
    }
  }

  /** Audio without the marker is refused as unencrypted, and so called, unless it is too short to be a
      frame at all. */
  lemma UnencryptedIsNamed(p: Primitives, s: Session, ssrc: u32, data: Bytes)
    ensures DecryptFrame(p, s, ssrc, data).1 == Err(BadFrame(NotDaveFrame)) <==>
              s.active && |data| >= 12 && data[|data| - 2..] != [0xFA, 0xFA]
    ensures DecryptFrame(p, s, ssrc, data).1 == Err(BadFrame(FrameError.TooShort)) <==> s.active && |data| < 12
  {
    hide DecryptParts;
    if |data| >= 12 { assert data[|data| - 2..] == [data[|data| - 2], data[|data| - 1]]; }
    if Parse(data).Ok? {
      LayoutUndoesParse(data);
      PartsAreNoBadFrame(p, s, ssrc, Parse(data).value);
    }
  }

  lemma PartsAreNoBadFrame(p: Primitives, s: Session, ssrc: u32, parts: Parts)
    requires parts.nonce < U32_LIMIT
    ensures var answer := DecryptParts(p, s, ssrc, parts).1; answer.Err? ==> !answer.error.BadFrame?
  {
  }

  /** Why the parts of a frame are refused, in the order the reasons are looked for. */
  lemma RefusedBecause(p: Primitives, s: Session, ssrc: u32, parts: Parts)
    requires AllKeyed(p, s) && parts.nonce < U32_LIMIT
    ensures var answer, secret, g := DecryptParts(p, s, ssrc, parts).1, SpeakerSecret(p, s, ssrc), Generation(s, ssrc);
            var known := ssrc in s.receivers || ssrc in s.ssrcToUserID;
            var heard := secret.Some? && Derivable(p, secret.value, g);
            var news := heard && Fresh(Heard(s, ssrc), parts.nonce);
            var near := news && g <= parts.nonce / GENERATION_SIZE <= g + 1;
            && (answer == Err(UnknownSpeaker) <==> !known) && (answer == Err(NoReceiver) <==> known && !heard)
            && (answer == Err(Replayed) <==> heard && !news) && (answer == Err(BadGeneration) <==> news && !near)
            && (answer == Err(NoRatchetKey) <==>
                  near && !Derivable(p, secret.value, parts.nonce / GENERATION_SIZE))
  {
    hide Fresh, Open, Accept;
    EnrolledReceiver(p, s, ssrc);
  }

  /** Decrypting touches nothing but the speaker's receiver. */
  lemma DecryptTouchesOneReceiver(p: Primitives, s: Session, ssrc: u32, data: Bytes, other: u32)
    requires other != ssrc
    ensures var next := DecryptFrame(p, s, ssrc, data).0;
            && next == s.(receivers := next.receivers) && (other in next.receivers <==> other in s.receivers)
            && (other in s.receivers ==> next.receivers[other] == s.receivers[other])
            && (ssrc in s.receivers ==> ssrc in next.receivers)
  {
    hide Parse, Receive;
    if s.active && Parse(data).Ok? {
      LayoutUndoesParse(data);
      EnrolLeavesOthers(p, s, ssrc, other);
      EnrolLeavesOthers(p, s, ssrc, ssrc);
    }
  }

  /** An accepted frame leaves the speaker's receiver at the frame's generation with the nonce entered. */
  lemma AcceptedMovesReceiver(p: Primitives, s: Session, ssrc: u32, parts: Parts, opus: Bytes)
    requires AllKeyed(p, s) && parts.nonce < U32_LIMIT && DecryptParts(p, s, ssrc, parts).1 == Ok(opus)
    ensures Fresh(Heard(s, ssrc), parts.nonce)
    ensures var r := DecryptParts(p, s, ssrc, parts).0.receivers;
            && ssrc in r && SpeakerSecret(p, s, ssrc) == Some(r[ssrc].baseSecret) && Keyed(p, r[ssrc])
            && r[ssrc].generation == parts.nonce / GENERATION_SIZE
            && r[ssrc].replay == Accept(Heard(s, ssrc), parts.nonce)
  {
    hide Fresh, Open, Accept;
    EnrolledReceiver(p, s, ssrc);
    ReceiveKeepsKeyed(p, Enrol(p, s, ssrc).0.receivers[ssrc], parts);
  }
}
