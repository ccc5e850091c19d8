/** The media-encryption session as a value: its fields, every handler as a state change,
    and the receiver of one remote speaker. Results of MLS operations are parameters. */
module DaveModel {
  import opened Prelude
  import opened ByteOrder
  import opened Cipher
  import opened SecureFrame
  import opened HashRatchet
  import opened ReplayWindow

  // ---- one remote speaker

  datatype Receiver = Receiver(baseSecret: Bytes, generation: u32, key: Bytes, blockKey: Bytes, aeadKey: Bytes,
                               replay: Replay)

  datatype DecryptError = BadFrame(cause: FrameError) | UnknownSpeaker | NoReceiver | Replayed | BadGeneration
                        | NoRatchetKey | TagMismatch

  /** Nonces are 32 bits and the generation is their top byte. */
  const GENERATION_SIZE: nat := 0x100_0000

  /** Moves the receiver to a frame's generation. The key is stored before AES judges it. */
  function Advance(p: Primitives, r: Receiver, generation: u32): (Receiver, Option<DecryptError>)
  {
    if generation == r.generation then (r, None)
    else if generation < r.generation || generation > r.generation + 1 then (r, Some(BadGeneration))
    else
      match RatchetKey(p, r.baseSecret, generation)
      case None => (r, Some(NoRatchetKey))
      case Some(key) =>
        if !ValidAesKey(key) then (r.(key := key), Some(NoRatchetKey))
        else (r.(key := key, blockKey := key, aeadKey := key, generation := generation), None)
  }

  function Receive(p: Primitives, r: Receiver, parts: Parts): (Receiver, Result<Bytes, DecryptError>)
    requires parts.nonce < U32_LIMIT
  {
    if !Fresh(r.replay, parts.nonce) then (r, Err(Replayed))
    else
      var (moved, problem) := Advance(p, r, parts.nonce / GENERATION_SIZE);
      if problem.Some? then (moved, Err(problem.value))
      else
        match Open(p, moved.blockKey, moved.aeadKey, parts)
        case None => (moved, Err(TagMismatch))
        case Some(plaintext) => (moved.(replay := Accept(moved.replay, parts.nonce)), Ok(plaintext))
  }

  // ---- the session

  /** The sending side: key, nonce counter, cipher, ratchet base secret and generation. */
  datatype Sender = Sender(
    senderKey: Option<Bytes>,
    senderNonce: u32,
    frameCipher: Option<Bytes>,
    ratchetBaseSecret: Option<Bytes>,
    currentGeneration: u32)

  const NO_SENDER := Sender(None, 0, None, None, 0)

  datatype Transition = Transition(
    pendingTransitionID: u16,
    pendingVersion: int,
    pendingTransition: bool,
    lastTransitionID: u16,
    hasLastTransition: bool)

  datatype Mls = Mls(epoch: u64, groupID: Bytes, protocolVersion: int, group: Option<nat>, groupErr: bool)

  datatype Session = Session(
    userID: string,
    sender: Sender,
    active: bool,
    hasPendingKey: bool,
    receivers: map<u32, Receiver>,
    transition: Transition,
    mls: Mls,
    ssrcToUserID: map<u32, string>)

  /** What an MLS call did: whether it succeeded, and the group state it left behind. */
  datatype GroupCall = GroupCall(ok: bool, group: nat)

  /** Processing a welcome or commit and then asking for the epoch. */
  datatype EpochCall = EpochCall(processed: GroupCall, epoch: Option<u64>)

  datatype EncryptError = NotActive | NoCipher | NonceExhausted | KeyUnavailable

  function ParseDigits(s: string): Option<nat>
  {
    if s == [] then Some(0)
    else
      var c := s[|s| - 1];
      match ParseDigits(s[..|s| - 1])
      case None => None
      case Some(n) => if '0' <= c <= '9' then Some(10 * n + (c as int - '0' as int)) else None
  }

  /** Decimal digits of a 64-bit number. */
  function ParseUint(s: string): (r: Option<u64>)
  {
    match ParseDigits(s)
    case None => None
    case Some(n) => if s == [] || n >= 0x1_0000_0000_0000_0000 then None else Some(n)
  }

  function NewSession(userID: string, group: Option<nat>): Session
  {
    var ready := ParseUint(userID).Some? && group.Some?;
    Session(userID, NO_SENDER, false, false, map[], Transition(0, 0, false, 0, false),
            Mls(0, [], 0, if ready then group else None, !ready), map[])
  }

  function ClearMedia(s: Session): Session
  {
    s.(sender := NO_SENDER, active := false, hasPendingKey := false, receivers := map[])
  }

  function ClearPending(t: Transition): Transition
  {
    t.(pendingTransitionID := 0, pendingVersion := 0, pendingTransition := false)
  }

  /** Media state and pending transition cleared, and the MLS fields replaced. */
  function Restarted(s: Session, mls: Mls): Session
  {
    ClearMedia(s).(transition := ClearPending(s.transition), mls := mls)
  }

  function Configure(s: Session, groupID: string, version: int, reset: GroupCall): (Session, bool)
  {
    if s.mls.groupErr || ParseUint(groupID).None? then (s, false)
    else
      var named := s.mls.(groupID := BigEndian(ParseUint(groupID).value, 8), protocolVersion := version,
                          group := Some(reset.group));
      if !reset.ok then (s.(mls := named), false) else (Restarted(s, named), true)
  }

  /** `package` is the outcome of generating a key package afterwards. */
  function ResetForReWelcome(s: Session, reset: GroupCall, package: GroupCall): (Session, bool)
  {
    if s.mls.groupErr || |s.mls.groupID| == 0 then (s, false)
    else if !reset.ok then (s.(mls := s.mls.(group := Some(reset.group))), false)
    else (Restarted(s, s.mls.(group := Some(package.group))), package.ok)
  }

  /** Welcomes and commits are handled alike. */
  function HandleEpochMessage(s: Session, call: EpochCall): (Session, bool)
  {
    if s.mls.groupErr then (s, false)
    else
      var mls := s.mls.(group := Some(call.processed.group));
      if !call.processed.ok || call.epoch.None? then (s.(mls := mls), false)
      else (s.(mls := mls.(epoch := call.epoch.value), hasPendingKey := true, receivers := map[]), true)
  }

  function PrepareTransition(s: Session, id: u16, version: int): (Session, bool)
  {
    var t := s.transition;
    if version != 0 && version != 1 then (s, false)
    else if t.hasLastTransition && id == t.lastTransitionID then (s, false)
    else if t.pendingTransition && id != t.pendingTransitionID then (s, false)
    else if version > 0 && !s.hasPendingKey then (s, false)
    else
      (s.(transition := t.(pendingTransitionID := id, pendingVersion := version, pendingTransition := true)), true)
  }

  function ExecuteTransition(p: Primitives, s: Session, id: u16): (Session, bool)
  {
    var t := s.transition;
    if !t.pendingTransition || id != t.pendingTransitionID then (s, false)
    else if t.pendingVersion > 0 && !s.hasPendingKey then (s, false)
    else
      var (sender, ok) := if t.pendingVersion > 0 then DeriveSenderKey(p, s) else (NO_SENDER, true);
      if !ok then (s.(sender := sender), false)
      else
        var media := if t.pendingVersion > 0 then s.(sender := sender, hasPendingKey := false, active := true)
                     else ClearMedia(s);
        (media.(mls := s.mls.(protocolVersion := t.pendingVersion),
                transition := t.(pendingTransition := false, hasLastTransition := true, lastTransitionID := id)), true)
  }

  function PrepareEpoch(s: Session, epoch: u64, version: int, reset: GroupCall, package: GroupCall): (Session, bool)
  {
    if epoch == 0 || (version != 0 && version != 1) then (s, false)
    else
      var mls := s.mls.(epoch := epoch, protocolVersion := version);
      if epoch != 1 then (s.(mls := mls), true)
      else if version == 0 then (Restarted(s, mls), true)
      else if |mls.groupID| == 0 then (s.(mls := mls), false)
      else if !reset.ok then (s.(mls := mls.(group := Some(reset.group))), false)
      else (Restarted(s, mls.(group := Some(package.group))), package.ok)
  }

  /** The exporter's secret for a user in the current group. */
  function BaseSecret(p: Primitives, group: Option<nat>, userID: string): Option<Bytes>
  {
    if group.None? then None
    else
      match ParseUint(userID)
      case None => None
      case Some(id) => p.exporter(group.value, EXPORT_LABEL, LittleEndian(id, 8), KEY_SIZE)
  }

  function DeriveSenderKey(p: Primitives, s: Session): (Sender, bool)
  {
    match BaseSecret(p, s.mls.group, s.userID)
    case None => (s.sender, false)
    case Some(base) =>
      var restarted := s.sender.(ratchetBaseSecret := Some(base), currentGeneration := 0, senderNonce := 0);
      match RatchetKey(p, base, 0)
      case None => (restarted, false)
      case Some(key) =>
        if !ValidAesKey(key) then (restarted.(senderKey := Some(key)), false)
        else (restarted.(senderKey := Some(key), frameCipher := Some(key)), true)
  }

  /** The ratchet's base secret; before the first derivation it is the empty slice. */
  function RatchetBase(s: Sender): Bytes
  {
    if s.ratchetBaseSecret.Some? then s.ratchetBaseSecret.value else []
  }

  /** Moves the sender to a generation, which is stored before the key is derived. */
  function Ratchet(p: Primitives, s: Sender, generation: u32): (Sender, bool)
  {
    if generation == s.currentGeneration then (s, true)
    else
      var moved := s.(currentGeneration := generation);
      match RatchetKey(p, RatchetBase(s), generation)
      case None => (moved, false)
      case Some(key) =>
        if !ValidAesKey(key) then (moved.(senderKey := Some(key)), false)
        else (moved.(senderKey := Some(key), frameCipher := Some(key)), true)
  }

  /** Counts the nonce up, ratchets where it enters a new generation, and seals the frame. */
  function SendNext(p: Primitives, s: Sender, opus: Bytes): (Sender, Result<Bytes, EncryptError>)
    requires s.frameCipher.Some? && s.senderNonce < U32_LIMIT - 1
  {
    var nonce: u32 := s.senderNonce + 1;
    var (keyed, ok) := Ratchet(p, s.(senderNonce := nonce), nonce / GENERATION_SIZE);
    if !ok then (keyed, Err(KeyUnavailable))
    else (keyed, Ok(Layout(Seal(p, keyed.frameCipher.value, nonce, opus))))
  }

  function EncryptFrame(p: Primitives, s: Session, opus: Bytes): (Session, Result<Bytes, EncryptError>)
  {
    if !s.active then (s, Err(NotActive))
    else if s.sender.frameCipher.None? then (s, Err(NoCipher))
    else if s.sender.senderNonce == U32_LIMIT - 1 then (ClearMedia(s), Err(NonceExhausted))
    else
      var (sender, r) := SendNext(p, s.sender, opus);
      (s.(sender := sender), r)
  }

  function CreateReceiver(p: Primitives, group: Option<nat>, userID: string): Option<Receiver>
  {
    match BaseSecret(p, group, userID)
    case None => None
    case Some(base) =>
      if !Derivable(p, base, 0) then None
      else
        var key := RatchetKey(p, base, 0).value;
        Some(Receiver(base, 0, key, key, key, NO_NONCES))
  }

  /** Makes sure a speaker has a receiver; only a known one is given a new receiver. */
  function Enrol(p: Primitives, s: Session, ssrc: u32): (r: (Session, Option<DecryptError>))
    ensures r.1.None? ==> ssrc in r.0.receivers
  {
    if ssrc in s.receivers then (s, None)
    else if ssrc !in s.ssrcToUserID then (s, Some(UnknownSpeaker))
    else
      match CreateReceiver(p, s.mls.group, s.ssrcToUserID[ssrc])
      case None => (s, Some(NoReceiver))
      case Some(r) => (s.(receivers := s.receivers[ssrc := r]), None)
  }

  /** Looking up a speaker leaves everything else alone: the receivers there are, and the session if
      there is nothing to create. */
  lemma EnrolLeavesOthers(p: Primitives, s: Session, ssrc: u32, other: u32)
    ensures var (enrolled, problem) := Enrol(p, s, ssrc);
            && enrolled == s.(receivers := enrolled.receivers)
            && (other in s.receivers ==> other in enrolled.receivers && enrolled.receivers[other] == s.receivers[other])
            && (other in enrolled.receivers ==> other in s.receivers || (other == ssrc && problem.None?))
            && (problem.Some? ==> enrolled == s)
  {
  }

  /** A receive by a speaker that has a receiver. */
  function ReceiveAt(p: Primitives, s: Session, ssrc: u32, parts: Parts): (Session, Result<Bytes, DecryptError>)
    requires ssrc in s.receivers && parts.nonce < U32_LIMIT
  {
    var (r, answer) := Receive(p, s.receivers[ssrc], parts);
    (s.(receivers := s.receivers[ssrc := r]), answer)
  }

  function DecryptParts(p: Primitives, s: Session, ssrc: u32, parts: Parts): (Session, Result<Bytes, DecryptError>)
    requires parts.nonce < U32_LIMIT
  {
    var (enrolled, problem) := Enrol(p, s, ssrc);
    if problem.Some? then (enrolled, Err(problem.value)) else ReceiveAt(p, enrolled, ssrc, parts)
  }

  function DecryptFrame(p: Primitives, s: Session, ssrc: u32, data: Bytes): (Session, Result<Bytes, DecryptError>)
  {
    if !s.active then (s, Ok(data))
    else
      match Parse(data)
      case Err(e) => (s, Err(BadFrame(e)))
      case Ok(parts) => LayoutUndoesParse(data); DecryptParts(p, s, ssrc, parts)
  }

  function Reset(s: Session): Session
  {
    Restarted(s, s.mls).(
      transition := ClearPending(s.transition).(lastTransitionID := 0, hasLastTransition := false),
      ssrcToUserID := map[])
  }
}
