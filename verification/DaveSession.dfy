/** The media-encryption session as the mutable object it is. Every method is proved against
    its state change in DaveModel. */
module DaveSession {
  import opened Prelude
  import opened ByteOrder
  import opened Cipher
  import opened SecureFrame
  import opened HashRatchet
  import opened ReplayWindow
  import M = DaveModel

  class DaveReceiver {
    var baseSecret: Bytes
    var currentGeneration: u32
    var key: Bytes
    var aesBlock: Bytes
    var frameCipher: Bytes
    var highestNonce: u32
    var replayWindow: u64
    var hasNonce: bool
    /** The speaker it was created for. */
    ghost const ssrc: u32

    constructor (ghost ssrc: u32, baseSecret: Bytes, key: Bytes)
      ensures this.ssrc == ssrc
      ensures View() == M.Receiver(baseSecret, 0, key, key, key, NO_NONCES)
    {
      this.ssrc := ssrc;
      this.baseSecret, this.key, aesBlock, frameCipher := baseSecret, key, key, key;
      currentGeneration, highestNonce, replayWindow, hasNonce := 0, 0, 0, false;
    }

    function View(): M.Receiver
      reads this
    {
      M.Receiver(baseSecret, currentGeneration, key, aesBlock, frameCipher,
                 Replay(hasNonce, highestNonce, replayWindow))
    }

    method AcceptNonce(nonce: u32)
      requires Fresh(View().replay, nonce)
      modifies this`hasNonce, this`highestNonce, this`replayWindow
      ensures View() == old(View()).(replay := Accept(old(View()).replay, nonce))
    {
      if !hasNonce {
        highestNonce := nonce;
        replayWindow := 1;
        hasNonce := true;
        return;
      }
      if nonce > highestNonce {
        var delta := nonce - highestNonce;
        if delta >= 64 {
          replayWindow := 1;
        } else {
          replayWindow := SetBit(ShiftLeft(replayWindow, delta), 0);
        }
        highestNonce := nonce;
        return;
      }
      replayWindow := SetBit(replayWindow, highestNonce - nonce);
    }
  }

  /** The source's flat fields, grouped into the sender's, the transition's and the group's. */
  class DAVESession {
    const p: Primitives
    const userID: string
    var sender: M.Sender
    var active: bool
    var hasPendingKey: bool
    var receivers: map<u32, DaveReceiver>
    /** What each receiver holds. */
    ghost var speakers: map<u32, M.Receiver>
    var transition: M.Transition
    var mls: M.Mls
    var ssrcToUserID: map<u32, string>

    /** Every speaker has its own receiver. */
    ghost predicate Valid()
      reads this, receivers.Values
    {
      && (forall k :: k in receivers <==> k in speakers)
      && (forall k :: k in receivers ==> receivers[k].ssrc == k && receivers[k].View() == speakers[k])
    }

    ghost function View(): M.Session
      reads this
    {
      M.Session(userID, sender, active, hasPendingKey, speakers, transition, mls, ssrcToUserID)
    }

    constructor (p: Primitives, userID: string, newGroup: Option<nat>)
      ensures Valid() && View() == M.NewSession(userID, newGroup) && this.p == p
    {
      this.p, this.userID := p, userID;
      sender, active, hasPendingKey, receivers, speakers := M.NO_SENDER, false, false, map[], map[];
      transition, ssrcToUserID := M.Transition(0, 0, false, 0, false), map[];
      if M.ParseUint(userID).None? {
        mls := M.Mls(0, [], 0, None, true);
      } else {
        mls := M.Mls(0, [], 0, newGroup, newGroup.None?);
      }
    }

    method ClearMediaState()
      requires Valid()
      modifies this`sender, this`active, this`hasPendingKey, this`receivers, this`speakers
      ensures Valid() && View() == M.ClearMedia(old(View()))
    {
      sender := M.NO_SENDER;
      active := false;
      hasPendingKey := false;
      receivers, speakers := map[], map[];
    }

    method ClearPendingTransition()
      requires Valid()
      modifies this`transition
      ensures Valid() && transition == M.ClearPending(old(transition))
    {
      transition := transition.(pendingTransitionID := 0, pendingVersion := 0, pendingTransition := false);
    }

    method Configure(newGroupID: string, version: int, reset: M.GroupCall) returns (ok: bool)
      requires Valid()
      modifies this
      ensures Valid() && (View(), ok) == M.Configure(old(View()), newGroupID, version, reset)
    {
      if mls.groupErr {
        return false;
      }
      var number := M.ParseUint(newGroupID);
      if number.None? {
        return false;
      }
      mls := mls.(groupID := BigEndian(number.value, 8));
      mls := mls.(protocolVersion := version);
      mls := mls.(group := Some(reset.group));
      if !reset.ok {
        return false;
      }
      ClearMediaState();
      ClearPendingTransition();
      return true;
    }

    method ResetForReWelcome(reset: M.GroupCall, package: M.GroupCall) returns (ok: bool)
      requires Valid()
      modifies this
      ensures Valid() && (View(), ok) == M.ResetForReWelcome(old(View()), reset, package)
    {
      if mls.groupErr || |mls.groupID| == 0 {
        return false;
      }
      mls := mls.(group := Some(reset.group));
      if !reset.ok {
        return false;
      }
      ClearMediaState();
      ClearPendingTransition();
      mls := mls.(group := Some(package.group));
      return package.ok;
    }

    method HandleWelcome(call: M.EpochCall) returns (ok: bool)
      requires Valid()
      modifies this
      ensures Valid() && (View(), ok) == M.HandleEpochMessage(old(View()), call)
    {
      if mls.groupErr {
        return false;
      }
      mls := mls.(group := Some(call.processed.group));
      if !call.processed.ok || call.epoch.None? {
        return false;
      }
      mls := mls.(epoch := call.epoch.value);
      hasPendingKey := true;
      receivers, speakers := map[], map[];
      return true;
    }

    method HandleCommit(call: M.EpochCall) returns (ok: bool)
      requires Valid()
      modifies this
      ensures Valid() && (View(), ok) == M.HandleEpochMessage(old(View()), call)
    {
      if mls.groupErr {
        return false;
      }
      mls := mls.(group := Some(call.processed.group));
      if !call.processed.ok || call.epoch.None? {
        return false;
      }
      mls := mls.(epoch := call.epoch.value);
      hasPendingKey := true;
      receivers, speakers := map[], map[];
      return true;
    }

    method HandlePrepareTransition(id: u16, version: int) returns (ok: bool)
      requires Valid()
      modifies this`transition
      ensures Valid() && (View(), ok) == M.PrepareTransition(old(View()), id, version)
    {
      if version != 0 && version != 1 {
        return false;
      }
      if transition.hasLastTransition && id == transition.lastTransitionID {
        return false;
      }
      if transition.pendingTransition && id != transition.pendingTransitionID {
        return false;
      }
      if version > 0 && !hasPendingKey {
        return false;
      }
      transition := transition.(pendingTransitionID := id, pendingVersion := version, pendingTransition := true);
      return true;
    }

    method HandleExecuteTransition(id: u16) returns (ok: bool)
      requires Valid()
      modifies this`sender, this`active, this`hasPendingKey, this`receivers, this`speakers, this`transition, this`mls
      ensures Valid() && (View(), ok) == M.ExecuteTransition(p, old(View()), id)
    {
      hide M.DeriveSenderKey;
      if !transition.pendingTransition || id != transition.pendingTransitionID {
        return false;
      }
      if transition.pendingVersion > 0 {
        if !hasPendingKey {
          return false;
        }
        var derived := DeriveSenderKey();
        if !derived {
          return false;
        }
        hasPendingKey := false;
        active := true;
      } else {
        ClearMediaState();
      }
      mls := mls.(protocolVersion := transition.pendingVersion);
      transition := transition.(pendingTransition := false, hasLastTransition := true, lastTransitionID := id);
      return true;
    }

    method HandlePrepareEpoch(epoch: u64, version: int, reset: M.GroupCall, package: M.GroupCall) returns (ok: bool)
      requires Valid()
      modifies this
      ensures Valid() && (View(), ok) == M.PrepareEpoch(old(View()), epoch, version, reset, package)
    {
      if epoch == 0 {
        return false;
      }
      if version != 0 && version != 1 {
        return false;
      }
      mls := mls.(epoch := epoch, protocolVersion := version);
      if epoch != 1 {
        return true;
      }
      if version == 0 {
        ClearMediaState();
        ClearPendingTransition();
        return true;
      }
      if |mls.groupID| == 0 {
        return false;
      }
      mls := mls.(group := Some(reset.group));
      if !reset.ok {
        return false;
      }
      ClearMediaState();
      ClearPendingTransition();
      mls := mls.(group := Some(package.group));
      return package.ok;
    }

    method ExportBaseSecret(user: string) returns (base: Option<Bytes>)
      ensures base == M.BaseSecret(p, mls.group, user)
    {
      if mls.group.None? {
        return None;
      }
      var number := M.ParseUint(user);
      if number.None? {
        return None;
      }
      base := p.exporter(mls.group.value, EXPORT_LABEL, LittleEndian(number.value, 8), KEY_SIZE);
    }

    method DeriveSenderKey() returns (ok: bool)
      requires Valid()
      modifies this`sender
      ensures Valid() && (sender, ok) == M.DeriveSenderKey(p, old(View()))
    {
      var base := ExportBaseSecret(userID);
      if base.None? {
        return false;
      }
      sender := sender.(ratchetBaseSecret := base, currentGeneration := 0, senderNonce := 0);
      var key := HashRatchetGetKey(p, base.value, 0);
      if key.None? {
        return false;
      }
      sender := sender.(senderKey := key);
      if !ValidAesKey(key.value) {
        return false;
      }
      sender := sender.(frameCipher := key);
      return true;
    }

    method EncryptFrame(opus: Bytes) returns (r: Result<Bytes, M.EncryptError>)
      requires Valid() && |opus| <= GCM_MAX
      modifies this
      ensures Valid() && (View(), r) == M.EncryptFrame(p, old(View()), opus)
    {
      if !active {
        return Err(M.NotActive);
      }
      if sender.frameCipher.None? {
        return Err(M.NoCipher);
      }
      if sender.senderNonce == U32_LIMIT - 1 {
        ClearMediaState();
        return Err(M.NonceExhausted);
      }
      sender := sender.(senderNonce := sender.senderNonce + 1);
      var generation := sender.senderNonce / M.GENERATION_SIZE;
      if generation != sender.currentGeneration {
        sender := sender.(currentGeneration := generation);
        var key := HashRatchetGetKey(p, M.RatchetBase(sender), generation);
        if key.None? {
          return Err(M.KeyUnavailable);
        }
        sender := sender.(senderKey := key);
        if !ValidAesKey(key.value) {
          return Err(M.KeyUnavailable);
        }
        sender := sender.(frameCipher := key);
      }
      var encrypted := EncryptSecureFrame(p, sender.frameCipher.value, sender.senderNonce, opus);
      return Ok(encrypted);
    }

    method SetSSRC(ssrc: u32, user: string)
      requires Valid()
      modifies this`ssrcToUserID
      ensures Valid() && View() == old(View()).(ssrcToUserID := old(ssrcToUserID)[ssrc := user])
    {
      ssrcToUserID := ssrcToUserID[ssrc := user];
    }

    method CreateReceiver(ssrc: u32, user: string) returns (recv: DaveReceiver?)
      requires Valid() && ssrc !in receivers
      modifies this`receivers, this`speakers
      ensures Valid()
      ensures recv == null <==> M.CreateReceiver(p, mls.group, user).None?
      ensures recv == null ==> receivers == old(receivers) && speakers == old(speakers)
      ensures recv != null ==> fresh(recv)
      ensures recv != null ==> receivers == old(receivers)[ssrc := recv]
      ensures recv != null ==> speakers == old(speakers)[ssrc := M.CreateReceiver(p, mls.group, user).value]
    {
      var base := ExportBaseSecret(user);
      if base.None? {
        return null;
      }
      var key := HashRatchetGetKey(p, base.value, 0);
      if key.None? || !ValidAesKey(key.value) {
        return null;
      }
      recv := new DaveReceiver(ssrc, base.value, key.value);
      receivers := receivers[ssrc := recv];
      speakers := speakers[ssrc := recv.View()];
    }

    /** Makes sure a speaker has a receiver. */
    method Enrol(ssrc: u32) returns (problem: Option<M.DecryptError>)
      requires Valid()
      modifies this`receivers, this`speakers
      ensures Valid() && (View(), problem) == M.Enrol(p, old(View()), ssrc)
      ensures problem.None? ==>
                ssrc in receivers && (receivers[ssrc] in old(receivers.Values) || fresh(receivers[ssrc]))
    {
      if ssrc in receivers {
        return None;
      }
      if ssrc !in ssrcToUserID {
        return Some(M.UnknownSpeaker);
      }
      var recv := CreateReceiver(ssrc, ssrcToUserID[ssrc]);
      if recv == null {
        return Some(M.NoReceiver);
      }
      return None;
    }

    /** The part of a receive that works on the speaker's own state. */
    method ReceiveFrom(recv: DaveReceiver, parts: Parts) returns (r: Result<Bytes, M.DecryptError>)
      requires parts.nonce < U32_LIMIT && |parts.ciphertext| <= GCM_MAX
      modifies recv
      ensures (recv.View(), r) == M.Receive(p, old(recv.View()), parts)
    {
      hide Open, Accept, RatchetKey;
      var nonce: u32 := parts.nonce;
      var generation := nonce / M.GENERATION_SIZE;
      if recv.hasNonce {
        if nonce <= recv.highestNonce {
          var delta := recv.highestNonce - nonce;
          if delta >= 64 || Bit(recv.replayWindow, delta) {
            return Err(M.Replayed);
          }
        }
      }
      if generation != recv.currentGeneration {
        if generation < recv.currentGeneration || generation > recv.currentGeneration + 1 {
          return Err(M.BadGeneration);
        }
        var key := HashRatchetGetKey(p, recv.baseSecret, generation);
        if key.None? {
          return Err(M.NoRatchetKey);
        }
        recv.key := key.value;
        if !ValidAesKey(key.value) {
          return Err(M.NoRatchetKey);
        }
        recv.aesBlock := key.value;
        recv.frameCipher := key.value;
        recv.currentGeneration := generation;
      }
      var plaintext := DecryptSecureFrame(p, recv.aesBlock, recv.frameCipher, nonce, parts.ciphertext, parts.tag);
      if plaintext.None? {
        return Err(M.TagMismatch);
      }
      recv.AcceptNonce(nonce);
      return Ok(plaintext.value);
    }

    method DecryptFrame(ssrc: u32, data: Bytes) returns (r: Result<Bytes, M.DecryptError>)
      requires Valid() && |data| <= GCM_MAX
      modifies this`receivers, this`speakers, receivers.Values
      ensures Valid() && (View(), r) == M.DecryptFrame(p, old(View()), ssrc, data)
    {
      if !active {
        return Ok(data);
      }
      var parsed := Parse(data);
      if parsed.Err? {
        return Err(M.BadFrame(parsed.error));
      }
      LayoutUndoesParse(data);
      r := DecryptParts(ssrc, parsed.value);
    }

    method DecryptParts(ssrc: u32, parts: Parts) returns (r: Result<Bytes, M.DecryptError>)
      requires Valid() && parts.nonce < U32_LIMIT && |parts.ciphertext| <= GCM_MAX
      modifies this`receivers, this`speakers, receivers.Values
      ensures Valid() && (View(), r) == M.DecryptParts(p, old(View()), ssrc, parts)
    {
      var problem := Enrol(ssrc);
      if problem.Some? {
        return Err(problem.value);
      }
      r := ReceiveAt(ssrc, parts);
    }

    method ReceiveAt(ssrc: u32, parts: Parts) returns (r: Result<Bytes, M.DecryptError>)
      requires Valid() && ssrc in receivers && parts.nonce < U32_LIMIT && |parts.ciphertext| <= GCM_MAX
      modifies this`speakers, receivers[ssrc]
      ensures Valid() && (View(), r) == M.ReceiveAt(p, old(View()), ssrc, parts)
    {
      var recv := receivers[ssrc];
      r := ReceiveFrom(recv, parts);
      speakers := speakers[ssrc := recv.View()];
    }

    method Reset()
      requires Valid()
      modifies this
      ensures Valid() && View() == M.Reset(old(View()))
    {
      ClearMediaState();
      ClearPendingTransition();
      transition := transition.(lastTransitionID := 0, hasLastTransition := false);
      ssrcToUserID := map[];
    }
  }
}
