/** Audio through both layers: frames encrypted for the group, sent in transport packets, picked up
    in order and decoded and decrypted again. */
module VoiceEndToEnd {
  import opened Prelude
  import opened Cipher
  import M = DaveModel
  import R = DaveRuns
  import E = DaveEndToEnd
  import opened VoicePackets

  /** The payloads of the turns whose media encryption succeeded. */
  function Payloads(turns: seq<Turn>, n: nat): seq<Bytes>
    requires n <= |turns|
  {
    if n == 0 then []
    else Payloads(turns, n - 1) + if turns[n - 1].payload.Some? then [turns[n - 1].payload.value] else []
  }

  /** The sendings carry the first payloads; all of them while the loop runs. */
  ghost predicate Carries(sent: seq<Sending>, payloads: seq<Bytes>, running: bool)
  {
    && |sent| <= |payloads| && (running ==> |sent| == |payloads|)
    && forall k :: 0 <= k < |sent| ==> sent[k].payload == payloads[k]
  }

  lemma {:induction false} SendsPayloads(size: nat, turns: seq<Turn>, n: nat)
    requires n <= |turns|
    ensures Carries(After(size, turns, n).sent, Payloads(turns, n), After(size, turns, n).running)
  {
    if n > 0 { SendsPayloads(size, turns, n - 1); }
  }

  datatype Answer = Dropped | Played(opus: Bytes)

  /** The receiving side of one packet: undecodable ones are dropped, and so are frames that the
      media decryption refuses. */
  function Hear(a: Aead, p: Primitives, s: M.Session, packet: Bytes): (M.Session, Answer)
  {
    match Decode(Some(a), packet)
    case Err(_) => (s, Dropped)
    case Ok(rtp) =>
      if rtp.ssrc >= U32_LIMIT then (s, Dropped)
      else
        var (next, answer) := M.DecryptFrame(p, s, rtp.ssrc, rtp.opus);
        (next, if answer.Ok? then Played(answer.value) else Dropped)
  }

  function HearAll(a: Aead, p: Primitives, s: M.Session, packets: seq<Bytes>): (M.Session, seq<Answer>)
  {
    if packets == [] then (s, [])
    else
      var (before, answers) := HearAll(a, p, s, packets[..|packets| - 1]);
      var (after, answer) := Hear(a, p, before, packets[|packets| - 1]);
      (after, answers + [answer])
  }

  /** Packet by packet, what arrives is a packet of the speaker that carries the frame. */
  ghost predicate Carry(a: Aead, packets: seq<Bytes>, ssrc: u32, frames: seq<Bytes>)
  {
    && |packets| == |frames|
    && forall k :: 0 <= k < |packets| ==> CarriesFrame(a, packets[k], ssrc, frames[k])
  }

  predicate CarriesFrame(a: Aead, packet: Bytes, ssrc: u32, frame: Bytes)
  {
    var r := Decode(Some(a), packet);
    r.Ok? && r.value.ssrc == ssrc && r.value.opus == frame
  }

  /** Hearing packets is decrypting the frames they carry. */
  lemma {:induction false} HearsFrames(a: Aead, p: Primitives, s: M.Session, packets: seq<Bytes>, ssrc: u32,
                                       frames: seq<Bytes>)
    requires Carry(a, packets, ssrc, frames)
    ensures var (heard, decrypted) := (HearAll(a, p, s, packets), E.DecryptAll(p, s, ssrc, frames));
            && heard.0 == decrypted.0 && |heard.1| == |decrypted.1| == |packets|
            && forall k :: 0 <= k < |packets| && decrypted.1[k].Ok? ==> heard.1[k] == Played(decrypted.1[k].value)
  {
    if packets != [] {
      var n := |packets| - 1;
      HearsFrames(a, p, s, packets[..n], ssrc, frames[..n]);
      assert CarriesFrame(a, packets[n], ssrc, frames[n]);
    }
  }

  /** The k-th packet written carries the k-th frame encrypted. */
  lemma PacketCarries(a: Aead, ssrc: u32, size: nat, turns: seq<Turn>, k: nat)
    requires Lawful(a) && a.nonceSize >= SUFFIX_SIZE && k < |After(size, turns, |turns|).sent|
    ensures k < |Payloads(turns, |turns|)|
    ensures CarriesFrame(a, PacketsOf(a, ssrc, After(size, turns, |turns|).sent)[k], ssrc, Payloads(turns, |turns|)[k])
  {
    SendsPayloads(size, turns, |turns|);
    SentIsDecoded(a, ssrc, size, turns, k);
    CountersCount(size, turns, |turns|);
  }

  lemma PickedCarry(a: Aead, ssrc: u32, size: nat, turns: seq<Turn>, pick: seq<nat>)
    requires Lawful(a) && a.nonceSize >= SUFFIX_SIZE
    requires forall i :: 0 <= i < |pick| ==> pick[i] < |After(size, turns, |turns|).sent|
    ensures |After(size, turns, |turns|).sent| <= |Payloads(turns, |turns|)|
    ensures Carry(a, E.Picked(PacketsOf(a, ssrc, After(size, turns, |turns|).sent), pick), ssrc,
                  E.Picked(Payloads(turns, |turns|), pick))
  {
    SendsPayloads(size, turns, |turns|);
    var packets := E.Picked(PacketsOf(a, ssrc, After(size, turns, |turns|).sent), pick);
    forall i | 0 <= i < |pick| ensures CarriesFrame(a, packets[i], ssrc, E.Picked(Payloads(turns, |turns|), pick)[i]) {
      PacketCarries(a, ssrc, size, turns, pick[i]);
    }
  }

  /** After the speaker executes a transition, whatever calls keep his stream, the audio of any
      packets picked up in order comes out of a listener of the group exactly as it went in. */
  lemma VoiceIsHeard(a: Aead, p: Primitives, before: M.Session, id: u16, es: seq<R.Event>, ssrc: u32, size: nat,
                     turns: seq<Turn>, listener: M.Session, pick: seq<nat>)
    requires Lawful(a) && a.nonceSize >= SUFFIX_SIZE
    requires before.transition.pendingVersion > 0 && M.ExecuteTransition(p, before, id).1
    requires M.BaseSecret(p, before.mls.group, before.userID).Some?
          && R.AllDerivable(p, M.BaseSecret(p, before.mls.group, before.userID).value)
    requires R.StreamRun(p, M.ExecuteTransition(p, before, id).0, es)
    requires forall i :: 0 <= i < |R.Submitted(es)| ==> |R.Submitted(es)[i]| <= GCM_MAX
    requires Payloads(turns, |turns|) == R.Sent(p, M.ExecuteTransition(p, before, id).0, es)
    requires listener.active && listener.mls.group == before.mls.group && ssrc !in listener.receivers
    requires ssrc in listener.ssrcToUserID && listener.ssrcToUserID[ssrc] == before.userID
    requires E.GoodPick(pick, |After(size, turns, |turns|).sent|)
    ensures var packets := E.Picked(PacketsOf(a, ssrc, After(size, turns, |turns|).sent), pick);
            var answers := HearAll(a, p, listener, packets).1;
            && |answers| == |pick|
            && forall i :: 0 <= i < |pick| ==>
                 pick[i] < |R.Submitted(es)| && answers[i] == Played(R.Submitted(es)[pick[i]])
  {
    PickedCarry(a, ssrc, size, turns, pick);
    E.SentIsHeard(p, before, id, es, listener, ssrc, pick);
    var packets := E.Picked(PacketsOf(a, ssrc, After(size, turns, |turns|).sent), pick);
    HearsFrames(a, p, listener, packets, ssrc, E.Picked(Payloads(turns, |turns|), pick));
  }
}
