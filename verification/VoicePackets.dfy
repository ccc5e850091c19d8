/** RTP voice packets: the sender's loop, the decoder, and the packet layout of sections 5.1 and
    5.3.1 of RFC 3550 with encrypted payload and extension data. */
module VoicePackets {
  import opened Prelude
  import opened ByteOrder

  /** The transport cipher. Sealing and opening take nonce, text and associated data. */
  datatype Aead = Aead(nonceSize: nat, overhead: nat,
                       seal: (Bytes, Bytes, Bytes) -> Bytes, open: (Bytes, Bytes, Bytes) -> Option<Bytes>)

  /** Sealing adds the overhead, and opening accepts exactly what was sealed. */
  ghost predicate Lawful(a: Aead)
  {
    && (forall nonce, text, extra :: |a.seal(nonce, text, extra)| == |text| + a.overhead)
    && (forall nonce, sealed, text, extra {:trigger a.open(nonce, sealed, extra), a.seal(nonce, text, extra)} ::
         a.open(nonce, sealed, extra) == Some(text) <==> sealed == a.seal(nonce, text, extra))
  }

  const HEADER_SIZE: nat := 12
  const SUFFIX_SIZE: nat := 4

  datatype Packet = Packet(flags: byte, payloadType: byte, sequence: nat, timestamp: nat, ssrc: nat, csrc: seq<nat>,
                           extension: Option<Bytes>, opus: Bytes)

  datatype PacketError =
    | NoCipher | NonceTooSmall | TooShort | BadVersion | TruncatedSources | TruncatedExtension | NoCiphertext
    | NotOpened
    | ExtensionTooLong

  function Version(flags: byte): nat
  {
    flags as nat / 64
  }

  function SourceCount(flags: byte): nat
  {
    flags as nat % 16
  }

  predicate HasExtension(flags: byte)
  {
    flags as nat / 16 % 2 == 1
  }

  function Zeros(n: nat): (r: Bytes)
    ensures |r| == n
  {
    seq(n, _ => 0)
  }

  /** The packet's four nonce bytes, padded to the cipher's nonce size. */
  function NonceOf(a: Aead, suffix: Bytes): Bytes
    requires |suffix| == SUFFIX_SIZE <= a.nonceSize
  {
    suffix + Zeros(a.nonceSize - SUFFIX_SIZE)
  }

  /** The 32-bit words from an offset on. */
  function Words(data: Bytes, offset: nat, count: nat): (r: seq<nat>)
    requires offset + 4 * count <= |data|
    ensures |r| == count
  {
    if count == 0 then []
    else Words(data, offset, count - 1) + [BigEndianValue(data[offset + 4 * (count - 1)..offset + 4 * count])]
  }

  /** The size of the part sent in the clear. */
  function HeaderSize(flags: byte): nat
  {
    HEADER_SIZE + 4 * SourceCount(flags) + if HasExtension(flags) then 4 else 0
  }

  function Decode(cipher: Option<Aead>, data: Bytes): Result<Packet, PacketError>
  {
    if cipher.None? then Err(NoCipher)
    else if cipher.value.nonceSize < SUFFIX_SIZE then Err(NonceTooSmall)
    else if |data| < HEADER_SIZE then Err(TooShort)
    else if Version(data[0]) != 2 then Err(BadVersion)
    else
      var a, sources, size := cipher.value, HEADER_SIZE + 4 * SourceCount(data[0]), HeaderSize(data[0]);
      if |data| < sources then Err(TruncatedSources)
      else if |data| < size then Err(TruncatedExtension)
      else if |data| < size + a.overhead + SUFFIX_SIZE then Err(NoCiphertext)
      else
        var end := |data| - SUFFIX_SIZE;
        var text := a.open(NonceOf(a, data[end..]), data[size..end], data[..size]);
        if text.None? then Err(NotOpened) else WithText(data, text.value)
  }

  /** The packet once its text is opened: extension data comes first. */
  function WithText(data: Bytes, text: Bytes): Result<Packet, PacketError>
    requires |data| >= HEADER_SIZE && |data| >= HeaderSize(data[0])
  {
    var sources := HEADER_SIZE + 4 * SourceCount(data[0]);
    var bare := Packet(data[0], data[1], BigEndianValue(data[2..4]), BigEndianValue(data[4..8]),
                       BigEndianValue(data[8..12]), Words(data, HEADER_SIZE, SourceCount(data[0])), None, text);
    if !HasExtension(data[0]) then Ok(bare)
    else
      var size := 4 * BigEndianValue(data[sources + 2..sources + 4]);
      if size > |text| then Err(ExtensionTooLong)
      else Ok(bare.(extension := Some(data[sources..sources + 4] + text[..size]), opus := text[size..]))
  }

  method DecodeVoicePacket(cipher: Option<Aead>, data: Bytes) returns (r: Result<Packet, PacketError>)
    ensures r == Decode(cipher, data)
  {
    if cipher.None? {
      return Err(NoCipher);
    }
    var a := cipher.value;
    if a.nonceSize < SUFFIX_SIZE {
      return Err(NonceTooSmall);
    }
    if |data| < HEADER_SIZE {
      return Err(TooShort);
    }
    if Version(data[0]) != 2 {
      return Err(BadVersion);
    }
    var headerLength := HEADER_SIZE + 4 * SourceCount(data[0]);
    if |data| < headerLength {
      return Err(TruncatedSources);
    }
    var extensionStart := headerLength;
    if HasExtension(data[0]) {
      headerLength := headerLength + 4;
      if |data| < headerLength {
        return Err(TruncatedExtension);
      }
    }
    if |data| < headerLength + a.overhead + SUFFIX_SIZE {
      return Err(NoCiphertext);
    }
    var end := |data| - SUFFIX_SIZE;
    var opened_ := a.open(NonceOf(a, data[end..]), data[headerLength..end], data[..headerLength]);
    if opened_.None? {
      return Err(NotOpened);
    }
    r := ReadPacket(data, opened_.value);
  }

  method ReadPacket(data: Bytes, text: Bytes) returns (r: Result<Packet, PacketError>)
    requires |data| >= HEADER_SIZE && |data| >= HeaderSize(data[0])
    ensures r == WithText(data, text)
  {
    hide BigEndianValue;
    var csrc: seq<nat> := [];
    var i := 0;
    while i < SourceCount(data[0])
      invariant 0 <= i <= SourceCount(data[0]) && csrc == Words(data, HEADER_SIZE, i)
    {
      var offset := HEADER_SIZE + 4 * i;
      csrc := csrc + [BigEndianValue(data[offset..offset + 4])];
      i := i + 1;
    }
    var packet := Packet(data[0], data[1], BigEndianValue(data[2..4]), BigEndianValue(data[4..8]),
                         BigEndianValue(data[8..12]), csrc, None, text);
    if HasExtension(data[0]) {
      var start := HEADER_SIZE + 4 * SourceCount(data[0]);
      var size := 4 * BigEndianValue(data[start + 2..start + 4]);
      if size > |text| {
        return Err(ExtensionTooLong);
      }
      packet := packet.(extension := Some(data[start..start + 4] + text[..size]), opus := text[size..]);
    }
    return Ok(packet);
  }

  // ---- the layout

  /** The fields fit, and the flags say what else the packet holds. */
  predicate WellFormed(p: Packet)
  {
    && Version(p.flags) == 2 && SourceCount(p.flags) == |p.csrc| && (HasExtension(p.flags) <==> p.extension.Some?)
    && p.sequence < Pow256(2) && p.timestamp < Pow256(4) && p.ssrc < Pow256(4)
    && (forall i :: 0 <= i < |p.csrc| ==> p.csrc[i] < Pow256(4))
    && (p.extension.Some? ==>
          |p.extension.value| >= 4 && |p.extension.value| == 4 + 4 * BigEndianValue(p.extension.value[2..4]))
  }

  function WordBytes(words: seq<nat>): (r: Bytes)
    ensures |r| == 4 * |words|
  {
    if words == [] then [] else WordBytes(words[..|words| - 1]) + BigEndian(words[|words| - 1], 4)
  }

  function FixedHeader(p: Packet): (r: Bytes)
    ensures |r| == HEADER_SIZE
  {
    [p.flags, p.payloadType] + BigEndian(p.sequence, 2) + BigEndian(p.timestamp, 4) + BigEndian(p.ssrc, 4)
  }

  function ClearHeader(p: Packet): Bytes
    requires WellFormed(p)
  {
    FixedHeader(p) + WordBytes(p.csrc) + if p.extension.Some? then p.extension.value[..4] else []
  }

  function Text(p: Packet): Bytes
    requires WellFormed(p)
  {
    (if p.extension.Some? then p.extension.value[4..] else []) + p.opus
  }

  /** A packet under four nonce bytes. */
  function Encode(a: Aead, p: Packet, suffix: Bytes): Bytes
    requires WellFormed(p) && |suffix| == SUFFIX_SIZE <= a.nonceSize
  {
    ClearHeader(p) + a.seal(NonceOf(a, suffix), Text(p), ClearHeader(p)) + suffix
  }

  lemma Powers()
    ensures Pow256(2) == 0x1_0000 && Pow256(4) == U32_LIMIT
  {
    assert Pow256(0) == 1 && Pow256(1) == 256 && Pow256(2) == 0x1_0000 && Pow256(3) == 0x100_0000;
  }

  lemma SliceOfSlice(data: Bytes, from: nat, to: nat, i: nat, j: nat)
    requires from <= to <= |data| && i <= j <= to - from
    ensures data[from..to][i..j] == data[from + i..from + j]
  {
    var part := data[from..to];
    assert forall k :: i <= k < j ==> part[k] == data[from + k];
    assert part[i..j] == data[from + i..from + j];
  }

  lemma NoWords(data: Bytes, offset: nat)
    requires offset <= |data|
    ensures Words(data, offset, 0) == []
  {
  }

  lemma LastWord(data: Bytes, offset: nat, words: seq<nat>)
    requires words != [] && offset + 4 * |words| <= |data|
    ensures var n := |words| - 1;
            && WordBytes(words) == WordBytes(words[..n]) + BigEndian(words[n], 4)
            && Words(data, offset, |words|)
               == Words(data, offset, n) + [BigEndianValue(data[offset + 4 * n..offset + 4 * n + 4])]
  {
  }

  /** Words read back what was written at their place. */
  lemma {:induction false} WordsOfBytes(data: Bytes, offset: nat, words: seq<nat>)
    requires offset + 4 * |words| <= |data| && data[offset..offset + 4 * |words|] == WordBytes(words)
    requires forall i :: 0 <= i < |words| ==> words[i] < Pow256(4)
    ensures Words(data, offset, |words|) == words
  {
    hide BigEndian, BigEndianValue, Pow256, WordBytes, Words;
    if words == [] {
      NoWords(data, offset);
    } else {
      var n := |words| - 1;
      var init, last := WordBytes(words[..n]), BigEndian(words[n], 4);
      LastWord(data, offset, words);
      assert data[offset..offset + 4 * n] == init && data[offset + 4 * n..offset + 4 * n + 4] == last by {
        ConcatSlices(init, last);
        SliceOfSlice(data, offset, offset + 4 * |words|, 0, 4 * n);
        SliceOfSlice(data, offset, offset + 4 * |words|, 4 * n, 4 * n + 4);
      }
      WordsOfBytes(data, offset, words[..n]);
      ValueOfBigEndian(words[n], 4);
      assert words == words[..n] + [words[n]];
    }
  }

  lemma ConcatSlices(a: Bytes, b: Bytes)
    ensures (a + b)[..|a|] == (a + b)[0..|a|] == a && (a + b)[|a|..|a| + |b|] == b
  {
  }

  lemma {:induction false} BytesOfWords(data: Bytes, offset: nat, count: nat)
    requires offset + 4 * count <= |data|
    ensures WordBytes(Words(data, offset, count)) == data[offset..offset + 4 * count]
    ensures forall i :: 0 <= i < count ==> Words(data, offset, count)[i] < Pow256(4)
  {
    hide BigEndian, BigEndianValue, Pow256;
    if count > 0 {
      var words := Words(data, offset, count);
      var last := data[offset + 4 * (count - 1)..offset + 4 * count];
      BytesOfWords(data, offset, count - 1);
      assert words[..count - 1] == Words(data, offset, count - 1);
      BigEndianOfValue(last);
      assert data[offset..offset + 4 * count] == data[offset..offset + 4 * (count - 1)] + last;
    }
  }

  lemma FixedFields(p: Packet, data: Bytes)
    requires p.sequence < Pow256(2) && p.timestamp < Pow256(4) && p.ssrc < Pow256(4)
    requires |data| >= HEADER_SIZE && data[..HEADER_SIZE] == FixedHeader(p)
    ensures data[0] == p.flags && data[1] == p.payloadType
    ensures BigEndianValue(data[2..4]) == p.sequence && BigEndianValue(data[4..8]) == p.timestamp
    ensures BigEndianValue(data[8..12]) == p.ssrc
  {
    hide BigEndianValue, Pow256;
    var fixed := data[..HEADER_SIZE];
    assert data[0] == fixed[0] && data[1] == fixed[1];
    assert data[2..4] == fixed[2..4] == BigEndian(p.sequence, 2);
    assert data[4..8] == fixed[4..8] == BigEndian(p.timestamp, 4);
    assert data[8..12] == fixed[8..12] == BigEndian(p.ssrc, 4);
    ValueOfBigEndian(p.sequence, 2);
    ValueOfBigEndian(p.timestamp, 4);
    ValueOfBigEndian(p.ssrc, 4);
  }

  /** Where the parts of a clear header are. */
  lemma HeaderParts(p: Packet, data: Bytes)
    requires WellFormed(p) && |ClearHeader(p)| <= |data| && data[..|ClearHeader(p)|] == ClearHeader(p)
    ensures |data| >= HEADER_SIZE + 4 * |p.csrc| && data[..HEADER_SIZE] == FixedHeader(p)
    ensures data[HEADER_SIZE..HEADER_SIZE + 4 * |p.csrc|] == WordBytes(p.csrc)
  {
    var fixed, words := FixedHeader(p), WordBytes(p.csrc);
    var rest := if p.extension.Some? then p.extension.value[..4] else [];
    assert data == (fixed + words + rest) + data[|ClearHeader(p)|..];
  }

  /** A header's bytes read back as the packet's fields. */
  lemma HeaderReadsBack(p: Packet, data: Bytes)
    requires WellFormed(p) && |ClearHeader(p)| <= |data| && data[..|ClearHeader(p)|] == ClearHeader(p)
    ensures |data| >= HEADER_SIZE && |ClearHeader(p)| == HeaderSize(data[0]) && data[0] == p.flags
    ensures data[1] == p.payloadType
    ensures BigEndianValue(data[2..4]) == p.sequence && BigEndianValue(data[4..8]) == p.timestamp
    ensures BigEndianValue(data[8..12]) == p.ssrc
    ensures HEADER_SIZE + 4 * SourceCount(data[0]) <= |data| && Words(data, HEADER_SIZE, SourceCount(data[0])) == p.csrc
  {
    hide BigEndian, BigEndianValue, Pow256, FixedHeader, WordBytes, Words;
    HeaderParts(p, data);
    FixedFields(p, data);
    WordsOfBytes(data, HEADER_SIZE, p.csrc);
  }

  lemma TextReadsBack(p: Packet, data: Bytes)
    requires WellFormed(p) && |ClearHeader(p)| <= |data| && data[..|ClearHeader(p)|] == ClearHeader(p)
    requires |data| >= HEADER_SIZE && |data| >= HeaderSize(data[0])
    ensures WithText(data, Text(p)) == Ok(p)
  {
    HeaderReadsBack(p, data);
    if p.extension.Some? {
      var h, sources, e := ClearHeader(p), HEADER_SIZE + 4 * SourceCount(data[0]), p.extension.value;
      assert data[sources..sources + 4] == h[sources..sources + 4] == e[..4];
      assert data[sources + 2..sources + 4] == e[2..4];
      assert e[..4] + e[4..] == e;
      assert Text(p)[..|e| - 4] == e[4..] && Text(p)[|e| - 4..] == p.opus;
    } else {
      assert Text(p) == p.opus;
    }
  }

  /** Every well-formed packet is decoded to itself, whatever its nonce bytes. */
  lemma DecodeUndoesEncode(a: Aead, p: Packet, suffix: Bytes)
    requires Lawful(a) && WellFormed(p) && |suffix| == SUFFIX_SIZE <= a.nonceSize
    ensures Decode(Some(a), Encode(a, p, suffix)) == Ok(p)
  {
    var data, h := Encode(a, p, suffix), ClearHeader(p);
    var sealed := a.seal(NonceOf(a, suffix), Text(p), h);
    var end := |data| - SUFFIX_SIZE;
    assert data[..|h|] == h && data[|h|..end] == sealed && data[end..] == suffix;
    HeaderReadsBack(p, data);
    TextReadsBack(p, data);
  }

  /** The bytes a decoded packet was read from. */
  lemma DecodedHeader(data: Bytes, text: Bytes)
    requires |data| >= HEADER_SIZE && |data| >= HeaderSize(data[0]) && Version(data[0]) == 2
    requires WithText(data, text).Ok?
    ensures var p := WithText(data, text).value;
            WellFormed(p) && ClearHeader(p) == data[..HeaderSize(data[0])] && Text(p) == text
  {
    hide BigEndian, BigEndianValue, Pow256, FixedHeader, WordBytes, Words;
    var p := WithText(data, text).value;
    var sources := HEADER_SIZE + 4 * SourceCount(data[0]);
    BytesOfWords(data, HEADER_SIZE, SourceCount(data[0]));
    FixedReadsBack(data, p);
    if HasExtension(data[0]) {
      var e := p.extension.value;
      assert e[2..4] == data[sources + 2..sources + 4];
      assert e[..4] == data[sources..sources + 4] && e[4..] == text[..|e| - 4];
      assert data[..sources + 4] == data[..12] + data[12..sources] + data[sources..sources + 4];
    } else {
      assert data[..sources] == data[..12] + data[12..sources];
      assert Text(p) == text;
    }
  }

  lemma FixedReadsBack(data: Bytes, p: Packet)
    requires |data| >= HEADER_SIZE && p.flags == data[0] && p.payloadType == data[1]
    requires p.sequence == BigEndianValue(data[2..4]) && p.timestamp == BigEndianValue(data[4..8])
    requires p.ssrc == BigEndianValue(data[8..12])
    ensures FixedHeader(p) == data[..12]
    ensures p.sequence < Pow256(2) && p.timestamp < Pow256(4) && p.ssrc < Pow256(4)
  {
    BigEndianOfValue(data[2..4]);
    BigEndianOfValue(data[4..8]);
    BigEndianOfValue(data[8..12]);
    assert data[..12] == [data[0], data[1]] + data[2..4] + data[4..8] + data[8..12];
  }

  /** A byte string is decoded to a packet exactly if it is that packet's encoding under its own
      last four bytes: nothing else is accepted, and nothing is lost. */
  lemma DecodesExactlyEncodings(a: Aead, data: Bytes, p: Packet)
    requires Lawful(a) && a.nonceSize >= SUFFIX_SIZE
    ensures Decode(Some(a), data) == Ok(p) <==>
              && WellFormed(p) && |data| >= SUFFIX_SIZE
              && data == Encode(a, p, data[|data| - SUFFIX_SIZE..])
  {
    if Decode(Some(a), data) == Ok(p) {
      var size, end := HeaderSize(data[0]), |data| - SUFFIX_SIZE;
      var text := a.open(NonceOf(a, data[end..]), data[size..end], data[..size]).value;
      DecodedHeader(data, text);
      assert data[size..end] == a.seal(NonceOf(a, data[end..]), text, data[..size]);
      assert data == data[..size] + data[size..end] + data[end..];
    }
    if WellFormed(p) && |data| >= SUFFIX_SIZE && data == Encode(a, p, data[|data| - SUFFIX_SIZE..]) {
      DecodeUndoesEncode(a, p, data[|data| - SUFFIX_SIZE..]);
    }
  }

  /** Why a packet is refused: each part is looked for where the parts before it say it is. */
  lemma RefusedBecause(a: Aead, data: Bytes)
    ensures Decode(None, data) == Err(NoCipher)
    ensures var answer := Decode(Some(a), data);
            && (answer == Err(NonceTooSmall) <==> a.nonceSize < 4)
            && (answer == Err(TooShort) <==> a.nonceSize >= 4 && |data| < 12)
            && (a.nonceSize >= 4 && |data| >= 12 ==>
                  var sources := 12 + 4 * (data[0] as nat % 16);
                  var size := if data[0] as nat / 16 % 2 == 1 then sources + 4 else sources;
                  && (answer == Err(BadVersion) <==> data[0] as nat / 64 != 2)
                  && (data[0] as nat / 64 == 2 ==>
                        && (answer == Err(TruncatedSources) <==> |data| < sources)
                        && (answer == Err(TruncatedExtension) <==> sources <= |data| < size)
                        && (answer == Err(NoCiphertext) <==> size <= |data| < size + a.overhead + 4)))
  {
    hide WithText, NonceOf;
    if Decode(Some(a), data).Err? && |data| >= HEADER_SIZE && |data| >= HeaderSize(data[0]) {
      forall text: Bytes { OnlyTooLong(data, text); }
    }
  }

  lemma OnlyTooLong(data: Bytes, text: Bytes)
    requires |data| >= HEADER_SIZE && |data| >= HeaderSize(data[0])
    ensures WithText(data, text).Err? ==> WithText(data, text).error == ExtensionTooLong
  {
  }

  // ---- the sender

  datatype Outcome = Written | Stopped | WriteFailed

  /** One frame from the channel: its payload after media encryption, None if that failed, and what
      becomes of its packet. */
  datatype Turn = Turn(payload: Option<Bytes>, outcome: Outcome)

  /** A packet written: its sequence number, timestamp and nonce counter, and its payload. */
  datatype Sending = Sending(sequence: u16, timestamp: u32, counter: u32, payload: Bytes)

  datatype Sender = Sender(sent: seq<Sending>, sequence: u16, timestamp: u32, counter: u32, running: bool)

  const STARTED := Sender([], 0, 0, 0, true)

  /** The packet of a payload: version 2, payload type 120, nothing but the fixed header. */
  function VoicePacket(ssrc: u32, x: Sending): (p: Packet)
    ensures WellFormed(p)
  {
    Powers();
    Packet(0x80, 0x78, x.sequence, x.timestamp, ssrc, [], None, x.payload)
  }

  function BytesOf(a: Aead, ssrc: u32, x: Sending): Bytes
    requires a.nonceSize >= SUFFIX_SIZE
  {
    Encode(a, VoicePacket(ssrc, x), LittleEndian(x.counter, 4))
  }

  function SendTurn(size: nat, s: Sender, turn: Turn): Sender
  {
    if !s.running then s
    else if turn.payload.None? then s.(counter := (s.counter + 1) % U32_LIMIT)
    else if turn.outcome != Written then s.(running := false)
    else
      Sender(s.sent + [Sending(s.sequence, s.timestamp, s.counter, turn.payload.value)],
             (s.sequence + 1) % 0x1_0000, (s.timestamp + size) % U32_LIMIT, (s.counter + 1) % U32_LIMIT, true)
  }

  /** The sender after the first n turns. */
  function After(size: nat, turns: seq<Turn>, n: nat): Sender
    requires n <= |turns|
  {
    if n == 0 then STARTED else SendTurn(size, After(size, turns, n - 1), turns[n - 1])
  }

  method PutBytes(buffer: array<byte>, offset: nat, bytes: Bytes)
    requires offset + |bytes| <= buffer.Length
    modifies buffer
    ensures buffer[..] == old(buffer[..offset]) + bytes + old(buffer[offset + |bytes|..])
  {
    var i := 0;
    while i < |bytes|
      invariant 0 <= i <= |bytes|
      invariant buffer[..offset] == old(buffer[..offset]) && buffer[offset..offset + i] == bytes[..i]
      invariant buffer[offset + |bytes|..] == old(buffer[offset + |bytes|..])
    {
      buffer[offset + i] := bytes[i];
      i := i + 1;
    }
    assert buffer[..] == buffer[..offset] + buffer[offset..offset + |bytes|] + buffer[offset + |bytes|..];
  }

  /** The header's fixed parts: version and payload type, and the SSRC. */
  predicate Prepared(header: array<byte>, ssrc: u32)
    reads header
  {
    header.Length == HEADER_SIZE && header[..2] == [0x80, 0x78] && header[8..] == BigEndian(ssrc, 4)
  }

  /** Rewrites the changing header fields and the nonce, and seals a payload under them. */
  method BuildPacket(a: Aead, header: array<byte>, nonce: array<byte>, ssrc: u32, x: Sending) returns (packet: Bytes)
    requires a.nonceSize >= SUFFIX_SIZE && nonce.Length == a.nonceSize && header != nonce
    requires Prepared(header, ssrc) && nonce[SUFFIX_SIZE..] == Zeros(a.nonceSize - SUFFIX_SIZE)
    modifies header, nonce
    ensures Prepared(header, ssrc) && nonce[SUFFIX_SIZE..] == Zeros(a.nonceSize - SUFFIX_SIZE)
    ensures packet == BytesOf(a, ssrc, x)
  {
    PutBytes(header, 2, BigEndian(x.sequence, 2));
    PutBytes(header, 4, BigEndian(x.timestamp, 4));
    PutBytes(nonce, 0, LittleEndian(x.counter, 4));
    HeaderBytes(header[..], ssrc, x);
    assert nonce[..] == NonceOf(a, LittleEndian(x.counter, 4));
    packet := header[..] + a.seal(nonce[..], x.payload, header[..]) + nonce[..SUFFIX_SIZE];
  }

  lemma HeaderBytes(header: Bytes, ssrc: u32, x: Sending)
    requires header == [0x80, 0x78] + BigEndian(x.sequence, 2) + BigEndian(x.timestamp, 4) + BigEndian(ssrc, 4)
    ensures ClearHeader(VoicePacket(ssrc, x)) == header && Text(VoicePacket(ssrc, x)) == x.payload
  {
  }

  function PacketsOf(a: Aead, ssrc: u32, sent: seq<Sending>): (r: seq<Bytes>)
    requires a.nonceSize >= SUFFIX_SIZE
    ensures |r| == |sent|
  {
    if sent == [] then [] else PacketsOf(a, ssrc, sent[..|sent| - 1]) + [BytesOf(a, ssrc, sent[|sent| - 1])]
  }

  lemma {:induction false} PacketAt(a: Aead, ssrc: u32, sent: seq<Sending>, k: nat)
    requires a.nonceSize >= SUFFIX_SIZE && k < |sent|
    ensures PacketsOf(a, ssrc, sent)[k] == BytesOf(a, ssrc, sent[k])
  {
    if k < |sent| - 1 { PacketAt(a, ssrc, sent[..|sent| - 1], k); }
  }

  lemma PacketsAppend(a: Aead, ssrc: u32, sent: seq<Sending>, x: Sending)
    requires a.nonceSize >= SUFFIX_SIZE
    ensures PacketsOf(a, ssrc, sent + [x]) == PacketsOf(a, ssrc, sent) + [BytesOf(a, ssrc, x)]
  {
    assert (sent + [x])[..|sent|] == sent;
  }

  /** The header's constant parts are written once, before the loop. */
  method NewBuffers(a: Aead, ssrc: u32) returns (header: array<byte>, nonce: array<byte>)
    requires a.nonceSize >= SUFFIX_SIZE
    ensures fresh(header) && fresh(nonce) && header != nonce && Prepared(header, ssrc)
    ensures nonce.Length == a.nonceSize && nonce[SUFFIX_SIZE..] == Zeros(a.nonceSize - SUFFIX_SIZE)
  {
    header := new byte[HEADER_SIZE](_ => 0);
    nonce := new byte[a.nonceSize](_ => 0);
    PutBytes(header, 0, [0x80, 0x78]);
    PutBytes(header, 8, BigEndian(ssrc, 4));
  }

  /** One turn of the loop: a frame whose encryption failed is skipped, a packet is built, and
      counted once it is written. */
  method TakeTurn(a: Aead, header: array<byte>, nonce: array<byte>, ssrc: u32, size: nat, s: Sender, turn: Turn)
    returns (s': Sender, packet: Option<Bytes>)
    requires a.nonceSize >= SUFFIX_SIZE && nonce.Length == a.nonceSize && header != nonce && s.running
    requires Prepared(header, ssrc) && nonce[SUFFIX_SIZE..] == Zeros(a.nonceSize - SUFFIX_SIZE)
    modifies header, nonce
    ensures Prepared(header, ssrc) && nonce[SUFFIX_SIZE..] == Zeros(a.nonceSize - SUFFIX_SIZE)
    ensures s' == SendTurn(size, s, turn)
    ensures packet.None? ==> s'.sent == s.sent
    ensures packet.Some? ==> PacketsOf(a, ssrc, s'.sent) == PacketsOf(a, ssrc, s.sent) + [packet.value]
  {
    if turn.payload.None? {
      return s.(counter := (s.counter + 1) % U32_LIMIT), None;
    }
    var x := Sending(s.sequence, s.timestamp, s.counter, turn.payload.value);
    var sendbuf := BuildPacket(a, header, nonce, ssrc, x);
    if turn.outcome != Written {
      return s.(running := false), None;
    }
    PacketsAppend(a, ssrc, s.sent, x);
    s' := Sender(s.sent + [x], (s.sequence + 1) % 0x1_0000, (s.timestamp + size) % U32_LIMIT,
                 (s.counter + 1) % U32_LIMIT, true);
    packet := Some(sendbuf);
  }

  /** The loop writes the packets of the sendings, in order. */
  method OpusSender(a: Aead, ssrc: u32, size: nat, turns: seq<Turn>) returns (packets: seq<Bytes>)
    requires a.nonceSize >= SUFFIX_SIZE
    ensures packets == PacketsOf(a, ssrc, After(size, turns, |turns|).sent)
  {
    hide BytesOf;
    var udpHeader, nonce := NewBuffers(a, ssrc);
    packets := [];
    var s := STARTED;
    var n := 0;
    while n < |turns|
      invariant 0 <= n <= |turns| && s == After(size, turns, n) && s.running
      invariant packets == PacketsOf(a, ssrc, s.sent)
      invariant Prepared(udpHeader, ssrc) && nonce[SUFFIX_SIZE..] == Zeros(a.nonceSize - SUFFIX_SIZE)
    {
      var packet;
      s, packet := TakeTurn(a, udpHeader, nonce, ssrc, size, s, turns[n]);
      n := n + 1;
      if !s.running {
        StoppedStays(size, turns, n, |turns|);
        return;
      }
      if packet.Some? {
        packets := packets + [packet.value];
      }
    }
  }

  lemma {:induction false} StoppedStays(size: nat, turns: seq<Turn>, n: nat, later: nat)
    requires n <= later <= |turns| && !After(size, turns, n).running
    ensures After(size, turns, later) == After(size, turns, n)
  {
    if n < later { StoppedStays(size, turns, n, later - 1); }
  }

  /** Which of the first n turns had their packets written. */
  function WrittenTurns(turns: seq<Turn>, n: nat): seq<nat>
    requires n <= |turns|
  {
    if n == 0 then []
    else
      var before := WrittenTurns(turns, n - 1);
      if turns[n - 1].payload.Some? && turns[n - 1].outcome == Written && !StoppedBy(turns, n - 1)
      then before + [n - 1] else before
  }

  /** Whether one of the first n turns ended the loop. */
  predicate StoppedBy(turns: seq<Turn>, n: nat)
    requires n <= |turns|
  {
    exists i :: 0 <= i < n && turns[i].payload.Some? && turns[i].outcome != Written
  }

  /** The timestamp of the k-th packet. */
  function Stamp(size: nat, k: nat): u32
  {
    size * k % U32_LIMIT
  }

  lemma NextStamp(size: nat, k: nat)
    ensures (Stamp(size, k) + size) % U32_LIMIT == Stamp(size, k + 1) && Stamp(size, 0) == 0
  {
    assert size * (k + 1) == size * k + size;
  }

  /** What is sent for the turns written: sequence and timestamp count the packets, the nonce
      counts the turns. */
  ghost predicate Numbered(size: nat, turns: seq<Turn>, sent: seq<Sending>, written: seq<nat>)
  {
    && |sent| == |written|
    && forall k :: 0 <= k < |sent| ==>
         && written[k] < |turns| && turns[written[k]].payload.Some?
         && sent[k] == Sending(k % 0x1_0000, Stamp(size, k), written[k] % U32_LIMIT, turns[written[k]].payload.value)
  }

  lemma StoppedNext(turns: seq<Turn>, n: nat)
    requires n < |turns|
    ensures StoppedBy(turns, n + 1) <==> StoppedBy(turns, n) || (turns[n].payload.Some? && turns[n].outcome != Written)
  {
  }

  ghost predicate Counted(size: nat, turns: seq<Turn>, n: nat, s: Sender, written: seq<nat>)
    requires n <= |turns|
  {
    && Numbered(size, turns, s.sent, written)
    && s.sequence == |written| % 0x1_0000 && s.timestamp == Stamp(size, |written|)
    && (s.running <==> !StoppedBy(turns, n)) && (s.running ==> s.counter == n % U32_LIMIT)
  }

  lemma NumberedNext(size: nat, turns: seq<Turn>, sent: seq<Sending>, written: seq<nat>, n: nat)
    requires Numbered(size, turns, sent, written) && n < |turns| && turns[n].payload.Some?
    ensures Numbered(size, turns,
                     sent + [Sending(|sent| % 0x1_0000, Stamp(size, |sent|), n % U32_LIMIT, turns[n].payload.value)],
                     written + [n])
  {
  }

  lemma NextRemainders(k: nat, n: nat)
    ensures (k % 0x1_0000 + 1) % 0x1_0000 == (k + 1) % 0x1_0000
    ensures (n % U32_LIMIT + 1) % U32_LIMIT == (n + 1) % U32_LIMIT
  {
  }

  lemma WriteCounts(size: nat, turns: seq<Turn>, n: nat, s: Sender, written: seq<nat>)
    requires n < |turns| && Counted(size, turns, n, s, written)
    requires s.running && turns[n].payload.Some? && turns[n].outcome == Written
    ensures Counted(size, turns, n + 1, SendTurn(size, s, turns[n]), written + [n])
  {
    StoppedNext(turns, n);
    NextStamp(size, |written|);
    NextRemainders(|written|, n);
    NumberedNext(size, turns, s.sent, written, n);
  }

  lemma {:induction false} CountersCount(size: nat, turns: seq<Turn>, n: nat)
    requires n <= |turns|
    ensures Counted(size, turns, n, After(size, turns, n), WrittenTurns(turns, n))
  {
    NextStamp(size, 0);
    if n > 0 {
      CountersCount(size, turns, n - 1);
      StoppedNext(turns, n - 1);
      NextRemainders(0, n - 1);
      var s, written := After(size, turns, n - 1), WrittenTurns(turns, n - 1);
      if s.running && turns[n - 1].payload.Some? && turns[n - 1].outcome == Written {
        WriteCounts(size, turns, n - 1, s, written);
      }
    }
  }

  /** What the receiver makes of the k-th packet written: its frame, with the sequence number k
      modulo 2^16 and the timestamp k times the frame size modulo 2^32. */
  lemma SentIsDecoded(a: Aead, ssrc: u32, size: nat, turns: seq<Turn>, k: nat)
    requires Lawful(a) && a.nonceSize >= SUFFIX_SIZE && k < |After(size, turns, |turns|).sent|
    ensures |After(size, turns, |turns|).sent| == |WrittenTurns(turns, |turns|)|
    ensures WrittenTurns(turns, |turns|)[k] < |turns| && turns[WrittenTurns(turns, |turns|)[k]].payload.Some?
    ensures Decode(Some(a), PacketsOf(a, ssrc, After(size, turns, |turns|).sent)[k])
            == Ok(Packet(0x80, 0x78, k % 0x1_0000, size * k % U32_LIMIT, ssrc, [], None,
                         turns[WrittenTurns(turns, |turns|)[k]].payload.value))
  {
    CountersCount(size, turns, |turns|);
    var x := After(size, turns, |turns|).sent[k];
    PacketAt(a, ssrc, After(size, turns, |turns|).sent, k);
    DecodeUndoesEncode(a, VoicePacket(ssrc, x), LittleEndian(x.counter, 4));
  }

  lemma {:induction false} LittleEndianIsInjective(m: nat, n: nat, width: nat)
    requires m < Pow256(width) && n < Pow256(width) && LittleEndian(m, width) == LittleEndian(n, width)
    ensures m == n
  {
    if width > 0 {
      var x, y := LittleEndian(m, width), LittleEndian(n, width);
      assert x[0] == y[0] && x[1..] == LittleEndian(m / 256, width - 1) && y[1..] == LittleEndian(n / 256, width - 1);
      LittleEndianIsInjective(m / 256, n / 256, width - 1);
    }
  }

  lemma {:induction false} WrittenInOrder(turns: seq<Turn>, n: nat)
    requires n <= |turns|
    ensures forall k, l :: 0 <= k < l < |WrittenTurns(turns, n)| ==>
              WrittenTurns(turns, n)[k] < WrittenTurns(turns, n)[l]
    ensures forall k :: 0 <= k < |WrittenTurns(turns, n)| ==> WrittenTurns(turns, n)[k] < n
  {
    if n > 0 { WrittenInOrder(turns, n - 1); }
  }

  lemma SameRemainder(m: nat, n: nat)
    ensures (m - n) % U32_LIMIT == 0 <==> m % U32_LIMIT == n % U32_LIMIT
  {
  }

  /** The nonce bytes of a packet, which every packet ends in. */
  function Suffix(packet: Bytes): Bytes
  {
    if |packet| < SUFFIX_SIZE then packet else packet[|packet| - SUFFIX_SIZE..]
  }

  lemma SuffixIsCounter(a: Aead, ssrc: u32, x: Sending)
    requires a.nonceSize >= SUFFIX_SIZE
    ensures Suffix(BytesOf(a, ssrc, x)) == LittleEndian(x.counter, 4)
  {
  }

  /** Two packets of one sender share a nonce exactly if their turns are a multiple of 2^32 apart;
      a dropped frame uses up a nonce although it uses up no sequence number. */
  lemma NoncesRepeatIff(a: Aead, ssrc: u32, size: nat, turns: seq<Turn>, k: nat, l: nat)
    requires a.nonceSize >= SUFFIX_SIZE && k < l < |After(size, turns, |turns|).sent|
    ensures |After(size, turns, |turns|).sent| == |WrittenTurns(turns, |turns|)|
    ensures var packets, written := PacketsOf(a, ssrc, After(size, turns, |turns|).sent), WrittenTurns(turns, |turns|);
            && (Suffix(packets[k]) == Suffix(packets[l]) <==>
                  (written[l] - written[k]) % U32_LIMIT == 0)
            && written[k] < written[l] < |turns|
  {
    CountersCount(size, turns, |turns|);
    WrittenInOrder(turns, |turns|);
    var sent, written := After(size, turns, |turns|).sent, WrittenTurns(turns, |turns|);
    PacketAt(a, ssrc, sent, k);
    PacketAt(a, ssrc, sent, l);
    SuffixIsCounter(a, ssrc, sent[k]);
    SuffixIsCounter(a, ssrc, sent[l]);
    SameRemainder(written[l], written[k]);
    var m, n := sent[k].counter, sent[l].counter;
    if LittleEndian(m, 4) == LittleEndian(n, 4) {
      Powers();
      LittleEndianIsInjective(m, n, 4);
    }
  }

  /** So no nonce repeats within 2^32 turns. */
  lemma NoncesAreUnique(a: Aead, ssrc: u32, size: nat, turns: seq<Turn>, k: nat, l: nat)
    requires a.nonceSize >= SUFFIX_SIZE && |turns| <= U32_LIMIT && k < l < |After(size, turns, |turns|).sent|
    ensures var packets := PacketsOf(a, ssrc, After(size, turns, |turns|).sent);
            Suffix(packets[k]) != Suffix(packets[l])
  {
    NoncesRepeatIff(a, ssrc, size, turns, k, l);
  }
}
