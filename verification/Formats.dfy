/** The formats on concrete numbers, byte by byte: an encoder and a decoder that agreed on another
    format would keep every round trip. */
module Formats {
  import opened Prelude
  import opened ByteOrder
  import opened Cipher
  import opened SecureFrame
  import opened HashRatchet
  import U = Uleb128
  import V = VoicePackets
  import M = DaveModel
  import R = DaveRuns

  lemma LittleEndianWord()
    ensures LittleEndian(0x01020304, 4) == [4, 3, 2, 1]
  {
    assert LittleEndian(0x01, 1) == [1] + LittleEndian(0, 0);
    assert LittleEndian(0x0102, 2) == [2] + LittleEndian(0x01, 1);
    assert LittleEndian(0x010203, 3) == [3] + LittleEndian(0x0102, 2);
  }

  lemma BigEndianWord(a: byte, b: byte, c: byte, d: byte)
    ensures var n := ((a as nat * 256 + b as nat) * 256 + c as nat) * 256 + d as nat; BigEndian(n, 4) == [a, b, c, d]
  {
    var n1, n2, n3 := a as nat, a as nat * 256 + b as nat, (a as nat * 256 + b as nat) * 256 + c as nat;
    assert BigEndian(n1, 1) == BigEndian(0, 0) + [a];
    assert BigEndian(n2, 2) == BigEndian(n1, 1) + [b];
    assert BigEndian(n3, 3) == BigEndian(n2, 2) + [c];
    assert BigEndian(n3 * 256 + d as nat, 4) == BigEndian(n3, 3) + [d];
  }

  /** Eight zero bytes, and the counter with its low byte first. */
  lemma NonceBytes()
    ensures GcmNonce(0x01020304) == [0, 0, 0, 0, 0, 0, 0, 0, 4, 3, 2, 1]
  {
    LittleEndianWord();
  }

  /** What is written for 300, and what is no encoding of anything. */
  lemma UlebBytes()
    ensures U.Uleb(300) == [0xAC, 0x02] && U.Uleb(0) == [0]
    ensures U.Decode([]) == Err(U.Empty) && U.Decode([0x80]) == Err(U.Unterminated)
    ensures U.Decode([0x80, 0x00]) == Err(U.NonCanonical)
  {
    assert U.Uleb(2) == [2];
    assert U.DecodeFrom([0x80], 1) == Err(U.Unterminated);
    assert U.DecodeFrom([0x80, 0x00], 1) == Err(U.NonCanonical);
  }

  lemma UlebTooBig()
    ensures U.Decode([0xFF, 0xFF, 0xFF, 0xFF, 0x10]) == Err(U.Overflow)
    ensures U.Decode([0x81, 0x81, 0x81, 0x81, 0x81, 0x00]) == Err(U.TooLong)
  {
    var over: Bytes, long: Bytes := [0xFF, 0xFF, 0xFF, 0xFF, 0x10], [0x81, 0x81, 0x81, 0x81, 0x81, 0x00];
    assert U.DecodeFrom(over, 4) == Err(U.Overflow) && U.DecodeFrom(long, 5) == Err(U.TooLong);
    assert U.DecodeFrom(long, 4) == Err(U.TooLong);
    assert U.DecodeFrom(over, 3) == Err(U.Overflow) && U.DecodeFrom(long, 3) == Err(U.TooLong);
    assert U.DecodeFrom(over, 2) == Err(U.Overflow) && U.DecodeFrom(long, 2) == Err(U.TooLong);
    assert U.DecodeFrom(over, 1) == Err(U.Overflow) && U.DecodeFrom(long, 1) == Err(U.TooLong);
  }

  /** The frame of nonce 300: ciphertext, tag, two nonce bytes, the thirteen bytes from the tag to the
      end, and the marker. */
  lemma FrameBytes(ciphertext: Bytes, tag: Bytes)
    requires |tag| == 8
    ensures Layout(Parts(ciphertext, tag, 300)) == ciphertext + tag + [0xAC, 0x02, 13, 0xFA, 0xFA]
  {
    UlebBytes();
  }

  /** A nonce followed by another byte is refused. */
  lemma TrailingNonceByte(tag: Bytes)
    requires |tag| == 8
    ensures Parse(tag + [1, 0, 13, 0xFA, 0xFA]) == Err(TrailingNonceBytes)
  {
    var data := tag + [1, 0, 13, 0xFA, 0xFA];
    assert data[8..10] == [1, 0];
    assert U.Decode([1, 0]) == Ok(U.Decoded(1, 1));
  }

  /** The keys of the first two generations, from the labels and contexts up. */
  lemma FirstKeys(p: Primitives, base: Bytes)
    ensures RatchetKey(p, base, 0) == p.expand(base, "key", [0, 0, 0, 0], 16)
    ensures var next := p.expand(base, "secret", [0, 0, 0, 0], 32);
            RatchetKey(p, base, 1) == if next.None? then None else p.expand(next.value, "key", [0, 0, 0, 1], 16)
  {
    BigEndianWord(0, 0, 0, 0);
    BigEndianWord(0, 0, 0, 1);
    assert RatchetSecret(p, base, 1) == p.expand(base, "secret", [0, 0, 0, 0], 32);
  }

  /** The generation of a nonce is its top byte. */
  lemma KeyOfNonce(p: Primitives, base: Bytes)
    requires Derivable(p, base, 2)
    ensures R.Key(p, base, 0x0203_0405) == RatchetKey(p, base, 2).value
  {
  }

  lemma Parses258()
    ensures M.ParseUint("258") == Some(258)
  {
    assert "258"[..2] == "25" && "25"[..1] == "2" && "2"[..0] == "";
    assert M.ParseDigits("") == Some(0) && M.ParseDigits("2") == Some(2) && M.ParseDigits("25") == Some(25);
  }

  lemma Bytes258()
    ensures LittleEndian(258, 8) == [2, 1, 0, 0, 0, 0, 0, 0] && BigEndian(258, 8) == [0, 0, 0, 0, 0, 0, 1, 2]
  {
    assert LittleEndian(0, 3) == [0, 0, 0] && LittleEndian(0, 6) == [0, 0, 0] + LittleEndian(0, 3);
    assert BigEndian(0, 3) == [0, 0, 0] && BigEndian(0, 6) == BigEndian(0, 3) + [0, 0, 0];
  }

  /** The secret exported for user 258: sixteen bytes under this label, for the id with its low byte
      first. The channel's group id has its high byte first. */
  lemma ExportedFor258(p: Primitives, group: nat, s: M.Session, reset: M.GroupCall)
    ensures M.BaseSecret(p, Some(group), "258")
            == p.exporter(group, "Discord Secure Frames v0", [2, 1, 0, 0, 0, 0, 0, 0], 16)
    ensures M.Configure(s, "258", 1, reset).1 ==>
              M.Configure(s, "258", 1, reset).0.mls.groupID == [0, 0, 0, 0, 0, 0, 1, 2]
  {
    Parses258();
    Bytes258();
  }

  /** A voice packet's header: version 2 with nothing else, payload type 120, and sequence number,
      timestamp and SSRC with their high bytes first. */
  lemma VoiceHeaderBytes(payload: Bytes)
    ensures var packet := V.VoicePacket(0x07080900, V.Sending(0x0102, 0x03040506, 0, payload));
            V.ClearHeader(packet) == [0x80, 0x78, 1, 2, 3, 4, 5, 6, 7, 8, 9, 0] && V.Text(packet) == payload
  {
    hide BigEndian, V.ClearHeader, V.Text, V.WellFormed, V.VoicePacket;
    BigEndianWord(3, 4, 5, 6);
    BigEndianWord(7, 8, 9, 0);
    TwoBytes();
    V.HeaderBytes([0x80, 0x78] + [1, 2] + [3, 4, 5, 6] + [7, 8, 9, 0], 0x07080900,
                  V.Sending(0x0102, 0x03040506, 0, payload));
  }

  lemma TwoBytes()
    ensures BigEndian(0x0102, 2) == [1, 2]
  {
    assert BigEndian(0x0102, 2) == BigEndian(0x01, 1) + [2] && BigEndian(0x01, 1) == BigEndian(0, 0) + [1];
  }

  // ---- decimal numbers

  /** A number in decimal, without leading zeros. */
  function Decimal(n: nat): string
  {
    (if n < 10 then "" else Decimal(n / 10)) + [('0' as int + n % 10) as char]
  }

  lemma {:induction false} DigitsOfDecimal(n: nat)
    ensures M.ParseDigits(Decimal(n)) == Some(n)
  {
    if n >= 10 { DigitsOfDecimal(n / 10); }
    hide Decimal;
    LastDigit(n);
    DigitOf(n % 10);
    DigitRead(if n < 10 then "" else Decimal(n / 10), n / 10, ('0' as int + n % 10) as char);
  }

  lemma LastDigit(n: nat)
    ensures Decimal(n) == (if n < 10 then "" else Decimal(n / 10)) + [('0' as int + n % 10) as char]
  {
  }

  lemma DigitOf(digit: nat)
    requires digit < 10
    ensures var c := ('0' as int + digit) as char; '0' <= c <= '9' && c as int - '0' as int == digit
  {
  }

  /** One more digit is read. */
  lemma DigitRead(s: string, n: nat, c: char)
    requires M.ParseDigits(s) == Some(n) && '0' <= c <= '9'
    ensures M.ParseDigits(s + [c]) == Some(10 * n + (c as int - '0' as int))
  {
    assert (s + [c])[..|s + [c]| - 1] == s;
  }

  /** Snowflakes written in decimal are read back, up to 64 bits. */
  lemma ParsesDecimals(n: nat)
    ensures M.ParseUint(Decimal(n)) == if n < 0x1_0000_0000_0000_0000 then Some(n) else None
  {
    DigitsOfDecimal(n);
  }
}
