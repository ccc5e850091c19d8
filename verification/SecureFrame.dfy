/** The binary layout of an encrypted media frame: its builder, its parser, and the
    encryption and decryption around them. */
module SecureFrame {
  import opened Prelude
  import opened ByteOrder
  import opened Uleb128
  import opened Cipher

  const TAG_SIZE: nat := 8
  const KEY_SIZE: nat := 16
  const EXPORT_LABEL: string := "Discord Secure Frames v0"
  const MIN_SUPPLEMENTAL_SIZE: nat := TAG_SIZE + 1 + 1 + 2
  const MAGIC: byte := 0xFA

  datatype FrameError = TooShort | NotDaveFrame | BadSupplementalSize | BadNonce(cause: UlebError) | TrailingNonceBytes

  datatype Parts = Parts(ciphertext: Bytes, tag: Bytes, nonce: nat)

  /** The twelve-byte GCM nonce: eight zero bytes and the counter, little-endian. */
  function GcmNonce(counter: u32): (r: Bytes)
    ensures |r| == 12
  {
    seq(8, _ => 0 as byte) + LittleEndian(counter, 4)
  }

  /** ciphertext, truncated tag, encoded nonce, size of the supplement, marker. */
  function Layout(parts: Parts): Bytes
    requires |parts.tag| == TAG_SIZE && parts.nonce < U32_LIMIT
  {
    UlebOfU32(parts.nonce);
    parts.ciphertext + parts.tag + Uleb(parts.nonce)
      + [(TAG_SIZE + |Uleb(parts.nonce)| + 1 + 2) as byte, MAGIC, MAGIC]
  }

  /** What the sender derives from a frame before laying it out. */
  function Seal(p: Primitives, key: Bytes, nonce: u32, opus: Bytes): (parts: Parts)
    ensures |parts.tag| == TAG_SIZE && parts.nonce == nonce && |parts.ciphertext| == |opus|
  {
    var c := GcmEncrypt(p, key, GcmNonce(nonce), opus);
    Parts(c, p.gcmTag(key, GcmNonce(nonce), c)[..TAG_SIZE], nonce)
  }

  function Parse(data: Bytes): (r: Result<Parts, FrameError>)
  {
    if |data| < 2 + 1 + 1 + TAG_SIZE then Err(TooShort)
    else if data[|data| - 1] != MAGIC || data[|data| - 2] != MAGIC then Err(NotDaveFrame)
    else
      var size := data[|data| - 3] as nat;
      if |data| < size || size < MIN_SUPPLEMENTAL_SIZE then Err(BadSupplementalSize)
      else
        var start := |data| - size;
        var nonceBytes := data[start + TAG_SIZE..|data| - 3];
        match Decode(nonceBytes)
        case Err(e) => Err(BadNonce(e))
        case Ok(d) =>
          if d.consumed != |nonceBytes| then Err(TrailingNonceBytes)
          else Ok(Parts(data[..start], data[start..start + TAG_SIZE], d.value))
  }

  /** Recovers the plaintext in counter mode, then seals it again to compare the tags. */
  function Open(p: Primitives, blockKey: Bytes, aeadKey: Bytes, parts: Parts): Option<Bytes>
    requires parts.nonce < U32_LIMIT
  {
    var iv: Block := GcmNonce(parts.nonce) + BigEndian(2, 4);
    var plaintext := CtrXor(p, blockKey, iv, parts.ciphertext);
    if Seal(p, aeadKey, parts.nonce, plaintext).tag == parts.tag then Some(plaintext) else None
  }

  method BuildNonce(counter: u32) returns (nonce: array<byte>)
    ensures fresh(nonce) && nonce[..] == GcmNonce(counter)
  {
    nonce := new byte[12](_ => 0);
    var bytes := LittleEndian(counter, 4);
    forall i | 0 <= i < 4 { nonce[8 + i] := bytes[i]; }
  }

  method EncryptSecureFrame(p: Primitives, key: Bytes, nonce: u32, opus: Bytes) returns (result: Bytes)
    requires |opus| <= GCM_MAX
    ensures result == Layout(Seal(p, key, nonce, opus))
  {
    var fullNonce := BuildNonce(nonce);
    var sealed := GcmSeal(p, key, fullNonce[..], opus);
    var ciphertext := sealed[..|opus|];
    var fullTag := sealed[|opus|..];
    var truncatedTag := fullTag[..TAG_SIZE];
    assert ciphertext == GcmEncrypt(p, key, GcmNonce(nonce), opus);
    assert fullTag == p.gcmTag(key, GcmNonce(nonce), ciphertext);

    var nonceBytes := EncodeULEB128(nonce);
    UlebOfU32(nonce);
    var supplementalSize := (TAG_SIZE + |nonceBytes| + 1 + 2) as byte;
    result := ciphertext;
    result := result + truncatedTag;
    result := result + nonceBytes;
    result := result + [supplementalSize];
    result := result + [MAGIC, MAGIC];
  }

  method DecryptSecureFrame(p: Primitives, blockKey: Bytes, aeadKey: Bytes, nonce: u32, ciphertext: Bytes,
                            truncatedTag: Bytes)
    returns (r: Option<Bytes>)
    requires |ciphertext| <= GCM_MAX
    ensures r == Open(p, blockKey, aeadKey, Parts(ciphertext, truncatedTag, nonce))
  {
    var gcmNonce := BuildNonce(nonce);
    var ctrIV := new byte[16](_ => 0);
    forall i | 0 <= i < 12 { ctrIV[i] := gcmNonce[i]; }
    var start := BigEndian(2, 4);
    forall i | 0 <= i < 4 { ctrIV[12 + i] := start[i]; }
    assert gcmNonce[..] == GcmNonce(nonce) && ctrIV[..] == GcmNonce(nonce) + start;

    var plaintext := CtrXor(p, blockKey, ctrIV[..], ciphertext);
    var sealed := GcmSeal(p, aeadKey, gcmNonce[..], plaintext);
    var fullTag := sealed[|plaintext|..];
    ghost var again := GcmEncrypt(p, aeadKey, GcmNonce(nonce), plaintext);
    assert sealed == again + p.gcmTag(aeadKey, GcmNonce(nonce), again);
    assert fullTag == p.gcmTag(aeadKey, GcmNonce(nonce), again);
    if fullTag[..TAG_SIZE] != truncatedTag {
      return None;
    }
    return Some(plaintext);
  }

  /** The parser undoes the layout. */
  lemma ParseUndoesLayout(parts: Parts)
    requires |parts.tag| == TAG_SIZE && parts.nonce < U32_LIMIT
    ensures Parse(Layout(parts)) == Ok(parts)
  {
    var data := Layout(parts);
    var code := Uleb(parts.nonce);
    UlebOfU32(parts.nonce);
    var start := |parts.ciphertext|;
    assert data[|data| - 3] as nat == 11 + |code| && |data| - (11 + |code|) == start;
    assert data[..start] == parts.ciphertext;
    assert data[start..start + TAG_SIZE] == parts.tag;
    assert data[start + TAG_SIZE..|data| - 3] == code;
    RoundTrip(parts.nonce, []);
    assert code + [] == code;
  }

  /** The parser accepts nothing but laid-out frames. */
  lemma LayoutUndoesParse(data: Bytes)
    requires Parse(data).Ok?
    ensures var parts := Parse(data).value;
            |parts.tag| == TAG_SIZE && parts.nonce < U32_LIMIT && Layout(parts) == data
  {
    var size := data[|data| - 3] as nat;
    var start := |data| - size;
    var nonceBytes := data[start + TAG_SIZE..|data| - 3];
    Canonical(nonceBytes);
    assert nonceBytes[..|nonceBytes|] == nonceBytes;
    var parts := Parse(data).value;
    UlebOfU32(parts.nonce);
    assert size == TAG_SIZE + |Uleb(parts.nonce)| + 1 + 2;
    assert data[|data| - 3..] == [size as byte, MAGIC, MAGIC];
    assert data == data[..start] + data[start..start + TAG_SIZE] + nonceBytes + data[|data| - 3..];
  }

  /** Opening accepts exactly what sealing the same bytes under the same key produces. */
  lemma OpensExactlySealed(p: Primitives, key: Bytes, parts: Parts, opus: Bytes)
    requires parts.nonce < U32_LIMIT && |parts.ciphertext| <= GCM_MAX && |opus| <= GCM_MAX
    ensures Open(p, key, key, parts) == Some(opus) <==> parts == Seal(p, key, parts.nonce, opus)
  {
    var nonce := GcmNonce(parts.nonce);
    CtrInvertsGcm(p, key, nonce, parts.ciphertext);
    CtrInvertsGcm(p, key, nonce, opus);
  }
}
