/** The cryptographic primitives as uninterpreted functions, and the two modes built on the
    block cipher: GCM (section 7.1 of NIST SP 800-38D) and plain counter mode. */
module Cipher {
  import opened Prelude
  import opened ByteOrder

  type Block = b: Bytes | |b| == 16 witness seq(16, _ => 0)

  /** One arbitrary choice of AES, GCM tag, HKDF label expansion and MLS exporter.
      `expand` and `exporter` may fail; `exporter` depends on the state of the MLS group. */
  datatype Primitives = Primitives(
    aes: (Bytes, Bytes) -> Block,
    gcmTag: (Bytes, Bytes, Bytes) -> Block,
    expand: (Bytes, string, Bytes, nat) -> Option<Bytes>,
    exporter: (nat, string, Bytes, nat) -> Option<Bytes>)

  /** AES accepts keys of 16, 24 and 32 bytes only. */
  predicate ValidAesKey(key: Bytes)
  {
    |key| == 16 || |key| == 24 || |key| == 32
  }

  /** The longest plaintext GCM accepts, in bytes. */
  const GCM_MAX: nat := 16 * (U32_LIMIT - 2)

  /** The exclusive or of the low k bits. */
  function Xor(a: nat, b: nat, k: nat): nat
  {
    if k == 0 then 0 else (a + b) % 2 + 2 * Xor(a / 2, b / 2, k - 1)
  }

  lemma {:induction false} XorFits(a: nat, b: nat, k: nat)
    ensures Xor(a, b, k) < Pow2(k)
  {
    if k > 0 { XorFits(a / 2, b / 2, k - 1); }
  }

  lemma Pow2Of8()
    ensures Pow2(8) == 256
  {
    assert Pow2(2) == 4 && Pow2(4) == 16 && Pow2(6) == 64;
  }

  lemma LowBits(a: nat, b: nat, high: nat)
    ensures var x := (a + b) % 2 + 2 * high; x / 2 == high && (x + b) % 2 == a % 2
  {
  }

  lemma {:induction false} XorUndoes(a: nat, b: nat, k: nat)
    requires a < Pow2(k)
    ensures Xor(Xor(a, b, k), b, k) == a
  {
    if k > 0 {
      XorUndoes(a / 2, b / 2, k - 1);
      LowBits(a, b, Xor(a / 2, b / 2, k - 1));
    }
  }

  function XorByte(a: byte, b: byte): byte
  {
    Pow2Of8();
    XorFits(a as nat, b as nat, 8);
    Xor(a as nat, b as nat, 8) as byte
  }

  lemma XorTwice(a: byte, b: byte)
    ensures XorByte(XorByte(a, b), b) == a
  {
    Pow2Of8();
    XorUndoes(a as nat, b as nat, 8);
  }

  /** inc32: the last four bytes of the block count modulo 2^32, the others stay. */
  function Inc32(b: Block): Block
  {
    b[..12] + BigEndian(BigEndianValue(b[12..]) + 1, 4)
  }

  /** The counter-mode stream increments the whole block modulo 2^128. */
  function Inc128(b: Block): Block
  {
    BigEndian(BigEndianValue(b) + 1, 16)
  }

  /** The counter block that encrypts data block j under a 12-byte GCM nonce. */
  function GcmCounter(nonce: Bytes, j: nat): Block
    requires |nonce| == 12
  {
    if j == 0 then Inc32(nonce + BigEndian(1, 4)) else Inc32(GcmCounter(nonce, j - 1))
  }

  function CtrCounter(iv: Block, j: nat): Block
  {
    if j == 0 then iv else Inc128(CtrCounter(iv, j - 1))
  }

  /** GCM encryption without additional data: ciphertext and 16-byte tag. */
  function GcmEncrypt(p: Primitives, key: Bytes, nonce: Bytes, plaintext: Bytes): (r: Bytes)
    requires |nonce| == 12
    ensures |r| == |plaintext|
  {
    seq(|plaintext|, i requires 0 <= i < |plaintext| =>
      XorByte(plaintext[i], p.aes(key, GcmCounter(nonce, i / 16))[i % 16]))
  }

  function GcmSeal(p: Primitives, key: Bytes, nonce: Bytes, plaintext: Bytes): (r: Bytes)
    requires |nonce| == 12
    ensures |r| == |plaintext| + 16
  {
    var c := GcmEncrypt(p, key, nonce, plaintext);
    c + p.gcmTag(key, nonce, c)
  }

  /** XORs the counter-mode key stream into data. */
  function CtrXor(p: Primitives, key: Bytes, iv: Block, data: Bytes): (r: Bytes)
    ensures |r| == |data|
  {
    seq(|data|, i requires 0 <= i < |data| =>
      XorByte(data[i], p.aes(key, CtrCounter(iv, i / 16))[i % 16]))
  }

  lemma Inc32Of(nonce: Bytes, c: u32)
    requires |nonce| == 12
    ensures Inc32(nonce + BigEndian(c, 4)) == nonce + BigEndian(c + 1, 4)
  {
    var b := nonce + BigEndian(c, 4);
    assert b[..12] == nonce && b[12..] == BigEndian(c, 4);
    Pow256Of4();
    ValueOfBigEndian(c, 4);
  }

  /** Four bytes hold a number modulo 2^32. */
  lemma WordWraps(n: nat)
    ensures BigEndian(n, 4) == BigEndian(n % U32_LIMIT, 4)
  {
    Pow256Of4();
    BigEndianSplits(n / U32_LIMIT, n % U32_LIMIT, 0, 4);
  }

  lemma Inc32Wraps(nonce: Bytes, n: nat)
    requires |nonce| == 12
    ensures Inc32(nonce + BigEndian(n, 4)) == nonce + BigEndian(n + 1, 4)
  {
    WordWraps(n);
    Inc32Of(nonce, n % U32_LIMIT);
    NextModulo(n);
    WordWraps(n % U32_LIMIT + 1);
    WordWraps(n + 1);
  }

  lemma NextModulo(n: nat)
    ensures (n % U32_LIMIT + 1) % U32_LIMIT == (n + 1) % U32_LIMIT
  {
  }

  lemma {:induction false} GcmCounterValue(nonce: Bytes, j: nat)
    requires |nonce| == 12
    ensures GcmCounter(nonce, j) == nonce + BigEndian(2 + j, 4)
  {
    hide BigEndian, BigEndianValue;
    if j == 0 {
      Inc32Wraps(nonce, 1);
    } else {
      GcmCounterValue(nonce, j - 1);
      Inc32Wraps(nonce, 1 + j);
    }
  }

  lemma Pow256Of4()
    ensures Pow256(4) == U32_LIMIT
  {
    assert Pow256(2) == 256 * 256;
  }

  lemma Inc128Of(nonce: Bytes, c: u32)
    requires |nonce| == 12
    ensures Inc128(nonce + BigEndian(c, 4)) == BigEndian(BigEndianValue(nonce) * U32_LIMIT + (c + 1), 16)
  {
    Pow256Of4();
    ValueOfConcat(nonce, BigEndian(c, 4));
    ValueOfBigEndian(c, 4);
  }

  lemma SplitsAtWord(high: nat, low: u32)
    ensures BigEndian(high * U32_LIMIT + low, 16) == BigEndian(high, 12) + BigEndian(low, 4)
  {
    Pow256Of4();
    BigEndianSplits(high, low, 12, 4);
  }

  lemma {:induction false} CtrCounterValue(nonce: Bytes, j: nat)
    requires |nonce| == 12 && 2 + j < U32_LIMIT
    ensures CtrCounter(nonce + BigEndian(2, 4), j) == nonce + BigEndian(2 + j, 4)
  {
    hide BigEndian, BigEndianValue, Pow256;
    if j > 0 {
      CtrCounterValue(nonce, j - 1);
      Inc128Of(nonce, 1 + j);
      SplitsAtWord(BigEndianValue(nonce), 2 + j);
      BigEndianOfValue(nonce);
    }
  }

  /** Counter mode started at 2 runs through GCM's data counters up to GCM's length limit. */
  lemma CountersAgree(nonce: Bytes, j: nat)
    requires |nonce| == 12 && j < U32_LIMIT - 2
    ensures CtrCounter(nonce + BigEndian(2, 4), j) == GcmCounter(nonce, j)
  {
    GcmCounterValue(nonce, j);
    CtrCounterValue(nonce, j);
  }

  /** One block further they part: counter mode carries into the nonce and GCM wraps. So the bound on
      the length below, which is GCM's own, could not be larger. */
  lemma CountersPart(nonce: Bytes, j: nat)
    requires |nonce| == 12 && j == U32_LIMIT - 2
    ensures CtrCounter(nonce + BigEndian(2, 4), j) != GcmCounter(nonce, j)
  {
    GcmCounterValue(nonce, j);
    CtrCarries(nonce, j);
    CarryChanges(nonce);
    assert CtrCounter(nonce + BigEndian(2, 4), j)[11] != nonce[11];
  }

  lemma CtrCarries(nonce: Bytes, j: nat)
    requires |nonce| == 12 && j == U32_LIMIT - 2
    ensures CtrCounter(nonce + BigEndian(2, 4), j) == BigEndian(BigEndianValue(nonce) + 1, 12) + BigEndian(0, 4)
  {
    CtrCounterValue(nonce, j - 1);
    Inc128Of(nonce, 1 + j);
    SplitsAtWord(BigEndianValue(nonce) + 1, 0);
  }

  lemma CarryChanges(nonce: Bytes)
    requires |nonce| == 12
    ensures BigEndian(BigEndianValue(nonce) + 1, 12)[11] != nonce[11]
  {
    assert BigEndianValue(nonce) == 256 * BigEndianValue(nonce[..11]) + nonce[11] as nat;
  }

  /** Counter mode started at 2 inverts GCM encryption, in both orders. */
  lemma CtrInvertsGcm(p: Primitives, key: Bytes, nonce: Bytes, data: Bytes)
    requires |nonce| == 12 && |data| <= GCM_MAX
    ensures CtrXor(p, key, nonce + BigEndian(2, 4), GcmEncrypt(p, key, nonce, data)) == data
    ensures GcmEncrypt(p, key, nonce, CtrXor(p, key, nonce + BigEndian(2, 4), data)) == data
  {
    var iv := nonce + BigEndian(2, 4);
    forall i | 0 <= i < |data|
      ensures CtrXor(p, key, iv, GcmEncrypt(p, key, nonce, data))[i] == data[i]
      ensures GcmEncrypt(p, key, nonce, CtrXor(p, key, iv, data))[i] == data[i]
    {
      CountersAgree(nonce, i / 16);
      XorTwice(data[i], p.aes(key, GcmCounter(nonce, i / 16))[i % 16]);
    }
  }
}
