/** The per-generation key ratchet. */
module HashRatchet {
  import opened Prelude
  import opened ByteOrder
  import opened Cipher

  /** The ratchet secret of a generation: one "secret" expansion per earlier generation. */
  function RatchetSecret(p: Primitives, base: Bytes, generation: nat): Option<Bytes>
  {
    if generation == 0 then Some(base)
    else
      match RatchetSecret(p, base, generation - 1)
      case None => None
      case Some(secret) => p.expand(secret, "secret", BigEndian(generation - 1, 4), 32)
  }

  function RatchetKey(p: Primitives, base: Bytes, generation: nat): Option<Bytes>
  {
    match RatchetSecret(p, base, generation)
    case None => None
    case Some(secret) => p.expand(secret, "key", BigEndian(generation, 4), 16)
  }

  /** The generation's key exists and AES accepts it. */
  predicate Derivable(p: Primitives, base: Bytes, generation: nat)
  {
    RatchetKey(p, base, generation).Some? && ValidAesKey(RatchetKey(p, base, generation).value)
  }

  method HashRatchetGetKey(p: Primitives, base: Bytes, generation: u32) returns (key: Option<Bytes>)
    ensures key == RatchetKey(p, base, generation)
  {
    var secret := base;
    var i := 0;
    while i < generation
      invariant 0 <= i <= generation
      invariant RatchetSecret(p, base, i) == Some(secret)
    {
      var next := p.expand(secret, "secret", BigEndian(i, 4), 32);
      if next.None? {
        NoSecretLater(p, base, i + 1, generation);
        return None;
      }
      secret := next.value;
      i := i + 1;
    }
    key := p.expand(secret, "key", BigEndian(generation, 4), 16);
  }

  /** A failed expansion leaves every later generation without a secret. */
  lemma {:induction false} NoSecretLater(p: Primitives, base: Bytes, failed: nat, generation: nat)
    requires failed <= generation && RatchetSecret(p, base, failed).None?
    ensures RatchetSecret(p, base, generation).None?
    decreases generation
  {
    if failed < generation {
      NoSecretLater(p, base, failed, generation - 1);
    }
  }
}
