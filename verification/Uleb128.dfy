/** The variable-length nonce encoding (section 7.6 of DWARF 5) with the decoder's
    canonicality and overflow checks. Disjoint bit fields are written as sums. */
module Uleb128 {
  import opened Prelude

  datatype UlebError = Empty | TooLong | Overflow | NonCanonical | Unterminated

  datatype Decoded = Decoded(value: nat, consumed: nat)

  /** The encoding of a value: seven bits a byte, least significant first, the top bit
      of every byte but the last one set. */
  function Uleb(value: nat): (r: Bytes)
    ensures |r| >= 1
  {
    if value < 128 then [value as byte]
    else [(value % 128 + 128) as byte] + Uleb(value / 128)
  }

  function Pow128(k: nat): (p: nat)
    ensures p >= 1
  {
    if k == 0 then 1 else 128 * Pow128(k - 1)
  }

  /** The seven payload bits of an encoded byte. */
  function Low7(b: byte): (low: nat)
    ensures low < 128 && (b < 128 ==> low == b as nat) && (b >= 128 ==> low == b as nat - 128)
  {
    b as nat % 128
  }

  /** `value << (7 * k)`. */
  function ShiftLeft7(value: nat, k: nat): (r: nat)
    ensures k == 0 ==> r == value
    ensures k == 1 ==> r == 128 * value
  {
    value * Pow128(k)
  }

  /** What the decoder reads from position i on, `i` being also the number of bytes read so far. */
  function DecodeFrom(data: Bytes, i: nat): (r: Result<Decoded, UlebError>)
    requires i <= |data|
    ensures r.Ok? ==> i < r.value.consumed <= |data| && i <= 4
    ensures r.Ok? ==> r.value.value < 16 * Pow128(4 - i)
    decreases |data| - i
  {
    if i == |data| then Err(Unterminated)
    else if i >= 5 then Err(TooLong)
    else
      var low := Low7(data[i]);
      if i == 4 && low > 0x0F then Err(Overflow)
      else if data[i] < 128 then
        if i > 0 && low == 0 then Err(NonCanonical) else Ok(Decoded(low, i + 1))
      else
        Prepend(low, 1, DecodeFrom(data, i + 1))
  }

  /** Adds the bits gathered from the k bytes before to what the rest decodes to. */
  function Prepend(gathered: nat, k: nat, rest: Result<Decoded, UlebError>): Result<Decoded, UlebError>
  {
    match rest
    case Err(e) => Err(e)
    case Ok(d) => Ok(Decoded(gathered + ShiftLeft7(d.value, k), d.consumed))
  }

  function Decode(data: Bytes): (r: Result<Decoded, UlebError>)
  {
    if data == [] then Err(Empty) else DecodeFrom(data, 0)
  }

  method EncodeULEB128(value: u32) returns (result: Bytes)
    ensures result == Uleb(value)
  {
    if value == 0 {
      return [0];
    }
    result := [];
    var rest: nat := value;
    while rest > 0
      invariant rest > 0 ==> Uleb(value) == result + Uleb(rest)
      invariant rest == 0 ==> Uleb(value) == result
    {
      var b := rest % 128;
      ghost var before := rest;
      rest := rest / 128;
      if rest > 0 {
        b := b + 128;
        assert Uleb(before) == [b as byte] + Uleb(rest);
      }
      result := result + [b as byte];
    }
  }

  method DecodeULEB128(data: Bytes) returns (r: Result<Decoded, UlebError>)
    ensures r == Decode(data)
  {
    if |data| == 0 {
      return Err(Empty);
    }
    var result: nat := 0;
    var i := 0;
    while i < |data|
      invariant 0 <= i <= |data|
      invariant Decode(data) == Prepend(result, i, DecodeFrom(data, i))
    {
      if i >= 5 {
        return Err(TooLong);
      }
      var value := Low7(data[i]);
      if i == 4 && value > 0x0F {
        return Err(Overflow);
      }
      PrependTwice(result, i, value, DecodeFrom(data, i + 1));
      result := result + ShiftLeft7(value, i);
      if data[i] < 128 {
        if i > 0 && value == 0 {
          return Err(NonCanonical);
        }
        return Ok(Decoded(result, i + 1));
      }
      i := i + 1;
    }
    return Err(Unterminated);
  }

  lemma PrependTwice(gathered: nat, k: nat, low: nat, rest: Result<Decoded, UlebError>)
    ensures Prepend(gathered, k, Prepend(low, 1, rest)) == Prepend(gathered + ShiftLeft7(low, k), k + 1, rest)
    ensures Prepend(gathered, k, Ok(Decoded(low, k + 1))) == Ok(Decoded(gathered + ShiftLeft7(low, k), k + 1))
  {
    if rest.Ok? {
      Distribute(Pow128(k), low, rest.value.value);
    }
  }

  lemma Distribute(scale: nat, low: nat, high: nat)
    ensures scale * (low + 128 * high) == low * scale + (128 * scale) * high
  {
  }

  /** A 32-bit value needs at most five bytes. */
  lemma {:induction false} UlebLength(value: nat, k: nat)
    requires k >= 1 && value < Pow128(k)
    ensures |Uleb(value)| <= k
    decreases k
  {
    if value >= 128 {
      UlebLength(value / 128, k - 1);
    }
  }

  lemma UlebOfU32(value: u32)
    ensures 1 <= |Uleb(value)| <= 5
  {
    assert Pow128(5) == 128 * 128 * 128 * 128 * 128 by {
      assert Pow128(3) == 128 * 128 * 128;
    }
    UlebLength(value, 5);
  }

  lemma {:induction false} DecodeUndoesUleb(data: Bytes, i: nat, value: nat)
    requires i <= 4 && i <= |data| && Uleb(value) <= data[i..]
    requires value < 16 * Pow128(4 - i)
    requires i > 0 ==> value > 0
    ensures DecodeFrom(data, i) == Ok(Decoded(value, i + |Uleb(value)|))
    decreases value
  {
    var code := Uleb(value);
    assert data[i] == data[i..][0] == code[0];
    if value >= 128 {
      assert code[1..] == Uleb(value / 128);
      assert data[i + 1..] == data[i..][1..];
      assert code[1..] == data[i..][..|code|][1..] == data[i + 1..][..|code| - 1];
      DecodeUndoesUleb(data, i + 1, value / 128);
    }
  }

  lemma {:induction false} UlebUndoesDecode(data: Bytes, i: nat)
    requires i <= |data| && DecodeFrom(data, i).Ok?
    ensures var d := DecodeFrom(data, i).value;
            data[i..d.consumed] == Uleb(d.value) && (i > 0 ==> d.value > 0)
    decreases |data| - i
  {
    if data[i] >= 128 {
      UlebUndoesDecode(data, i + 1);
      var low, high := Low7(data[i]), DecodeFrom(data, i + 1).value;
      UlebPush(low, high.value);
      assert data[i..high.consumed] == [data[i]] + data[i + 1..high.consumed];
    }
  }

  lemma UlebPush(low: nat, high: nat)
    requires low < 128 && high > 0
    ensures Uleb(low + 128 * high) == [(low + 128) as byte] + Uleb(high)
  {
    assert (low + 128 * high) / 128 == high && (low + 128 * high) % 128 == low;
  }

  /** Decoding an encoding followed by anything gives the value back and stops at its end. */
  lemma RoundTrip(value: u32, rest: Bytes)
    ensures Decode(Uleb(value) + rest) == Ok(Decoded(value, |Uleb(value)|))
  {
    var data := Uleb(value) + rest;
    assert data[0..] == data;
    assert 16 * Pow128(4) == U32_LIMIT by {
      assert Pow128(3) == 128 * 128 * 128;
    }
    DecodeUndoesUleb(data, 0, value);
  }

  /** A successful decode consumed exactly the encoding of its 32-bit result. */
  lemma Canonical(data: Bytes)
    requires Decode(data).Ok?
    ensures var d := Decode(data).value;
            d.value < U32_LIMIT && d.consumed <= |data| && data[..d.consumed] == Uleb(d.value)
  {
    assert 16 * Pow128(4) == U32_LIMIT by {
      assert Pow128(3) == 128 * 128 * 128;
    }
    UlebUndoesDecode(data, 0);
  }

  /** The decoder accepts exactly the byte strings that begin with an encoding, and the
      encoding they begin with is unique. */
  lemma DecodesExactlyEncodings(data: Bytes)
    ensures Decode(data).Ok? <==> exists value: u32 :: Uleb(value) <= data
    ensures forall v: u32, w: u32 :: Uleb(v) <= data && Uleb(w) <= data ==> v == w
  {
    forall value: u32 | Uleb(value) <= data
      ensures Decode(data) == Ok(Decoded(value, |Uleb(value)|))
    {
      assert data == Uleb(value) + data[|Uleb(value)|..];
      RoundTrip(value, data[|Uleb(value)|..]);
    }
    if Decode(data).Ok? {
      Canonical(data);
      var value: u32 := Decode(data).value.value;
      assert Uleb(value) <= data;
    }
  }
}
