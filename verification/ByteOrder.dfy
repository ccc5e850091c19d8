/** Fixed-width big-endian and little-endian integers. */
module ByteOrder {
  import opened Prelude

  function Pow256(k: nat): (p: nat)
    ensures p >= 1
  {
    if k == 0 then 1 else 256 * Pow256(k - 1)
  }

  /** The low `width` bytes of n, most significant first; higher bytes are cut off. */
  function BigEndian(n: nat, width: nat): (r: Bytes)
    ensures |r| == width
  {
    if width == 0 then [] else BigEndian(n / 256, width - 1) + [(n % 256) as byte]
  }

  function LittleEndian(n: nat, width: nat): (r: Bytes)
    ensures |r| == width
  {
    if width == 0 then [] else [(n % 256) as byte] + LittleEndian(n / 256, width - 1)
  }

  function BigEndianValue(b: Bytes): (n: nat)
  {
    if b == [] then 0 else 256 * BigEndianValue(b[..|b| - 1]) + b[|b| - 1] as nat
  }

  lemma {:induction false} BigEndianOfValue(b: Bytes)
    ensures BigEndian(BigEndianValue(b), |b|) == b
    ensures BigEndianValue(b) < Pow256(|b|)
  {
    if b != [] {
      BigEndianOfValue(b[..|b| - 1]);
      DivMod256(BigEndianValue(b[..|b| - 1]), b[|b| - 1] as nat);
    }
  }

  lemma {:induction false} ValueOfBigEndian(n: nat, width: nat)
    requires n < Pow256(width)
    ensures BigEndianValue(BigEndian(n, width)) == n
  {
    if width > 0 {
      ValueOfBigEndian(n / 256, width - 1);
      var b := BigEndian(n, width);
      assert b[..|b| - 1] == BigEndian(n / 256, width - 1);
    }
  }

  /** Writing a number as high and low parts writes the parts side by side. */
  lemma {:induction false} BigEndianSplits(high: nat, low: nat, w: nat, k: nat)
    requires low < Pow256(k)
    ensures BigEndian(high * Pow256(k) + low, w + k) == BigEndian(high, w) + BigEndian(low, k)
    decreases k
  {
    if k > 0 {
      var n := high * Pow256(k) + low;
      SplitStep(high, Pow256(k - 1), low);
      BigEndianSplits(high, low / 256, w, k - 1);
    }
  }

  lemma {:induction false} ValueOfConcat(a: Bytes, b: Bytes)
    ensures BigEndianValue(a + b) == BigEndianValue(a) * Pow256(|b|) + BigEndianValue(b)
  {
    if b == [] {
      assert a + b == a;
    } else {
      var init := b[..|b| - 1];
      assert (a + b)[..|a + b| - 1] == a + init;
      ValueOfConcat(a, init);
      ConcatStep(BigEndianValue(a), Pow256(|b| - 1), BigEndianValue(init));
    }
  }

  lemma DivMod256(q: nat, r: nat)
    requires r < 256
    ensures (256 * q + r) / 256 == q && (256 * q + r) % 256 == r
  {
  }

  lemma SplitStep(high: nat, p: nat, low: nat)
    ensures high * (256 * p) + low == 256 * (high * p) + low
    ensures (high * (256 * p) + low) / 256 == high * p + low / 256
    ensures (high * (256 * p) + low) % 256 == low % 256
  {
    assert high * (256 * p) == 256 * (high * p);
  }

  lemma ConcatStep(a: nat, p: nat, v: nat)
    ensures 256 * (a * p + v) == a * (256 * p) + 256 * v
  {
  }
}
