/** The receiver's sliding replay window: a 64-bit word whose binary digits
    refine the set of accepted nonces. */
module ReplayWindow {
  import opened Prelude

  datatype Replay = Replay(hasNonce: bool, highest: u32, window: u64)

  const NO_NONCES := Replay(false, 0, 0)

  /** Binary digit d: `w & (1 << d) != 0`. */
  predicate Bit(w: nat, d: nat)
  {
    if d == 0 then w % 2 == 1 else Bit(w / 2, d - 1)
  }

  /** `w << k` on 64-bit words: places that leave the word are lost. */
  function ShiftLeft(w: u64, k: nat): u64
  {
    if k == 0 then w else (2 * ShiftLeft(w, k - 1)) % 0x1_0000_0000_0000_0000
  }

  /** `w | (1 << k)`. */
  function SetBit(w: u64, k: nat): u64
    requires k < 64
  {
    if Bit(w, k) then w else SetBitFits(w, k); w + Pow2(k)
  }

  /** The check a frame passes before it is decrypted. */
  predicate Fresh(r: Replay, nonce: u32)
  {
    r.hasNonce && nonce <= r.highest ==>
      var delta := r.highest - nonce;
      !(delta >= 64 || Bit(r.window, delta))
  }

  function Accept(r: Replay, nonce: u32): Replay
    requires Fresh(r, nonce)
  {
    if !r.hasNonce then Replay(true, nonce, 1)
    else if nonce > r.highest then
      var delta := nonce - r.highest;
      Replay(true, nonce, if delta >= 64 then 1 else SetBit(ShiftLeft(r.window, delta), 0))
    else r.(window := SetBit(r.window, r.highest - nonce))
  }

  /** The places marked in a window, counted back from the highest nonce. */
  ghost function Marks(w: u64): set<nat>
  {
    set d: nat | d < 64 && Bit(w, d)
  }

  /** The window is exactly the accepted set, and nothing was accepted twice. */
  ghost predicate Exact(r: Replay, accepted: seq<u32>)
  {
    && (r.hasNonce <==> accepted != [])
    && (r.hasNonce ==> MirrorsSet(r.highest, Marks(r.window), accepted))
    && Distinct(accepted)
  }

  /** `highest` is the maximum, and place d is marked iff `highest - d` was accepted. */
  ghost predicate MirrorsSet(highest: u32, marks: set<nat>, accepted: seq<u32>)
  {
    && highest in accepted
    && (forall n :: n in accepted ==> n <= highest)
    && (forall d :: d in marks ==> d < 64 && d <= highest && highest - d in accepted)
    && (forall n :: n in accepted && n + 64 > highest ==> highest - n in marks)
  }

  ghost predicate Distinct(s: seq<u32>)
  {
    forall i, j :: 0 <= i < j < |s| ==> s[i] != s[j]
  }

  // ---- single bits

  lemma Pow2Of64()
    ensures Pow2(64) == 0x1_0000_0000_0000_0000
  {
    assert Pow2(10) == 0x400;
    assert Pow2(20) == 0x10_0000;
    assert Pow2(30) == 0x4000_0000;
    assert Pow2(40) == 0x100_0000_0000;
    assert Pow2(50) == 0x4_0000_0000_0000;
    assert Pow2(60) == 0x1000_0000_0000_0000;
  }

  /** A number with digit d clear can take it without outgrowing a width above d. */
  lemma {:induction false} ClearBitFits(w: nat, d: nat, width: nat)
    requires d < width && w < Pow2(width) && !Bit(w, d)
    ensures w + Pow2(d) < Pow2(width)
  {
    var top := Pow2(width - 1);
    if d > 0 {
      ClearBitFits(w / 2, d - 1, width - 1);
      assert w <= 2 * (w / 2) + 1 && w / 2 + Pow2(d - 1) <= top - 1;
    }
  }

  lemma SetBitFits(w: u64, k: nat)
    requires k < 64 && !Bit(w, k)
    ensures w + Pow2(k) < 0x1_0000_0000_0000_0000
  {
    Pow2Of64();
    ClearBitFits(w, k, 64);
  }

  lemma {:induction false} AddedBit(w: nat, k: nat, d: nat)
    requires !Bit(w, k)
    ensures Bit(w + Pow2(k), d) <==> d == k || Bit(w, d)
  {
    if k > 0 {
      assert (w + 2 * Pow2(k - 1)) / 2 == w / 2 + Pow2(k - 1);
      if d > 0 { AddedBit(w / 2, k - 1, d - 1); }
    }
  }

  lemma {:induction false} NoDigitAbove(w: nat, m: nat)
    requires w < Pow2(m)
    ensures !Bit(w, m)
  {
    if m > 0 { NoDigitAbove(w / 2, m - 1); }
  }

  /** Doubling in a 64-bit word moves every digit one place up and loses the top one. */
  lemma DoubledBits(v: u64, d: nat)
    requires d < 64
    ensures Bit((2 * v as nat) % 0x1_0000_0000_0000_0000, d) <==> d > 0 && Bit(v, d - 1)
  {
    Pow2Of64();
    var low: nat := if v >= Pow2(63) then v - Pow2(63) else v;
    assert (2 * v as nat) % 0x1_0000_0000_0000_0000 == 2 * low;
    if d > 0 && v >= Pow2(63) {
      NoDigitAbove(low, 63);
      AddedBit(low, 63, d - 1);
    }
  }

  lemma {:induction false} ShiftedBits(w: u64, k: nat, d: nat)
    requires d < 64
    ensures Bit(ShiftLeft(w, k), d) <==> d >= k && Bit(w, d - k)
  {
    if k > 0 {
      DoubledBits(ShiftLeft(w, k - 1), d);
      if d > 0 { ShiftedBits(w, k - 1, d - 1); }
    }
  }

  // ---- whole windows

  lemma MarksOfOne()
    ensures Marks(1) == {0}
  {
    forall d: nat | d < 64 ensures Bit(1, d) <==> d == 0 { if d > 0 { NoBits(d - 1); } }
  }

  lemma {:induction false} NoBits(d: nat)
    ensures !Bit(0, d)
  {
    if d > 0 { NoBits(d - 1); }
  }

  lemma MarksOfSet(w: u64, k: nat)
    requires k < 64
    ensures Marks(SetBit(w, k)) == Marks(w) + {k}
  {
    if !Bit(w, k) {
      forall d: nat | d < 64 ensures Bit(SetBit(w, k), d) <==> d == k || Bit(w, d) {
        AddedBit(w, k, d);
      }
    }
  }

  /** Marks moved up by delta; those that reach 64 are lost. */
  ghost function Moved(marks: set<nat>, delta: nat): set<nat>
  {
    set d: nat | d < 64 && MovedFrom(marks, delta, d)
  }

  ghost predicate MovedFrom(marks: set<nat>, delta: nat, d: nat)
  {
    d >= delta && d - delta in marks
  }

  lemma MarksOfShift(w: u64, delta: nat)
    ensures Marks(ShiftLeft(w, delta)) == Moved(Marks(w), delta)
  {
    forall d: nat | d < 64 ensures Bit(ShiftLeft(w, delta), d) <==> d >= delta && Bit(w, d - delta) {
      ShiftedBits(w, delta, d);
    }
  }

  // ---- the accepted set

  lemma MirrorFirst(nonce: u32)
    ensures MirrorsSet(nonce, {0}, [nonce])
  {
  }

  lemma MirrorJump(highest: u32, marks: set<nat>, accepted: seq<u32>, nonce: u32)
    requires MirrorsSet(highest, marks, accepted) && nonce >= highest + 64
    ensures MirrorsSet(nonce, {0}, accepted + [nonce])
  {
    forall n | n in accepted + [nonce] ensures n <= nonce && (n + 64 > nonce ==> n == nonce) {
      assert n in accepted || n == nonce;
    }
  }

  lemma MirrorShift(highest: u32, marks: set<nat>, accepted: seq<u32>, nonce: u32)
    requires MirrorsSet(highest, marks, accepted) && highest < nonce < highest + 64
    ensures var delta := nonce - highest;
            MirrorsSet(nonce, Moved(marks, delta) + {0}, accepted + [nonce])
  {
    var delta := nonce - highest;
    var next := Moved(marks, delta) + {0};
    forall n | n in accepted + [nonce] ensures n <= nonce && (n + 64 > nonce ==> nonce - n in next) {
      if n in accepted {
        if n + 64 > nonce { assert highest - n in marks; }
      }
    }
    forall d | d in next ensures d < 64 && d <= nonce && nonce - d in accepted + [nonce] {
      if d != 0 { assert d - delta in marks && highest - (d - delta) in accepted; }
    }
  }

  lemma MirrorFill(highest: u32, marks: set<nat>, accepted: seq<u32>, nonce: u32)
    requires MirrorsSet(highest, marks, accepted) && nonce <= highest < nonce + 64
    ensures MirrorsSet(highest, marks + {highest - nonce}, accepted + [nonce])
  {
    forall n | n in accepted + [nonce]
      ensures n <= highest && (n + 64 > highest ==> highest - n in marks + {highest - nonce})
    {
      assert n in accepted || n == nonce;
    }
  }

  /** A nonce passes the check exactly when it was not accepted before and is not older than
      the window. */
  lemma FreshExactly(r: Replay, accepted: seq<u32>, nonce: u32)
    requires Exact(r, accepted)
    ensures Fresh(r, nonce) <==> nonce !in accepted && (r.hasNonce ==> nonce + 64 > r.highest)
  {
    if r.hasNonce && nonce <= r.highest && r.highest - nonce < 64 {
      var delta := r.highest - nonce;
      assert delta in Marks(r.window) <==> Bit(r.window, delta);
      MirrorAt(r.highest, Marks(r.window), accepted, nonce);
    }
  }

  lemma MirrorAt(highest: u32, marks: set<nat>, accepted: seq<u32>, nonce: u32)
    requires MirrorsSet(highest, marks, accepted) && nonce <= highest < nonce + 64
    ensures highest - nonce in marks <==> nonce in accepted
  {
    if highest - nonce in marks { assert highest - (highest - nonce) in accepted; }
  }

  /** Accepting a fresh nonce keeps the window exact. */
  lemma AcceptKeepsExact(r: Replay, accepted: seq<u32>, nonce: u32)
    requires Exact(r, accepted) && Fresh(r, nonce)
    ensures Exact(Accept(r, nonce), accepted + [nonce])
  {
    FreshExactly(r, accepted, nonce);
    if !r.hasNonce {
      MarksOfOne();
      MirrorFirst(nonce);
      assert accepted + [nonce] == [nonce];
    } else if nonce >= r.highest + 64 {
      MarksOfOne();
      MirrorJump(r.highest, Marks(r.window), accepted, nonce);
    } else if nonce > r.highest {
      MarksOfShift(r.window, nonce - r.highest);
      MarksOfSet(ShiftLeft(r.window, nonce - r.highest), 0);
      MirrorShift(r.highest, Marks(r.window), accepted, nonce);
    } else {
      MarksOfSet(r.window, r.highest - nonce);
      MirrorFill(r.highest, Marks(r.window), accepted, nonce);
    }
  }

  // ---- runs

  /** A frame as the window sees it: its nonce, and whether the rest of its processing succeeds. */
  datatype Attempt = Attempt(nonce: u32, opens: bool)

  predicate Admits(r: Replay, a: Attempt)
  {
    Fresh(r, a.nonce) && a.opens
  }

  function WindowAfter(attempts: seq<Attempt>): Replay
  {
    if attempts == [] then NO_NONCES
    else
      var r, a := WindowAfter(attempts[..|attempts| - 1]), attempts[|attempts| - 1];
      if Admits(r, a) then Accept(r, a.nonce) else r
  }

  ghost function Accepted(attempts: seq<Attempt>): seq<u32>
  {
    if attempts == [] then []
    else
      var before, a := attempts[..|attempts| - 1], attempts[|attempts| - 1];
      if Admits(WindowAfter(before), a) then Accepted(before) + [a.nonce] else Accepted(before)
  }

  /** Over every sequence of frames the window is exactly the accepted set and no nonce is
      accepted twice. */
  lemma {:induction false} WindowIsExactOverRuns(attempts: seq<Attempt>)
    ensures Exact(WindowAfter(attempts), Accepted(attempts))
  {
    if attempts != [] {
      var before, a := attempts[..|attempts| - 1], attempts[|attempts| - 1];
      WindowIsExactOverRuns(before);
      if Admits(WindowAfter(before), a) {
        AcceptKeepsExact(WindowAfter(before), Accepted(before), a.nonce);
      }
    }
  }
}
