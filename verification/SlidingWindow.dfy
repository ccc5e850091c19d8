/** Any-window bounds over a log of times, and their equivalent as spacing. */
module SlidingWindow {

  ghost predicate Sorted(ts: seq<int>)
  {
    forall i, j :: 0 <= i < j < |ts| ==> ts[i] <= ts[j]
  }

  /** How many times lie in the half-open interval [lo, hi). */
  function CountIn(ts: seq<int>, lo: int, hi: int): nat
  {
    if ts == [] then 0
    else CountIn(ts[..|ts| - 1], lo, hi) + if lo <= ts[|ts| - 1] < hi then 1 else 0
  }

  function CountFrom(ts: seq<int>, lo: int, width: int): nat
  {
    CountIn(ts, lo, lo + width)
  }

  /** No half-open interval of the width holds more than the limit. */
  ghost predicate Bounded(ts: seq<int>, limit: nat, width: int)
  {
    forall lo :: CountFrom(ts, lo, width) <= limit
  }

  /** Every time is at least `width` after the one `limit` places earlier. */
  ghost predicate Spaced(ts: seq<int>, limit: nat, width: int)
  {
    forall i, j :: 0 <= i < |ts| && j == i + limit < |ts| ==> ts[i] + width <= ts[j]
  }

  /** How many times come before x; in a sorted log they are the first ones. */
  function Before(ts: seq<int>, x: int): (n: nat)
    ensures n <= |ts|
  {
    if ts == [] then 0 else Before(ts[..|ts| - 1], x) + if ts[|ts| - 1] < x then 1 else 0
  }

  lemma {:induction false} CountIsDifference(ts: seq<int>, lo: int, hi: int)
    requires lo <= hi
    ensures CountIn(ts, lo, hi) == Before(ts, hi) - Before(ts, lo)
  {
    if ts != [] { CountIsDifference(ts[..|ts| - 1], lo, hi); }
  }

  lemma {:induction false} BeforeSplits(ts: seq<int>, x: int)
    requires Sorted(ts)
    ensures forall i :: 0 <= i < |ts| ==> (ts[i] < x <==> i < Before(ts, x))
  {
    if ts != [] {
      var init := ts[..|ts| - 1];
      BeforeSplits(init, x);
      if ts[|ts| - 1] < x && |init| > 0 { assert init[|init| - 1] <= ts[|ts| - 1]; }
      forall i | 0 <= i < |ts| ensures ts[i] < x <==> i < Before(ts, x) {
        if i < |init| { assert ts[i] == init[i]; }
      }
    }
  }

  /** A sorted log keeps every half-open interval of a width at or below a limit exactly if it is
      spaced by that width over that many places. */
  lemma SpacedIffBounded(ts: seq<int>, limit: nat, width: int)
    requires Sorted(ts) && width >= 0
    ensures Spaced(ts, limit, width) <==> Bounded(ts, limit, width)
  {
    if Spaced(ts, limit, width) {
      forall lo ensures CountFrom(ts, lo, width) <= limit {
        CountIsDifference(ts, lo, lo + width);
        BeforeSplits(ts, lo);
        BeforeSplits(ts, lo + width);
        var i, n := Before(ts, lo), Before(ts, lo + width);
        if n > limit { assert ts[n - 1 - limit] + width <= ts[n - 1]; }
      }
    }
    if Bounded(ts, limit, width) {
      forall i, j | 0 <= i < |ts| && j == i + limit < |ts| ensures ts[i] + width <= ts[j] {
        CountIsDifference(ts, ts[i], ts[i] + width);
        BeforeSplits(ts, ts[i]);
        BeforeSplits(ts, ts[i] + width);
        assert CountFrom(ts, ts[i], width) <= limit;
        var k := Before(ts, ts[i]);
        assert k <= i;
      }
    }
  }

  lemma AppendSorted(ts: seq<int>, t: int)
    requires Sorted(ts) && (forall i :: 0 <= i < |ts| ==> ts[i] <= t)
    ensures Sorted(ts + [t])
  {
  }

  lemma AppendSpaced(ts: seq<int>, t: int, limit: nat, width: int)
    requires Spaced(ts, limit, width) && limit >= 1
    requires |ts| >= limit ==> ts[|ts| - limit] + width <= t
    ensures Spaced(ts + [t], limit, width)
  {
  }
}
