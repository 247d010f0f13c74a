/** Values of a range `lo~hi`, computed in wrapping 64-bit arithmetic. */
module Ranges {
  import opened Numbers
  import opened Choice

  /** r - l + 1 */
  function RangeSize(lo: nat, hi: nat): (n: nat)
    ensures n < TWO64
  {
    (hi - lo + 1) % TWO64
  }

  /** The one full range is guarded; any other range of size 0 would divide by it. */
  predicate RangeDefined(lo: nat, hi: nat) {
    (lo == 0 && hi == TWO64 - 1) || RangeSize(lo, hi) != 0
  }

  function RangeValue(lo: nat, hi: nat, draw: nat): (v: nat)
    requires RangeDefined(lo, hi)
    ensures draw < TWO64 ==> v < TWO64
  {
    if lo == 0 && hi == TWO64 - 1 then draw else (lo + draw % RangeSize(lo, hi)) % TWO64
  }

  /** Is `v` met on the way from `lo` up to `hi`, passing from 2^64-1 to 0 if need be? */
  predicate InCircle(lo: nat, hi: nat, v: nat) {
    (v - lo) % TWO64 <= (hi - lo) % TWO64
  }

  function Signed(v: nat): int {
    if v < TWO63 then v else v - TWO64
  }

  /** A residue is pinned down by a multiple of 2^64. */
  lemma ModIs(x: int, r: nat, turns: int)
    requires r < TWO64 && x == r + turns * TWO64
    ensures x % TWO64 == r
  {
  }

  lemma CircleDistance(lo: nat, hi: nat)
    requires lo < TWO64 && hi < TWO64
    ensures (hi - lo) % TWO64 == if lo <= hi then hi - lo else hi - lo + TWO64
  {
    if lo <= hi { ModIs(hi - lo, hi - lo, 0); } else { ModIs(hi - lo, hi - lo + TWO64, -1); }
  }

  lemma RangeSizeIsDistance(lo: nat, hi: nat)
    requires lo < TWO64 && hi < TWO64
    ensures RangeSize(lo, hi) == 0 <==> (hi - lo) % TWO64 == TWO64 - 1
    ensures RangeSize(lo, hi) != 0 ==> RangeSize(lo, hi) == (hi - lo) % TWO64 + 1
  {
    CircleDistance(lo, hi);
    var d := (hi - lo) % TWO64;
    if d == TWO64 - 1 {
      ModIs(hi - lo + 1, 0, if lo <= hi then 1 else 0);
    } else {
      ModIs(hi - lo + 1, d + 1, if lo <= hi then 0 else -1);
    }
  }

  lemma SumMod(lo: nat, offset: nat)
    requires lo < TWO64 && offset < TWO64
    ensures (lo + offset) % TWO64 == if lo + offset < TWO64 then lo + offset else lo + offset - TWO64
  {
    if lo + offset < TWO64 { ModIs(lo + offset, lo + offset, 0); } else { ModIs(lo + offset, lo + offset - TWO64, 1); }
  }

  /** A value is the result of a draw exactly if its distance from `lo` is the residue of the draw. */
  lemma RangeValueInverts(lo: nat, hi: nat, draw: nat, v: nat)
    requires lo < TWO64 && hi < TWO64 && v < TWO64 && RangeSize(lo, hi) != 0
    ensures RangeValue(lo, hi, draw) == v <==> draw % RangeSize(lo, hi) == (v - lo) % TWO64
  {
    var offset := draw % RangeSize(lo, hi);
    RangeSizeIsDistance(lo, hi);
    CircleDistance(lo, hi);
    SumMod(lo, offset);
    CircleDistance(lo, v);
  }

  lemma RangeValueIsInCircle(lo: nat, hi: nat, draw: nat)
    requires lo < TWO64 && hi < TWO64 && draw < TWO64 && RangeDefined(lo, hi)
    ensures InCircle(lo, hi, RangeValue(lo, hi, draw))
  {
    var v := RangeValue(lo, hi, draw);
    if RangeSize(lo, hi) != 0 {
      RangeSizeIsDistance(lo, hi);
      RangeValueInverts(lo, hi, draw, v);
    } else {
      CircleDistance(lo, hi);
      CircleDistance(lo, v);
    }
  }

  /** A draw that yields the value `v`. */
  function DrawFor(lo: nat, v: nat): (draw: nat)
    ensures draw < TWO64
  {
    (v - lo) % TWO64
  }

  lemma DrawForYields(lo: nat, hi: nat, v: nat)
    requires lo < TWO64 && hi < TWO64 && v < TWO64 && RangeDefined(lo, hi) && InCircle(lo, hi, v)
    ensures RangeValue(lo, hi, DrawFor(lo, v)) == v
  {
    if RangeSize(lo, hi) != 0 {
      RangeSizeIsDistance(lo, hi);
      SmallModulo(DrawFor(lo, v), RangeSize(lo, hi));
      RangeValueInverts(lo, hi, DrawFor(lo, v), v);
    } else {
      CircleDistance(lo, v);
    }
  }

  /** Every value drawn from a range lies in its circular interval, and every value of the interval is drawn. */
  lemma RangeIsItsCircle(lo: nat, hi: nat, v: nat)
    requires lo < TWO64 && hi < TWO64 && v < TWO64 && RangeDefined(lo, hi)
    ensures InCircle(lo, hi, v) <==> exists draw: nat :: draw < TWO64 && RangeValue(lo, hi, draw) == v
  {
    if InCircle(lo, hi, v) {
      DrawForYields(lo, hi, v);
    }
    forall draw: nat | draw < TWO64 && RangeValue(lo, hi, draw) == v
      ensures InCircle(lo, hi, v)
    {
      RangeValueIsInCircle(lo, hi, draw);
    }
  }

  /** For ordered endpoints the guard is exactly the case where the size wraps to 0, and nothing overflows. */
  lemma OrderedRange(lo: nat, hi: nat, draw: nat)
    requires lo <= hi < TWO64 && draw < TWO64
    ensures RangeSize(lo, hi) == 0 <==> lo == 0 && hi == TWO64 - 1
    ensures RangeDefined(lo, hi) && lo <= RangeValue(lo, hi, draw) <= hi
    ensures RangeSize(lo, hi) != 0 ==> RangeValue(lo, hi, draw) == lo + draw % (hi - lo + 1)
  {
    CircleDistance(lo, hi);
    RangeSizeIsDistance(lo, hi);
    if RangeSize(lo, hi) != 0 {
      SumMod(lo, draw % RangeSize(lo, hi));
    }
  }

  /** Signed bounds are kept too: -2~3 gives values from -2 to 3. */
  lemma SignedRange(lo: nat, hi: nat, draw: nat)
    requires lo < TWO64 && hi < TWO64 && draw < TWO64 && Signed(lo) <= Signed(hi)
    ensures RangeSize(lo, hi) == 0 <==> lo == TWO63 && hi == TWO63 - 1
    ensures RangeDefined(lo, hi) ==> Signed(lo) <= Signed(RangeValue(lo, hi, draw)) <= Signed(hi)
  {
    CircleDistance(lo, hi);
    RangeSizeIsDistance(lo, hi);
    if RangeSize(lo, hi) != 0 {
      SumMod(lo, draw % RangeSize(lo, hi));
    }
  }
}
