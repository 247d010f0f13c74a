/** How many draws select what. `n` is the number of equally likely draws; the engine's is 2^64. */
module Distribution {
  import opened Text
  import opened Numbers
  import opened Choice
  import opened Ranges

  /** How many numbers below `n` have the property. */
  ghost function Count(n: nat, p: nat -> bool): nat {
    if n == 0 then 0 else Count(n - 1, p) + if p(n - 1) then 1 else 0
  }

  ghost function Floor(n: nat, m: nat): nat
    requires m > 0
  {
    n / m
  }

  ghost function Ceiling(n: nat, m: nat): nat
    requires m > 0
  {
    if n % m == 0 then n / m else n / m + 1
  }

  lemma {:induction false} CountAgrees(n: nat, p: nat -> bool, q: nat -> bool)
    requires forall d: nat | d < n :: p(d) == q(d)
    ensures Count(n, p) == Count(n, q)
  {
    if n > 0 { CountAgrees(n - 1, p, q); }
  }

  /** rounds * width, by repeated addition. */
  ghost function Shares(rounds: nat, width: nat): nat {
    if rounds == 0 then 0 else Shares(rounds - 1, width) + width
  }

  lemma {:induction false} SharesIsProduct(rounds: nat, width: nat)
    ensures Shares(rounds, width) == rounds * width == width * rounds
  {
    if rounds > 0 {
      SharesIsProduct(rounds - 1, width);
      assert rounds * width == (rounds - 1) * width + width;
    }
  }

  lemma QuotientRemainder(n: nat, m: nat, q: nat, r: nat)
    requires r < m && n == Shares(q, m) + r
    ensures n / m == q && n % m == r
  {
    SharesIsProduct(q, m);
    DivModUnique(n, m, q, r);
  }

  /** Draws whose residue modulo `m` lies in [a, b), when there are q full rounds and r more draws. */
  lemma {:induction false} CountRounds(n: nat, m: nat, q: nat, r: nat, a: nat, b: nat)
    requires a <= b <= m && r < m && n == Shares(q, m) + r
    ensures Count(n, (d: nat) => a <= d % m < b) == Shares(q, b - a) + Covered(r, a, b)
    decreases n
  {
    if n > 0 {
      var q', r' := if r > 0 then q else q - 1, if r > 0 then r - 1 else m - 1;
      CountRounds(n - 1, m, q', r', a, b);
      QuotientRemainder(n - 1, m, q', r');
      CoveredStep(r', m, a, b);
    } else {
      CoveredStep(0, m, a, b);
    }
  }

  lemma CountResidues(n: nat, m: nat, a: nat, b: nat)
    requires a <= b <= m && m > 0
    ensures Count(n, (d: nat) => a <= d % m < b) == Shares(n / m, b - a) + Covered(n % m, a, b)
  {
    SharesIsProduct(n / m, m);
    CountRounds(n, m, n / m, n % m, a, b);
  }

  /** How much of [a, b) lies below `r`. */
  ghost function Covered(r: nat, a: nat, b: nat): nat
    requires a <= b
  {
    if r <= a then 0 else if r <= b then r - a else b - a
  }

  lemma CoveredStep(r: nat, m: nat, a: nat, b: nat)
    requires a <= b <= m && r < m
    ensures Covered(r, a, b) + (if a <= r < b then 1 else 0) == if r == m - 1 then b - a else Covered(r + 1, a, b)
    ensures Covered(0, a, b) == 0
  {
  }

  lemma ResidueBounds(n: nat, m: nat, a: nat, b: nat)
    requires a <= b <= m && m > 0
    ensures (b - a) * Floor(n, m) <= Count(n, (d: nat) => a <= d % m < b) <= (b - a) * Ceiling(n, m)
  {
    hide Count;
    CountResidues(n, m, a, b);
    ShareBounds(n / m, n % m, m, a, b);
  }

  lemma ShareBounds(q: nat, r: nat, m: nat, a: nat, b: nat)
    requires a <= b <= m && r < m
    ensures (b - a) * q <= Shares(q, b - a) + Covered(r, a, b) <= (b - a) * if r == 0 then q else q + 1
  {
    SharesIsProduct(q, b - a);
    SharesIsProduct(q + 1, b - a);
  }

  /** Exactly weight-many residues select alternative `k`. */
  lemma ResiduesPerAlternative(ws: seq<nat>, k: nat)
    requires Fits(ws) && k < |ws|
    ensures Count(Sum(ws), (w: nat) => Pick(ws, w, 0) == k) == ws[k]
  {
    var total := Sum(ws);
    var a, b := Sum(ws[..k]), Sum(ws[..k + 1]);
    SumStep(ws, k);
    PrefixMonotone(ws, k + 1, |ws|);
    assert ws[..|ws|] == ws;
    DivModUnique(total, total, 1, 0);
    CountResidues(total, total, a, b);
    forall w: nat | w < total
      ensures (Pick(ws, w, 0) == k) == (a <= w % total < b)
    {
      PickIsExact(ws, w, k);
      DivModUnique(w, total, 0, w);
    }
    CountAgrees(total, (w: nat) => Pick(ws, w, 0) == k, (d: nat) => a <= d % total < b);
  }

  /** Of `n` draws, alternative `k` is selected by its weight's share, rounded down or up per unit of weight. */
  lemma DrawsPerAlternative(l: string, n: nat, k: nat)
    requires ChoiceDefined(l) && Fits(Weights(Tokens(l, ","))) && NeedsDraw(l) && k < |Tokens(l, ",")|
    ensures var weights := Weights(Tokens(l, ","));
            weights[k] * Floor(n, Sum(weights)) <= Count(n, (d: nat) => ChosenIndex(l, d) == k)
              <= weights[k] * Ceiling(n, Sum(weights))
  {
    hide Weights, Tokens, Pick, Count, Fits;
    var ws := Weights(Tokens(l, ","));
    FitsMeansBelow(ws);
    var total := Sum(ws);
    var a, b := Sum(ws[..k]), Sum(ws[..k + 1]);
    SumStep(ws, k);
    PrefixMonotone(ws, k + 1, |ws|);
    assert ws[..|ws|] == ws;
    ResidueBounds(n, total, a, b);
    forall d: nat | d < n
      ensures (ChosenIndex(l, d) == k) == (a <= d % total < b)
    {
      SelectedIsExact(ws, d, k);
    }
    CountAgrees(n, (d: nat) => ChosenIndex(l, d) == k, (d: nat) => a <= d % total < b);
  }

  /** Of `n` draws, each value of a range is produced by its equal share, rounded down or up. */
  lemma DrawsPerValue(lo: nat, hi: nat, v: nat, n: nat)
    requires lo < TWO64 && hi < TWO64 && v < TWO64 && RangeSize(lo, hi) != 0 && InCircle(lo, hi, v)
    ensures Floor(n, RangeSize(lo, hi)) <= Count(n, (d: nat) => RangeValue(lo, hi, d) == v)
              <= Ceiling(n, RangeSize(lo, hi))
  {
    var m := RangeSize(lo, hi);
    var r := (v - lo) % TWO64;
    RangeSizeIsDistance(lo, hi);
    ResidueBounds(n, m, r, r + 1);
    forall d: nat | d < n
      ensures (RangeValue(lo, hi, d) == v) == (r <= d % m < r + 1)
    {
      RangeValueInverts(lo, hi, d, v);
    }
    CountAgrees(n, (d: nat) => RangeValue(lo, hi, d) == v, (d: nat) => r <= d % m < r + 1);
  }

  /** The guarded full range takes the draw as it is: each value comes from one draw. */
  lemma {:induction false} DrawsPerWord(v: nat, n: nat)
    requires v < TWO64
    ensures Count(n, (d: nat) => RangeValue(0, TWO64 - 1, d) == v) == if v < n then 1 else 0
  {
    if n > 0 {
      DrawsPerWord(v, n - 1);
    }
  }
}
