/** `quantile_ms` of scripts/proxydata.py: a quantile from a histogram, by straight lines inside the buckets. */
module Quantile {
  import opened Names

  function Min(a: real, b: real): real {
    if a <= b then a else b
  }

  function Max(a: real, b: real): real {
    if a >= b then a else b
  }

  function Cum(buckets: seq<nat>, i: nat): nat
    requires i <= |buckets|
  {
    if i == 0 then 0 else Cum(buckets, i - 1) + buckets[i - 1]
  }

  function Lo(bounds: seq<real>, i: nat): real
    requires i <= |bounds|
  {
    if i == 0 then 0.0 else bounds[i - 1]
  }

  function Hi(bounds: seq<real>, i: nat, top: real): real
    requires i <= |bounds|
  {
    if i < |bounds| then bounds[i] else Max(top, Lo(bounds, i))
  }

  function Rank(q: real, count: nat): real {
    Max(1.0, Min(Max(q, 0.0), 1.0) * (count as real))
  }

  /** The rank of the copy in scripts/snapshot-summary.py, which does not clamp `q`. */
  function PlainRank(q: real, count: nat): real {
    Max(1.0, q * (count as real))
  }

  /** The straight line through a bucket of `n` samples, `seen` of them before it. */
  function Line(lo: real, hi: real, rank: real, seen: nat, n: nat): real
    requires n > 0
  {
    lo + (hi - lo) * ((rank - seen as real) / (n as real))
  }

  /** What bucket `i` gives for a rank, when `seen` samples lie before it. */
  function Value(buckets: seq<nat>, bounds: seq<real>, top: real, rank: real, i: nat, seen: nat): real
    requires i < |buckets| <= |bounds| + 1
  {
    if buckets[i] == 0 then top
    else
      Min(Line(Lo(bounds, i), Hi(bounds, i, top), rank, seen, buckets[i]), top)
  }

  /** The scan for the bucket that a rank falls into. */
  function Scan(buckets: seq<nat>, bounds: seq<real>, top: real, rank: real, i: nat): real
    requires i <= |buckets| <= |bounds| + 1
    decreases |buckets| - i
  {
    if i == |buckets| then top
    else if buckets[i] > 0 && (Cum(buckets, i) + buckets[i]) as real >= rank then
      Value(buckets, bounds, top, rank, i, Cum(buckets, i))
    else Scan(buckets, bounds, top, rank, i + 1)
  }

  function Quantile(buckets: seq<nat>, count: nat, top: real, q: real, bounds: seq<real>): Option<real>
    requires |buckets| <= |bounds| + 1
  {
    if count == 0 || buckets == [] then None else Some(Scan(buckets, bounds, top, Rank(q, count), 0))
  }

  /** `quantile_ms`: the loop over the buckets. */
  method QuantileMs(buckets: seq<nat>, count: nat, top: real, q: real, bounds: seq<real>) returns (r: Option<real>)
    requires |buckets| <= |bounds| + 1
    ensures r == Quantile(buckets, count, top, q, bounds)
    ensures r.None? <==> count == 0 || buckets == []
    ensures r.Some? ==> forall rank, i :: IsRank(rank, q, count) && Lands(buckets, rank, i) ==>
              || (r.value <= top && OnLine(buckets, bounds, top, rank, i, r.value))
              || (r.value == top && forall x :: OnLine(buckets, bounds, top, rank, i, x) ==> top <= x)
    ensures r.Some? ==> forall rank :: IsRank(rank, q, count) && (Cum(buckets, |buckets|) as real) < rank ==>
              r.value == top
  {
    hide Line, OnLine;
    QuantileInterpolates(buckets, count, top, q, bounds);
    if count == 0 || buckets == [] {
      return None;
    }
    var rank := Rank(q, count);
    var seen := 0;
    for i := 0 to |buckets|
      invariant seen == Cum(buckets, i)
      invariant Scan(buckets, bounds, top, rank, i) == Scan(buckets, bounds, top, rank, 0)
    {
      var n := buckets[i];
      if n == 0 {
        continue;
      }
      if (seen + n) as real >= rank {
        var lo := if i == 0 then 0.0 else bounds[i - 1];
        var hi := if i < |bounds| then bounds[i] else Max(top, lo);
        return Some(Min(Line(lo, hi, rank, seen, n), top));
      }
      seen := seen + n;
    }
    return Some(top);
  }

  // ---- where a rank falls

  /** The rank is one of those that bucket `i` holds. */
  ghost predicate Lands(buckets: seq<nat>, rank: real, i: nat) {
    i < |buckets| && (Cum(buckets, i) as real) < rank <= (Cum(buckets, i + 1) as real)
  }

  /** `q` of the count, `q` being held between 0 and 1, and at least 1. */
  ghost predicate IsRank(rank: real, q: real, count: nat) {
    && 1.0 <= rank
    && (q <= 0.0 ==> rank == 1.0)
    && (0.0 < q < 1.0 ==> rank == q * (count as real) || (rank == 1.0 && q * (count as real) < 1.0))
    && (1.0 <= q ==> rank == (count as real) || (rank == 1.0 && count == 0))
  }

  /** `x` divides bucket `i` as the rank divides its samples; a bucket without an upper bound ends at the maximum. */
  ghost predicate OnLine(buckets: seq<nat>, bounds: seq<real>, top: real, rank: real, i: nat, x: real)
    requires i < |buckets| <= |bounds| + 1
  {
    var lo := if i == 0 then 0.0 else bounds[i - 1];
    var hi := if i < |bounds| then bounds[i] else if top >= lo then top else lo;
    (x - lo) * (buckets[i] as real) == (hi - lo) * (rank - (Cum(buckets, i) as real))
  }

  lemma RankIs(rank: real, q: real, count: nat)
    requires IsRank(rank, q, count)
    ensures rank == Rank(q, count)
  {
  }

  lemma LineIs(lo: real, hi: real, rank: real, seen: nat, n: nat, x: real)
    requires n > 0
    ensures (x - lo) * (n as real) == (hi - lo) * (rank - seen as real) <==> x == Line(lo, hi, rank, seen, n)
  {
    var f := (rank - seen as real) / (n as real);
    assert f * (n as real) == rank - seen as real;
    var y := Line(lo, hi, rank, seen, n);
    assert (y - lo) * (n as real) == (hi - lo) * f * (n as real) == (hi - lo) * (f * (n as real));
    if (x - lo) * (n as real) == (y - lo) * (n as real) {
      SameQuotient(x - lo, y - lo, n as real);
    }
  }

  lemma SameQuotient(x: real, y: real, d: real)
    requires d > 0.0 && x * d == y * d
    ensures x == y
  {
    assert x == (x * d) / d && y == (y * d) / d;
  }

  /** The quantile is the point of the bucket that divides it as the rank divides its samples, up to the maximum. */
  lemma QuantileInterpolates(buckets: seq<nat>, count: nat, top: real, q: real, bounds: seq<real>)
    requires |buckets| <= |bounds| + 1
    ensures var r := Quantile(buckets, count, top, q, bounds);
      r.Some? ==>
        && (forall rank, i :: IsRank(rank, q, count) && Lands(buckets, rank, i) ==>
              || (r.value <= top && OnLine(buckets, bounds, top, rank, i, r.value))
              || (r.value == top && forall x :: OnLine(buckets, bounds, top, rank, i, x) ==> top <= x))
        && (forall rank :: IsRank(rank, q, count) && (Cum(buckets, |buckets|) as real) < rank ==> r.value == top)
  {
    hide Line, Rank;
    var r := Quantile(buckets, count, top, q, bounds);
    forall rank, i | r.Some? && IsRank(rank, q, count) && Lands(buckets, rank, i)
      ensures (r.value <= top && OnLine(buckets, bounds, top, rank, i, r.value))
           || (r.value == top && forall x :: OnLine(buckets, bounds, top, rank, i, x) ==> top <= x)
    {
      RankIs(rank, q, count);
      BucketInterpolates(buckets, bounds, top, rank, i);
    }
    forall rank | r.Some? && IsRank(rank, q, count) && (Cum(buckets, |buckets|) as real) < rank
      ensures r.value == top
    {
      RankIs(rank, q, count);
      BeyondAll(buckets, bounds, top, rank, 0);
    }
  }

  lemma LandsOnce(buckets: seq<nat>, rank: real, i: nat, j: nat)
    requires Lands(buckets, rank, i) && Lands(buckets, rank, j)
    ensures i == j
  {
    hide Cum;
    if i < j {
      CumGrows(buckets, i + 1, j);
    } else if j < i {
      CumGrows(buckets, j + 1, i);
    }
  }

  lemma LineAlone(buckets: seq<nat>, bounds: seq<real>, top: real, rank: real, i: nat, x: real)
    requires i < |buckets| <= |bounds| + 1 && buckets[i] > 0
    ensures OnLine(buckets, bounds, top, rank, i, x) <==>
            x == Line(Lo(bounds, i), Hi(bounds, i, top), rank, Cum(buckets, i), buckets[i])
  {
    hide Line, Cum;
    LineIs(Lo(bounds, i), Hi(bounds, i, top), rank, Cum(buckets, i), buckets[i], x);
  }

  lemma BucketInterpolates(buckets: seq<nat>, bounds: seq<real>, top: real, rank: real, i: nat)
    requires |buckets| <= |bounds| + 1 && Lands(buckets, rank, i)
    ensures var v := Scan(buckets, bounds, top, rank, 0);
      || (v <= top && OnLine(buckets, bounds, top, rank, i, v))
      || (v == top && forall x :: OnLine(buckets, bounds, top, rank, i, x) ==> top <= x)
  {
    hide Line, OnLine, Scan, Lo, Hi;
    CumGrows(buckets, 0, i);
    CumGrows(buckets, i + 1, |buckets|);
    var j := ScanLands(buckets, bounds, top, rank, 0);
    LandsOnce(buckets, rank, i, j);
    var y := Line(Lo(bounds, i), Hi(bounds, i, top), rank, Cum(buckets, i), buckets[i]);
    forall x ensures OnLine(buckets, bounds, top, rank, i, x) <==> x == y {
      LineAlone(buckets, bounds, top, rank, i, x);
    }
  }

  lemma {:induction false} ScanLands(buckets: seq<nat>, bounds: seq<real>, top: real, rank: real, i: nat)
    returns (j: nat)
    requires i <= |buckets| <= |bounds| + 1
    requires (Cum(buckets, i) as real) < rank <= (Cum(buckets, |buckets|) as real)
    ensures i <= j && Lands(buckets, rank, j)
    ensures Scan(buckets, bounds, top, rank, i) == Value(buckets, bounds, top, rank, j, Cum(buckets, j))
    decreases |buckets| - i
  {
    if (Cum(buckets, i + 1) as real) >= rank {
      j := i;
    } else {
      j := ScanLands(buckets, bounds, top, rank, i + 1);
    }
  }

  lemma {:induction false} CumGrows(buckets: seq<nat>, i: nat, j: nat)
    requires i <= j <= |buckets|
    ensures Cum(buckets, i) <= Cum(buckets, j)
  {
    if i < j {
      CumGrows(buckets, i, j - 1);
    }
  }

  ghost predicate Bounds(bounds: seq<real>) {
    && (forall i :: 0 <= i < |bounds| ==> 0.0 <= bounds[i])
    && (forall i, j :: 0 <= i < j < |bounds| ==> bounds[i] <= bounds[j])
  }

  lemma RankWithin(q: real, count: nat)
    requires count > 0
    ensures 1.0 <= Rank(q, count) <= count as real
  {
    var c, x := count as real, Min(Max(q, 0.0), 1.0);
    NonNegative(1.0 - x, c);
    assert (1.0 - x) * c == c - x * c;
  }

  lemma Share(rank: real, seen: real, n: real)
    requires n > 0.0 && seen < rank <= seen + n
    ensures 0.0 < (rank - seen) / n <= 1.0
  {
  }

  lemma NonNegative(x: real, y: real)
    requires 0.0 <= x && 0.0 <= y
    ensures 0.0 <= x * y
  {
  }

  lemma Between(lo: real, hi: real, f: real)
    requires lo <= hi && 0.0 <= f <= 1.0
    ensures lo <= lo + (hi - lo) * f <= hi
  {
    NonNegative(hi - lo, f);
    NonNegative(hi - lo, 1.0 - f);
    var p := (hi - lo) * f;
    assert (hi - lo) * (1.0 - f) == (hi - lo) - p;
  }

  lemma ValueWithin(buckets: seq<nat>, bounds: seq<real>, top: real, rank: real, i: nat)
    requires |buckets| <= |bounds| + 1 && Bounds(bounds) && Lands(buckets, rank, i)
    ensures var v := Value(buckets, bounds, top, rank, i, Cum(buckets, i));
      && Lo(bounds, i) <= Hi(bounds, i, top)
      && Min(Lo(bounds, i), top) <= v <= Min(Hi(bounds, i, top), top)
  {
    hide Line;
    LineWithin(Lo(bounds, i), Hi(bounds, i, top), rank, Cum(buckets, i), buckets[i]);
  }

  lemma LineWithin(lo: real, hi: real, rank: real, seen: nat, n: nat)
    requires lo <= hi && (seen as real) < rank <= (seen + n) as real
    ensures n > 0 && lo <= Line(lo, hi, rank, seen, n) <= hi
  {
    Share(rank, seen as real, n as real);
    Between(lo, hi, (rank - seen as real) / (n as real));
  }

  // ---- against the samples

  /** The samples, in ascending order, are the ones the histogram was made of. */
  ghost predicate MadeOf(buckets: seq<nat>, bounds: seq<real>, top: real, samples: seq<real>) {
    && |buckets| <= |bounds| + 1
    && |samples| == Cum(buckets, |buckets|)
    && (forall i, j :: 0 <= i < |buckets| && Cum(buckets, i) <= j < Cum(buckets, i + 1) && j < |samples| ==>
          Lo(bounds, i) <= samples[j] <= Hi(bounds, i, top))
    && (forall j :: 0 <= j < |samples| ==> samples[j] <= top)
  }

  /** `ceil` of a rank. */
  function CeilRank(rank: real): int {
    -((-rank).Floor)
  }

  /**
   * The quantile is bracketed: it lies in the same bucket as the sample of rank `ceil(rank)`, and neither exceeds the
   * largest value seen.
   */
  lemma QuantileIsBracketed(buckets: seq<nat>, count: nat, top: real, q: real, bounds: seq<real>, samples: seq<real>)
    requires Bounds(bounds) && MadeOf(buckets, bounds, top, samples) && count == |samples| > 0
    ensures var r := Quantile(buckets, count, top, q, bounds); var m := CeilRank(Rank(q, count)) - 1;
      && r.Some? && r.value <= top && 0 <= m < |samples|
      && exists i :: Lands(buckets, Rank(q, count), i)
                     && Lo(bounds, i) <= r.value <= Hi(bounds, i, top)
                     && Lo(bounds, i) <= samples[m] <= Hi(bounds, i, top)
  {
    var rank := Rank(q, count);
    RankWithin(q, count);
    assert Cum([], 0) == 0;
    var i := ScanLands(buckets, bounds, top, rank, 0);
    ValueWithin(buckets, bounds, top, rank, i);
    var m := CeilRank(rank) - 1;
    assert Cum(buckets, i) <= m < Cum(buckets, i + 1);
    CumGrows(buckets, i + 1, |buckets|);
    assert Lo(bounds, i) <= samples[m] <= top;
  }

  // ---- monotone in q

  lemma BoundsBetween(bounds: seq<real>, i: nat, j: nat, top: real)
    requires Bounds(bounds) && i < j <= |bounds|
    ensures Hi(bounds, i, top) <= Lo(bounds, j)
  {
  }

  lemma LineGrows(lo: real, hi: real, r: real, s: real, seen: nat, n: nat)
    requires lo <= hi && r <= s && n > 0
    ensures Line(lo, hi, r, seen, n) <= Line(lo, hi, s, seen, n)
  {
    var f, g := (r - seen as real) / (n as real), (s - seen as real) / (n as real);
    NonNegative(hi - lo, g - f);
    assert (hi - lo) * (g - f) == (hi - lo) * g - (hi - lo) * f;
  }

  lemma ScanGrows(buckets: seq<nat>, bounds: seq<real>, top: real, r: real, s: real)
    requires |buckets| <= |bounds| + 1 && Bounds(bounds) && 0.0 < r <= s <= Cum(buckets, |buckets|) as real
    ensures Scan(buckets, bounds, top, r, 0) <= Scan(buckets, bounds, top, s, 0)
  {
    hide Line, Scan;
    var i := ScanLands(buckets, bounds, top, r, 0);
    var j := ScanLands(buckets, bounds, top, s, 0);
    ValueWithin(buckets, bounds, top, r, i);
    ValueWithin(buckets, bounds, top, s, j);
    if j < i {
      CumGrows(buckets, j + 1, i);
      assert false;
    } else if i == j {
      LineGrows(Lo(bounds, i), Hi(bounds, i, top), r, s, Cum(buckets, i), buckets[i]);
    } else {
      BoundsBetween(bounds, i, j, top);
    }
  }

  lemma RankGrows(q: real, p: real, count: nat)
    requires q <= p
    ensures Rank(q, count) <= Rank(p, count)
  {
    var x, y, c := Min(Max(q, 0.0), 1.0), Min(Max(p, 0.0), 1.0), count as real;
    NonNegative(y - x, c);
    assert (y - x) * c == y * c - x * c;
  }

  /** A larger `q` never gives a smaller quantile. */
  lemma QuantileGrows(buckets: seq<nat>, count: nat, top: real, q: real, p: real, bounds: seq<real>)
    requires |buckets| <= |bounds| + 1 && Bounds(bounds) && count == Cum(buckets, |buckets|) > 0 && q <= p
    ensures buckets != []
    ensures Quantile(buckets, count, top, q, bounds).value <= Quantile(buckets, count, top, p, bounds).value
  {
    hide Rank;
    RankGrows(q, p, count);
    assert Cum([], 0) == 0;
    RankWithin(q, count);
    RankWithin(p, count);
    ScanGrows(buckets, bounds, top, Rank(q, count), Rank(p, count));
  }

  // ---- the copy in the summary tool

  /** `quantile` of scripts/snapshot-summary.py. */
  function SummaryQuantile(buckets: seq<nat>, count: nat, top: real, q: real, bounds: seq<real>): Option<real>
    requires |buckets| <= |bounds| + 1
  {
    if count == 0 || buckets == [] then None else Some(Scan(buckets, bounds, top, PlainRank(q, count), 0))
  }

  lemma {:induction false} BeyondAll(buckets: seq<nat>, bounds: seq<real>, top: real, rank: real, i: nat)
    requires i <= |buckets| <= |bounds| + 1 && (Cum(buckets, |buckets|) as real) < rank
    ensures Scan(buckets, bounds, top, rank, i) == top
    decreases |buckets| - i
  {
    if i < |buckets| {
      CumGrows(buckets, i + 1, |buckets|);
      BeyondAll(buckets, bounds, top, rank, i + 1);
    }
  }

  /**
   * The two copies agree for `q` up to 1, clamped or not; past 1 the summary's gives `top`, so they agree exactly
   * when the quantile at 1 is `top`.
   */
  lemma CopiesAgree(buckets: seq<nat>, count: nat, top: real, q: real, bounds: seq<real>)
    requires |buckets| <= |bounds| + 1 && count == Cum(buckets, |buckets|)
    ensures q <= 1.0 ==> SummaryQuantile(buckets, count, top, q, bounds) == Quantile(buckets, count, top, q, bounds)
    ensures q > 1.0 && count > 0 && buckets != [] ==>
      (SummaryQuantile(buckets, count, top, q, bounds) == Quantile(buckets, count, top, q, bounds) <==>
       Quantile(buckets, count, top, 1.0, bounds) == Some(top))
  {
    hide Scan, Line, Cum;
    if q > 1.0 && count > 0 {
      PlainRankBeyond(q, count);
      if buckets != [] {
        BeyondAll(buckets, bounds, top, PlainRank(q, count), 0);
      }
    } else if q <= 1.0 {
      RanksAgree(q, count);
    }
  }

  lemma RanksAgree(q: real, count: nat)
    requires q <= 1.0
    ensures PlainRank(q, count) == Rank(q, count)
  {
    if q < 0.0 {
      assert q * (count as real) <= 0.0;
    }
  }

  lemma PlainRankBeyond(q: real, count: nat)
    requires q > 1.0 && count > 0
    ensures PlainRank(q, count) > count as real && Rank(q, count) == Rank(1.0, count)
  {
    assert (q - 1.0) * (count as real) > 0.0;
  }
}
