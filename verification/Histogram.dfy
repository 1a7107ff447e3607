/** Latency histograms on the server (internal/obs/metrics.go) and quantiles read off them in the browser
    (internal/adminui/assets/metrics.js). Seconds are reals. */
module Histogram {
  import opened Prelude

  ghost predicate Ascending(bounds: seq<real>) { forall i, j :: 0 <= i < j < |bounds| ==> bounds[i] < bounds[j] }

  /** sort.SearchFloat64s: the first bound that is not below `x`, searched from `i` on. */
  function Search(bounds: seq<real>, x: real, i: nat): (r: nat)
    requires i <= |bounds|
    ensures i <= r <= |bounds|
    decreases |bounds| - i
  {
    if i == |bounds| || bounds[i] >= x then i else Search(bounds, x, i + 1)
  }

  /** The bucket counters after the observations, the last one for everything above all bounds. */
  function Counts(bounds: seq<real>, obs: seq<real>): (r: seq<nat>)
    ensures |r| == |bounds| + 1
  {
    if obs == [] then seq(|bounds| + 1, i => 0)
    else
      var r := Counts(bounds, obs[..|obs| - 1]);
      var i := Search(bounds, obs[|obs| - 1], 0);
      r[i := r[i] + 1]
  }

  function SumBelow(counts: seq<nat>, i: nat): nat
    requires i <= |counts|
  {
    if i == 0 then 0 else SumBelow(counts, i - 1) + counts[i - 1]
  }

  class Buckets {
    const bounds: seq<real>
    const counts: array<nat>
    var total: nat
    ghost var obs: seq<real>

    ghost predicate Valid()
      reads this, counts
    {
      counts.Length == |bounds| + 1 && counts[..] == Counts(bounds, obs) && total == |obs|
    }

    constructor (bounds: seq<real>)
      ensures Valid() && fresh(counts) && this.bounds == bounds && obs == []
    {
      this.bounds := bounds;
      counts := new nat[|bounds| + 1](i => 0);
      total, obs := 0, [];
    }

    method Observe(x: real)
      requires Valid()
      modifies this, counts
      ensures Valid() && obs == old(obs) + [x]
    {
      var i := Search(bounds, x, 0);
      counts[i] := counts[i] + 1;
      total := total + 1;
      obs := obs + [x];
      assert obs[..|obs| - 1] == old(obs);
    }

    /** The rendered cumulative series: a value per bound, then "+Inf". */
    method Write() returns (lines: seq<nat>, count: nat)
      requires Valid() && Ascending(bounds)
      ensures |lines| == |bounds| + 1 && count == |obs|
      ensures forall i :: 0 <= i < |bounds| ==> lines[i] == AtMost(obs, bounds[i])
      ensures lines[|bounds|] == count
    {
      lines := [];
      var cum := 0;
      for i := 0 to |bounds|
        invariant |lines| == i && cum == SumBelow(counts[..], i)
        invariant forall j :: 0 <= j < i ==> lines[j] == SumBelow(counts[..], j + 1)
      {
        cum := cum + counts[i];
        lines := lines + [cum];
      }
      cum := cum + counts[|bounds|];
      lines := lines + [cum];
      count := total;
      forall i | 0 <= i < |bounds| ensures lines[i] == AtMost(obs, bounds[i]) {
        CumulativeExact(bounds, obs, i);
      }
      AllCounted(bounds, obs);
    }
  }

  // What the counters mean.

  function AtMost(obs: seq<real>, b: real): nat {
    if obs == [] then 0 else AtMost(obs[..|obs| - 1], b) + (if obs[|obs| - 1] <= b then 1 else 0)
  }

  lemma {:induction false} SearchFirst(bounds: seq<real>, x: real, i: nat)
    requires i <= |bounds|
    ensures var r := Search(bounds, x, i);
            (forall j :: i <= j < r ==> bounds[j] < x) && (r < |bounds| ==> bounds[r] >= x)
    decreases |bounds| - i
  {
    if i < |bounds| && bounds[i] < x { SearchFirst(bounds, x, i + 1); }
  }

  lemma {:induction false} SumUpdate(counts: seq<nat>, i: nat, k: nat)
    requires i < |counts| && k <= |counts|
    ensures SumBelow(counts[i := counts[i] + 1], k) == SumBelow(counts, k) + (if i < k then 1 else 0)
  {
    if k > 0 { SumUpdate(counts, i, k - 1); }
  }

  lemma {:induction false} SumZeros(n: nat, k: nat)
    requires k <= n
    ensures SumBelow(seq(n, i => 0), k) == 0
  {
    if k > 0 { SumZeros(n, k - 1); }
  }

  /** The cumulative count at a bound is the number of observations not above it. */
  lemma {:induction false} CumulativeExact(bounds: seq<real>, obs: seq<real>, i: nat)
    requires Ascending(bounds) && i < |bounds|
    ensures SumBelow(Counts(bounds, obs), i + 1) == AtMost(obs, bounds[i])
  {
    if obs == [] {
      SumZeros(|bounds| + 1, i + 1);
    } else {
      var n := |obs| - 1;
      var x := obs[n];
      CumulativeExact(bounds, obs[..n], i);
      var s := Search(bounds, x, 0);
      SearchFirst(bounds, x, 0);
      SumUpdate(Counts(bounds, obs[..n]), s, i + 1);
      assert s < i ==> bounds[s] < bounds[i];
    }
  }

  lemma {:induction false} AllCounted(bounds: seq<real>, obs: seq<real>)
    ensures SumBelow(Counts(bounds, obs), |bounds| + 1) == |obs|
  {
    if obs == [] {
      SumZeros(|bounds| + 1, |bounds| + 1);
    } else {
      var n := |obs| - 1;
      AllCounted(bounds, obs[..n]);
      SumUpdate(Counts(bounds, obs[..n]), Search(bounds, obs[n], 0), |bounds| + 1);
    }
  }

  /** The finite buckets of a histogram. */
  function Finite(bounds: seq<real>, obs: seq<real>): (r: seq<nat>)
    ensures |r| == |bounds|
  {
    seq(|bounds|, i requires 0 <= i < |bounds| => AtMost(obs, bounds[i]))
  }

  // Sampling: label sets are summed and two samples are subtracted.

  lemma {:induction false} AtMostConcat(a: seq<real>, b: seq<real>, x: real)
    ensures AtMost(a + b, x) == AtMost(a, x) + AtMost(b, x)
  {
    if b == [] {
      assert a + b == a;
    } else {
      assert (a + b)[..|a + b| - 1] == a + b[..|b| - 1];
      AtMostConcat(a, b[..|b| - 1], x);
    }
  }

  function Diff(cur: seq<nat>, prev: seq<nat>): (r: seq<nat>)
    requires |prev| == |cur|
    ensures |r| == |cur|
  {
    seq(|cur|, i requires 0 <= i < |cur| => if cur[i] < prev[i] then 0 else cur[i] - prev[i])
  }

  function SumRows(rows: seq<seq<nat>>, n: nat): (r: seq<nat>)
    requires forall i :: 0 <= i < |rows| ==> |rows[i]| == n
    ensures |r| == n
  {
    if rows == [] then seq(n, i => 0)
    else
      var r := SumRows(rows[..|rows| - 1], n);
      seq(n, i requires 0 <= i < n => r[i] + rows[|rows| - 1][i])
  }

  function Flatten(parts: seq<seq<real>>): seq<real> {
    if parts == [] then [] else Flatten(parts[..|parts| - 1]) + parts[|parts| - 1]
  }

  /** Summing the buckets of all label sets gives the buckets of all their observations. */
  lemma {:induction false} LabelsAddUp(bounds: seq<real>, parts: seq<seq<real>>, rows: seq<seq<nat>>)
    requires |rows| == |parts| && forall i :: 0 <= i < |rows| ==> |rows[i]| == |bounds| && rows[i] == Finite(bounds, parts[i])
    ensures SumRows(rows, |bounds|) == Finite(bounds, Flatten(parts))
  {
    if rows != [] {
      var n := |rows| - 1;
      LabelsAddUp(bounds, parts[..n], rows[..n]);
      forall i | 0 <= i < |bounds| ensures SumRows(rows, |bounds|)[i] == Finite(bounds, Flatten(parts))[i] {
        AtMostConcat(Flatten(parts[..n]), parts[n], bounds[i]);
      }
    }
  }

  /** Between two samples of a server that did not restart, the difference is the histogram of what came in between; the
      clamp at zero is not needed. */
  lemma DiffIsNew(bounds: seq<real>, before: seq<real>, since: seq<real>)
    ensures Diff(Finite(bounds, before + since), Finite(bounds, before)) == Finite(bounds, since)
  {
    forall i | 0 <= i < |bounds| ensures Diff(Finite(bounds, before + since), Finite(bounds, before))[i] == Finite(bounds, since)[i] {
      AtMostConcat(before, since, bounds[i]);
    }
  }

  // Quantiles.

  /** `hi` is None for infinity. */
  datatype Quantile = Quantile(value: real, lo: real, hi: Option<real>, exact: bool)

  /** The point between two bounds where a straight line between two counts reaches the target. */
  function Interpolate(lo: real, hi: real, target: real, prev: nat, c: nat): real
    requires prev < c
  {
    lo + (hi - lo) * ((target - prev as real) / (c - prev) as real)
  }

  /** The bucket whose cumulative count first reaches `target`, from bucket `i` on. */
  function QuantileFrom(cum: seq<nat>, target: real, bounds: seq<real>, i: nat, prevCount: nat, prevBound: real): Quantile
    requires i <= |bounds| == |cum| && bounds != []
    decreases |bounds| - i
  {
    if i == |bounds| then
      var last := bounds[|bounds| - 1];
      Quantile(last, last, None, false)
    else if cum[i] as real >= target then
      if cum[i] <= prevCount then Quantile(bounds[i], bounds[i], Some(bounds[i]), true)
      else Quantile(Interpolate(prevBound, bounds[i], target, prevCount, cum[i]), prevBound, Some(bounds[i]), false)
    else QuantileFrom(cum, target, bounds, i + 1, cum[i], bounds[i])
  }

  function Target(total: nat, q: real): real { total as real * q }

  method HistQuantile(cum: seq<nat>, q: real, bounds: seq<real>) returns (r: Option<Quantile>)
    requires |cum| == |bounds|
    ensures r == if bounds == [] || cum[|cum| - 1] == 0 then None
                 else Some(QuantileFrom(cum, Target(cum[|cum| - 1], q), bounds, 0, 0, 0.0))
  {
    var total := if |cum| > 0 then cum[|cum| - 1] else 0;
    if !(total > 0) { return None; }
    var target := Target(total, q);
    hide Target, Interpolate;
    var prevCount: nat, prevBound := 0, 0.0;
    var i := 0;
    while i < |bounds|
      invariant 0 <= i <= |bounds|
      invariant QuantileFrom(cum, target, bounds, 0, 0, 0.0) == QuantileFrom(cum, target, bounds, i, prevCount, prevBound)
    {
      var c := cum[i];
      if c as real >= target {
        if c <= prevCount { return Some(Quantile(bounds[i], bounds[i], Some(bounds[i]), true)); }
        return Some(Quantile(Interpolate(prevBound, bounds[i], target, prevCount, c), prevBound, Some(bounds[i]), false));
      }
      prevCount, prevBound := c, bounds[i];
      i := i + 1;
    }
    var last := bounds[|bounds| - 1];
    r := Some(Quantile(last, last, None, false));
  }

  ghost predicate Sorted(s: seq<real>) { forall i, j :: 0 <= i < j < |s| ==> s[i] <= s[j] }

  /** In a sorted list the k-th element is within a bound exactly when at least k elements are. */
  lemma {:induction false} RankIff(s: seq<real>, b: real, k: nat)
    requires Sorted(s) && 1 <= k <= |s|
    ensures s[k - 1] <= b <==> AtMost(s, b) >= k
  {
    AtMostLength(s, b);
    var n := |s| - 1;
    if k <= n {
      RankIff(s[..n], b, k);
      assert s[k - 1] <= s[n];
    } else {
      AtMostLength(s[..n], b);
      if s[n] <= b { AllAtMost(s[..n], b); }
    }
  }

  lemma {:induction false} AtMostLength(s: seq<real>, b: real)
    ensures AtMost(s, b) <= |s|
  {
    if s != [] { AtMostLength(s[..|s| - 1], b); }
  }

  lemma {:induction false} AllAtMost(s: seq<real>, b: real)
    requires forall i :: 0 <= i < |s| ==> s[i] <= b
    ensures AtMost(s, b) == |s|
  {
    if s != [] { AllAtMost(s[..|s| - 1], b); }
  }

  /** Counting does not depend on the order. */
  lemma {:induction false} AtMostPermuted(s: seq<real>, t: seq<real>, b: real)
    requires multiset(s) == multiset(t)
    ensures AtMost(s, b) == AtMost(t, b) && |s| == |t|
  {
    assert |multiset(s)| == |multiset(t)|;
    if s != [] {
      var n := |s| - 1;
      var x := s[n];
      assert s == s[..n] + [x];
      assert x in multiset(t);
      var i :| 0 <= i < |t| && t[i] == x;
      assert t == t[..i] + [x] + t[i + 1..];
      var u := t[..i] + t[i + 1..];
      assert multiset(t) == multiset(t[..i]) + multiset{x} + multiset(t[i + 1..]);
      assert multiset(s) == multiset(s[..n]) + multiset{x};
      assert multiset(u) + multiset{x} == multiset(s[..n]) + multiset{x};
      assert multiset(u) == multiset(u) + multiset{x} - multiset{x} == multiset(s[..n]);
      AtMostPermuted(s[..n], u, b);
      AtMostConcat(t[..i], t[i + 1..], b);
      AtMostConcat(t[..i] + [x], t[i + 1..], b);
      AtMostConcat(t[..i], [x], b);
      AtMostConcat(s[..n], [x], b);
    }
  }

  lemma Shrinks(a: real, f: real)
    requires a > 0.0 && 0.0 < f <= 1.0
    ensures 0.0 < a * f <= a
  {
    Product(a, f);
    Product(a, 1.0 - f);
    assert a * (1.0 - f) == a - a * f;
  }

  lemma Signs(f: real, span: real)
    requires span > 0.0
    ensures f <= 0.0 ==> f * span <= 0.0
    ensures f > 1.0 ==> f * span > span
  {
    if f <= 0.0 {
      Product(-f, span);
      assert (-f) * span == -(f * span);
    } else if f > 1.0 {
      Product(f - 1.0, span);
      assert (f - 1.0) * span == f * span - span;
    }
  }

  lemma Quotient(d: real, span: real)
    requires span > 0.0
    ensures d / span * span == d
  {}

  /** The quotient of a part by its whole, from the product. */
  lemma Fraction(f: real, d: real, span: real)
    requires 0.0 < d <= span && f * span == d
    ensures 0.0 < f <= 1.0
  {
    Signs(f, span);
  }

  lemma Interpolates(lo: real, hi: real, target: real, prev: nat, c: nat)
    requires lo < hi && prev as real < target <= c as real
    ensures prev < c && lo <= Interpolate(lo, hi, target, prev, c) <= hi
  {
    var d, w := target - prev as real, hi - lo;
    var span := (c - prev) as real;
    assert span == c as real - prev as real >= d > 0.0;
    var f := d / span;
    Quotient(d, span);
    Fraction(f, d, span);
    Shrinks(w, f);
    assert Interpolate(lo, hi, target, prev, c) == lo + w * f;
  }

  /** The interpolated value starts at the bucket's lower bound, rises with the target in equal steps and reaches the upper bound
      at the bucket's own count. */
  lemma InterpolateLinear(lo: real, hi: real, t: real, u: real, prev: nat, c: nat)
    requires lo < hi && prev < c
    ensures Interpolate(lo, hi, prev as real, prev, c) == lo
    ensures Interpolate(lo, hi, c as real, prev, c) == hi
    ensures t < u <==> Interpolate(lo, hi, t, prev, c) < Interpolate(lo, hi, u, prev, c)
    ensures (Interpolate(lo, hi, u, prev, c) - Interpolate(lo, hi, t, prev, c)) * (c - prev) as real == (hi - lo) * (u - t)
  {
    var w, span, p := hi - lo, (c - prev) as real, prev as real;
    assert span == c as real - p > 0.0;
    var f, g := (t - p) / span, (u - p) / span;
    assert (c as real - p) / span == 1.0 && (p - p) / span == 0.0;
    assert w * ((c as real - p) / span) == w * 1.0;
    assert w * ((p - p) / span) == w * 0.0;
    Quotient(t - p, span);
    Quotient(u - p, span);
    Steps(w, f, g, span);
    assert (g - f) * span == u - t;
    SignProduct(w, g - f);
    SignProduct(span, g - f);
    assert Interpolate(lo, hi, u, prev, c) - Interpolate(lo, hi, t, prev, c) == w * (g - f);
    assert span * (g - f) == u - t;
  }

  lemma Steps(w: real, f: real, g: real, span: real)
    ensures (g - f) * span == g * span - f * span
    ensures w * g - w * f == w * (g - f)
    ensures (w * g - w * f) * span == w * ((g - f) * span)
  {
    Regroup(w, g - f, span);
  }

  lemma Regroup(a: real, b: real, c: real)
    ensures a * b * c == a * (b * c)
  {}

  lemma SignProduct(a: real, b: real)
    requires a > 0.0
    ensures a * b > 0.0 <==> b > 0.0
  {
    if b <= 0.0 { Product(a, -b); assert a * (-b) == -(a * b); } else { Product(a, b); }
  }

  function PrevCount(bounds: seq<real>, obs: seq<real>, i: nat): nat
    requires i <= |bounds|
  {
    if i == 0 then 0 else AtMost(obs, bounds[i - 1])
  }

  function PrevBound(bounds: seq<real>, i: nat): real
    requires i <= |bounds|
  {
    if i == 0 then 0.0 else bounds[i - 1]
  }

  /** The first bucket whose cumulative count reaches the target. */
  function FirstReaching(bounds: seq<real>, obs: seq<real>, target: real, i: nat): (j: nat)
    requires i < |bounds| && AtMost(obs, bounds[|bounds| - 1]) as real >= target
    requires PrevCount(bounds, obs, i) as real < target
    ensures i <= j < |bounds| && PrevCount(bounds, obs, j) as real < target <= AtMost(obs, bounds[j]) as real
    decreases |bounds| - i
  {
    if AtMost(obs, bounds[i]) as real >= target then i else FirstReaching(bounds, obs, target, i + 1)
  }

  lemma {:induction false} QuantileIsBucket(obs: seq<real>, bounds: seq<real>, target: real, i: nat)
    requires Ascending(bounds) && i < |bounds| && bounds[0] > 0.0
    requires PrevCount(bounds, obs, i) as real < target <= AtMost(obs, bounds[|bounds| - 1]) as real
    ensures var j := FirstReaching(bounds, obs, target, i);
            var r := QuantileFrom(Finite(bounds, obs), target, bounds, i, PrevCount(bounds, obs, i), PrevBound(bounds, i));
            && !r.exact && r.lo == PrevBound(bounds, j) && r.hi == Some(bounds[j]) && r.lo <= r.value <= bounds[j]
    decreases |bounds| - i
  {
    if AtMost(obs, bounds[i]) as real >= target {
      Interpolates(PrevBound(bounds, i), bounds[i], target, PrevCount(bounds, obs, i), AtMost(obs, bounds[i]));
    } else {
      QuantileIsBucket(obs, bounds, target, i + 1);
    }
  }

  /** The k-th smallest observation lies in the bucket whose cumulative counts are on either side of k. */
  lemma RankInBucket(obs: seq<real>, sorted: seq<real>, bounds: seq<real>, j: nat, k: nat)
    requires Sorted(sorted) && multiset(sorted) == multiset(obs) && forall i :: 0 <= i < |sorted| ==> sorted[i] >= 0.0
    requires j < |bounds| && PrevCount(bounds, obs, j) < k <= AtMost(obs, bounds[j])
    ensures k <= |sorted| && PrevBound(bounds, j) <= sorted[k - 1] <= bounds[j]
  {
    AtMostPermuted(sorted, obs, bounds[j]);
    AtMostLength(sorted, bounds[j]);
    RankIff(sorted, bounds[j], k);
    if j > 0 {
      AtMostPermuted(sorted, obs, bounds[j - 1]);
      RankIff(sorted, bounds[j - 1], k);
    }
  }

  lemma CeilBetween(target: real, lo: nat, hi: nat)
    requires lo as real < target <= hi as real
    ensures lo < Ceil(target) <= hi
  {
    var k := Ceil(target);
    assert (k - hi) as real < 1.0;
  }

  lemma TargetIs(n: nat, q: real)
    requires 0.0 < q <= 1.0
    ensures Target(n, q) == n as real * q && (n > 0 ==> 0.0 < Target(n, q) <= n as real)
  {
    if n > 0 { Shrinks(n as real, q); }
  }

  lemma TargetEncloses(obs: seq<real>, sorted: seq<real>, bounds: seq<real>, target: real)
    requires Ascending(bounds) && bounds != [] && bounds[0] > 0.0
    requires Sorted(sorted) && multiset(sorted) == multiset(obs) && forall j :: 0 <= j < |sorted| ==> sorted[j] >= 0.0
    requires 0.0 < target <= AtMost(obs, bounds[|bounds| - 1]) as real
    ensures var r := QuantileFrom(Finite(bounds, obs), target, bounds, 0, 0, 0.0);
            var k := Ceil(target);
            && 1 <= k <= |sorted|
            && !r.exact && r.hi.Some? && r.lo <= r.value <= r.hi.value
            && r.lo <= sorted[k - 1] <= r.hi.value
  {
    QuantileIsBucket(obs, bounds, target, 0);
    assert PrevCount(bounds, obs, 0) == 0 && PrevBound(bounds, 0) == 0.0;
    hide *;
    var j := FirstReaching(bounds, obs, target, 0);
    CeilBetween(target, PrevCount(bounds, obs, j), AtMost(obs, bounds[j]));
    RankInBucket(obs, sorted, bounds, j, Ceil(target));
  }

  /** Whenever the finite buckets hold anything, the quantile is a value inside one bucket that also holds the true
      ceil(q * n)-th smallest of the n observations in the finite buckets; no quantile is ever reported as exact or as
      beyond the last bound. */
  lemma QuantileEncloses(obs: seq<real>, sorted: seq<real>, bounds: seq<real>, q: real)
    requires Ascending(bounds) && bounds != [] && bounds[0] > 0.0 && 0.0 < q <= 1.0
    requires Sorted(sorted) && multiset(sorted) == multiset(obs) && forall j :: 0 <= j < |sorted| ==> sorted[j] >= 0.0
    requires AtMost(obs, bounds[|bounds| - 1]) > 0
    ensures var n := AtMost(obs, bounds[|bounds| - 1]);
            var r := QuantileFrom(Finite(bounds, obs), Target(n, q), bounds, 0, 0, 0.0);
            var k := Ceil(Target(n, q));
            && Target(n, q) == n as real * q
            && 1 <= k <= |sorted|
            && !r.exact && r.hi.Some? && r.lo <= r.value <= r.hi.value
            && r.lo <= sorted[k - 1] <= r.hi.value
  {
    hide *;
    var n := AtMost(obs, bounds[|bounds| - 1]);
    TargetIs(n, q);
    TargetEncloses(obs, sorted, bounds, Target(n, q));
  }
}
