// Scores on the [0,1] scale: rounding, labels and nearest-rank percentiles. Scores are
// exact reals.
module HealthScores {
  import opened Sorting

  datatype Label = Healthy | Degraded | Impaired | Critical | Offline | Unavailable | InsufficientSample

  // To the nearest whole number, halves away from zero.
  function Round(x: real): int {
    if x >= 0.0 then (x + 0.5).Floor else -(0.5 - x).Floor
  }

  // Rust's saturating cast of a whole number to `u32`.
  function ToU32(n: int): nat {
    if n < 0 then 0 else if n > 0xFFFF_FFFF then 0xFFFF_FFFF else n
  }

  function LabelOf100(score: nat): Label {
    if score >= 85 then Healthy else if score >= 65 then Degraded else if score >= 40 then Impaired else Critical
  }

  function LabelOf(x: real): Label {
    LabelOf100(ToU32(Round(x * 100.0)))
  }

  function Round3(x: real): real {
    Round(x * 1000.0) as real / 1000.0
  }

  lemma RoundIsNearest(x: real, n: int)
    ensures x >= 0.0 ==> (Round(x) == n <==> n as real - 0.5 <= x < n as real + 0.5)
    ensures x < 0.0 ==> (Round(x) == n <==> n as real - 0.5 < x <= n as real + 0.5)
  {
  }

  lemma LabelThresholds(x: real)
    ensures LabelOf(x) == Healthy <==> x >= 0.845
    ensures LabelOf(x) == Degraded <==> 0.645 <= x < 0.845
    ensures LabelOf(x) == Impaired <==> 0.395 <= x < 0.645
    ensures LabelOf(x) == Critical <==> x < 0.395
  {
    var r := Round(x * 100.0);
    assert r >= 85 <==> x * 100.0 >= 84.5;
    assert r >= 65 <==> x * 100.0 >= 64.5;
    assert r >= 40 <==> x * 100.0 >= 39.5;
  }

  // Less than half a thousandth below a label's lower bound.
  predicate JustBelow(x: real) {
    0.8445 <= x < 0.845 || 0.6445 <= x < 0.645 || 0.3945 <= x < 0.395
  }

  // Rounding moves a label exactly there.
  lemma Round3KeepsLabel(x: real)
    ensures LabelOf(Round3(x)) == LabelOf(x) <==> !JustBelow(x)
  {
    LabelThresholds(x);
    LabelThresholds(Round3(x));
    var r := Round(x * 1000.0);
    assert r >= 845 <==> x * 1000.0 >= 844.5;
    assert r >= 645 <==> x * 1000.0 >= 644.5;
    assert r >= 395 <==> x * 1000.0 >= 394.5;
  }

  lemma Round3OfThousandths(n: int)
    ensures Round3(n as real / 1000.0) == n as real / 1000.0
  {
    RoundIsNearest(n as real, n);
    assert n as real / 1000.0 * 1000.0 == n as real;
  }

  lemma Round3IsIdempotent(x: real)
    ensures Round3(Round3(x)) == Round3(x)
  {
    Round3OfThousandths(Round(x * 1000.0));
  }

  predicate RealLeq(x: real, y: real) {
    x <= y
  }

  // The zero-based position of the p-th percentile among `n` sorted values.
  function RankIndex(n: nat, p: nat): (i: int)
    requires n > 0
    ensures 0 <= i < n
  {
    var rank := (p * n + 99) / 100;
    if rank - 1 < 0 then 0 else if rank - 1 > n - 1 then n - 1 else rank - 1
  }

  function Percentile(sorted: seq<real>, p: nat): real {
    if sorted == [] then 0.0 else sorted[RankIndex(|sorted|, p)]
  }

  function AtMost(v: real): real -> bool {
    (x: real) => x <= v
  }

  function Below(v: real): real -> bool {
    (x: real) => x < v
  }

  // The nearest rank: a value of the list that at least p% are at most and less than p%
  // are below.
  lemma PercentileIsNearestRank(sorted: seq<real>, p: nat)
    requires sorted != [] && Sorted(sorted, RealLeq) && 0 < p <= 100
    ensures Percentile(sorted, p) in sorted
    ensures 100 * CountIf(sorted, AtMost(Percentile(sorted, p))) >= p * |sorted|
    ensures 100 * CountIf(sorted, Below(Percentile(sorted, p))) < p * |sorted|
  {
    var n := |sorted|;
    var i := RankIndex(n, p);
    IndexBounds(n, p);
    var v := sorted[i];
    forall j | 0 <= j < n
      ensures j <= i ==> AtMost(v)(sorted[j])
      ensures j >= i ==> !Below(v)(sorted[j])
    {
      if j < i {
        assert RealLeq(sorted[j], sorted[i]);
      } else if j > i {
        assert RealLeq(sorted[i], sorted[j]);
      }
    }
    CountIfBounds(sorted, AtMost(v), i + 1);
    CountIfBounds(sorted, Below(v), i);
  }

  lemma IndexBounds(n: nat, p: nat)
    requires n > 0 && 0 < p <= 100
    ensures 100 * RankIndex(n, p) < p * n <= 100 * (RankIndex(n, p) + 1)
  {
    assert 0 < p * n <= 100 * n;
  }

  lemma {:induction false} PercentileGrows(sorted: seq<real>, p: nat, q: nat)
    requires Sorted(sorted, RealLeq) && p <= q
    ensures Percentile(sorted, p) <= Percentile(sorted, q)
  {
    if sorted != [] {
      var n := |sorted|;
      assert p * n <= q * n;
      var i, j := RankIndex(n, p), RankIndex(n, q);
      assert i < j ==> RealLeq(sorted[i], sorted[j]);
    }
  }

  lemma RealOrder()
    ensures TotalPreorder(RealLeq)
    ensures forall s: seq<real> :: NoTies(s, RealLeq)
  {
  }
}
