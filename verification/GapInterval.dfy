/** `gap_interval` of evals/oracle_gap.py: how far the gap rate of all runs together moves when its worlds are
    drawn anew. */
module GapInterval {
  import opened Wrappers
  import opened OracleGap
  import opened CandidateMetrics
  import opened Sorting

  const BOOTSTRAP_RESAMPLES: nat := 2000
  const BOOTSTRAP_CONFIDENCE: real := 0.95

  /** `randrange`: for each round and position, an index below the bound. */
  type Draw = (nat, nat, nat) -> nat

  ghost predicate InRange(draw: Draw) {
    forall round: nat, i: nat, n: nat :: 0 < n ==> draw(round, i, n) < n
  }

  // ----- Clusters -----

  /** The worlds with a scored run, in the order they are met. */
  function FirstSeen(rows: seq<RunRow>, k: int): (worlds: seq<string>)
    ensures forall i, j :: 0 <= i < j < |worlds| ==> worlds[i] != worlds[j]
    ensures forall row <- rows :: row.Gap(k).Some? ==> row.world in worlds
  {
    if rows == [] then []
    else
      var before, last := FirstSeen(rows[..|rows| - 1], k), rows[|rows| - 1];
      assert rows == rows[..|rows| - 1] + [last];
      if last.Gap(k).Some? && last.world !in before then before + [last.world] else before
  }

  /** The gaps of one world's scored runs, in order. */
  function GapsIn(rows: seq<RunRow>, k: int, world: string): seq<int> {
    if rows == [] then []
    else
      var last := rows[|rows| - 1];
      GapsIn(rows[..|rows| - 1], k, world) + if last.Gap(k).Some? && last.world == world then [last.Gap(k).value]
        else []
  }

  ghost predicate Clusters(clusters: seq<seq<int>>, rows: seq<RunRow>, k: int) {
    var worlds := FirstSeen(rows, k);
    |clusters| == |worlds| && forall i :: 0 <= i < |worlds| ==> clusters[i] == GapsIn(rows, k, worlds[i])
  }

  lemma {:induction false} SeenHasGaps(rows: seq<RunRow>, k: int, world: string)
    ensures world in FirstSeen(rows, k) <==> GapsIn(rows, k, world) != []
  {
    if rows != [] {
      SeenHasGaps(rows[..|rows| - 1], k, world);
    }
  }

  method ClusterGaps(rows: seq<RunRow>, k: int) returns (clusters: seq<seq<int>>)
    ensures Clusters(clusters, rows, k)
  {
    var known: map<string, seq<int>> := map[];
    var order: seq<string> := [];
    for i := 0 to |rows|
      invariant order == FirstSeen(rows[..i], k)
      invariant forall world :: world in known <==> world in order
      invariant forall world <- known :: known[world] == GapsIn(rows[..i], k, world)
    {
      var row := rows[i];
      assert rows[..i + 1][..i] == rows[..i];
      SeenHasGaps(rows[..i], k, row.world);
      if row.Gap(k).Some? {
        if row.world !in known {
          order := order + [row.world];
          known := known[row.world := []];
        }
        known := known[row.world := known[row.world] + [row.Gap(k).value]];
      }
    }
    assert rows[..|rows|] == rows;
    clusters := seq(|order|, i requires 0 <= i < |order| => known[order[i]]);
  }

  // ----- One resample -----

  function Sum(s: seq<int>): int {
    if s == [] then 0 else Sum(s[..|s| - 1]) + s[|s| - 1]
  }

  function SumOf(clusters: seq<seq<int>>): int {
    if clusters == [] then 0 else SumOf(clusters[..|clusters| - 1]) + Sum(clusters[|clusters| - 1])
  }

  function SizeOf(clusters: seq<seq<int>>): nat {
    if clusters == [] then 0 else SizeOf(clusters[..|clusters| - 1]) + |clusters[|clusters| - 1]|
  }

  predicate NoneEmpty(clusters: seq<seq<int>>) {
    forall cluster <- clusters :: cluster != []
  }

  predicate ZeroOrOne(clusters: seq<seq<int>>) {
    forall cluster <- clusters, gap <- cluster :: gap == 0 || gap == 1
  }

  lemma {:induction false} SumBounds(s: seq<int>)
    requires forall gap <- s :: gap == 0 || gap == 1
    ensures 0 <= Sum(s) <= |s|
  {
    if s != [] {
      var init, last := s[..|s| - 1], s[|s| - 1];
      assert last in s && forall gap <- init :: gap in s;
      SumBounds(init);
    }
  }

  lemma {:induction false} SizeIsPositive(clusters: seq<seq<int>>)
    requires NoneEmpty(clusters)
    ensures SizeOf(clusters) >= |clusters|
  {
    if clusters != [] {
      var init, last := clusters[..|clusters| - 1], clusters[|clusters| - 1];
      assert last in clusters && forall cluster <- init :: cluster in clusters;
      SizeIsPositive(init);
    }
  }

  lemma {:induction false} RateBounds(clusters: seq<seq<int>>)
    requires ZeroOrOne(clusters)
    ensures 0 <= SumOf(clusters) <= SizeOf(clusters)
  {
    if clusters != [] {
      var init, last := clusters[..|clusters| - 1], clusters[|clusters| - 1];
      assert last in clusters && forall cluster <- init :: cluster in clusters;
      SumBounds(last);
      RateBounds(init);
    }
  }

  function Picks(clusters: seq<seq<int>>, draw: Draw, round: nat): (picks: seq<seq<int>>)
    requires InRange(draw)
    ensures |picks| == |clusters| && forall pick <- picks :: pick in clusters
  {
    seq(|clusters|, i requires 0 <= i < |clusters| => clusters[draw(round, i, |clusters|)])
  }

  /** The gap rate over the runs of the picked worlds. */
  function Rate(picks: seq<seq<int>>): real
    requires picks != [] && NoneEmpty(picks)
  {
    SizeIsPositive(picks);
    SumOf(picks) as real / SizeOf(picks) as real
  }

  lemma RateIsAFraction(picks: seq<seq<int>>)
    requires picks != [] && NoneEmpty(picks) && ZeroOrOne(picks)
    ensures 0.0 <= Rate(picks) <= 1.0
  {
    SizeIsPositive(picks);
    RateBounds(picks);
    Divide(SumOf(picks) as real, SizeOf(picks) as real);
  }

  lemma Divide(a: real, b: real)
    requires 0.0 <= a <= b && b > 0.0
    ensures 0.0 <= a / b <= 1.0
  {
    assert (a / b) * b == a;
  }

  predicate RealLeq(a: real, b: real) {
    a <= b
  }

  /** `round(x, 4)`. */
  function Round4(x: real): real {
    (x * 10000.0 + 0.5).Floor as real / 10000.0
  }

  lemma RoundKeepsOrder(x: real, y: real)
    requires 0.0 <= x <= y <= 1.0
    ensures 0.0 <= Round4(x) <= Round4(y) <= 1.0
  {
    var a, b := (x * 10000.0 + 0.5).Floor, (y * 10000.0 + 0.5).Floor;
    assert 0 <= a <= b <= 10000;
  }

  /** Rounding moves a rate by at most half a ten-thousandth, to a whole number of them. */
  lemma RoundIsNear(x: real)
    ensures -0.00005 <= Round4(x) - x <= 0.00005
    ensures (10000.0 * Round4(x)).Floor as real == 10000.0 * Round4(x)
  {
    var n := (x * 10000.0 + 0.5).Floor;
    assert n as real <= x * 10000.0 + 0.5 < n as real + 1.0;
  }

  // ----- The interval -----

  function Rates(clusters: seq<seq<int>>, draw: Draw): (rates: seq<real>)
    requires InRange(draw) && clusters != [] && NoneEmpty(clusters)
    ensures |rates| == BOOTSTRAP_RESAMPLES
  {
    seq(BOOTSTRAP_RESAMPLES, round requires 0 <= round < BOOTSTRAP_RESAMPLES => Rate(Picks(clusters, draw, round)))
  }

  function Low(): nat {
    var tail := (1.0 - BOOTSTRAP_CONFIDENCE) / 2.0;
    (tail * BOOTSTRAP_RESAMPLES as real).Floor as nat
  }

  function High(): nat {
    var tail := (1.0 - BOOTSTRAP_CONFIDENCE) / 2.0;
    Min(((1.0 - tail) * BOOTSTRAP_RESAMPLES as real).Floor, BOOTSTRAP_RESAMPLES - 1)
  }

  /** Of two thousand rates, the fifty-first and the last but forty-nine: 2.5 per cent lie below and 2.5 above. */
  lemma QuantileRanks()
    ensures Low() == 50 && High() == 1950
  {
  }

  /** The two order statistics of the resampled rates. */
  ghost predicate Quantiles(interval: (real, real), rates: seq<real>) {
    exists sorted :: |sorted| == BOOTSTRAP_RESAMPLES && SortedBy(RealLeq, sorted) && multiset(sorted) == multiset(rates)
      && interval == (Round4(sorted[Low()]), Round4(sorted[High()]))
  }

  method ResampledRates(clusters: seq<seq<int>>, draw: Draw) returns (rates: seq<real>)
    requires InRange(draw) && clusters != [] && NoneEmpty(clusters)
    ensures rates == Rates(clusters, draw)
  {
    rates := [];
    for round := 0 to BOOTSTRAP_RESAMPLES
      invariant rates == Rates(clusters, draw)[..round]
    {
      rates := rates + [Rate(Picks(clusters, draw, round))];
    }
  }

  /** Nothing below two worlds; and otherwise, whatever is drawn, an interval within [0, 1]. */
  method GapInterval(rows: seq<RunRow>, k: int, draw: Draw) returns (interval: Option<(real, real)>)
    requires InRange(draw)
    ensures interval.None? <==> |FirstSeen(rows, k)| < 2
    ensures interval.Some? ==>
      exists clusters :: Clusters(clusters, rows, k) && NoneEmpty(clusters) && clusters != []
        && Quantiles(interval.value, Rates(clusters, draw))
    ensures interval.Some? && AllCoherent(rows) ==> 0.0 <= interval.value.0 <= interval.value.1 <= 1.0
  {
    var clusters := ClusterGaps(rows, k);
    if |clusters| < 2 {
      return None;
    }
    ClustersNotEmpty(clusters, rows, k);
    var rates := ResampledRates(clusters, draw);
    var sorted := Sort(RealLeq, rates);
    assert |multiset(sorted)| == |sorted| && |multiset(rates)| == |rates|;
    interval := Some((Round4(sorted[Low()]), Round4(sorted[High()])));
    if AllCoherent(rows) {
      GapsAreZeroOrOne(clusters, rows, k);
      QuantilesWithin(clusters, draw, sorted);
    }
  }

  lemma ClustersNotEmpty(clusters: seq<seq<int>>, rows: seq<RunRow>, k: int)
    requires Clusters(clusters, rows, k)
    ensures NoneEmpty(clusters)
  {
    forall cluster | cluster in clusters ensures cluster != [] {
      var i :| 0 <= i < |clusters| && clusters[i] == cluster;
      SeenHasGaps(rows, k, FirstSeen(rows, k)[i]);
    }
  }

  lemma {:induction false} WorldGapsAreZeroOrOne(rows: seq<RunRow>, k: int, world: string)
    requires AllCoherent(rows)
    ensures forall gap <- GapsIn(rows, k, world) :: gap == 0 || gap == 1
  {
    if rows != [] {
      var last := rows[|rows| - 1];
      assert last in rows;
      WorldGapsAreZeroOrOne(rows[..|rows| - 1], k, world);
      assert last.Gap(k).Some? ==> CoherentAt(last, k);
    }
  }

  lemma GapsAreZeroOrOne(clusters: seq<seq<int>>, rows: seq<RunRow>, k: int)
    requires Clusters(clusters, rows, k) && AllCoherent(rows)
    ensures ZeroOrOne(clusters)
  {
    forall cluster | cluster in clusters ensures forall gap <- cluster :: gap == 0 || gap == 1 {
      var i :| 0 <= i < |clusters| && clusters[i] == cluster;
      WorldGapsAreZeroOrOne(rows, k, FirstSeen(rows, k)[i]);
    }
  }

  lemma QuantilesWithin(clusters: seq<seq<int>>, draw: Draw, sorted: seq<real>)
    requires InRange(draw) && clusters != [] && NoneEmpty(clusters) && ZeroOrOne(clusters)
    requires |sorted| == BOOTSTRAP_RESAMPLES && SortedBy(RealLeq, sorted)
      && multiset(sorted) == multiset(Rates(clusters, draw))
    ensures 0.0 <= Round4(sorted[Low()]) <= Round4(sorted[High()]) <= 1.0
  {
    var rates := Rates(clusters, draw);
    forall i | 0 <= i < |sorted| ensures 0.0 <= sorted[i] <= 1.0 {
      assert sorted[i] in multiset(sorted);
      assert sorted[i] in rates;
      var round :| 0 <= round < |rates| && rates[round] == sorted[i];
      RateIsAFraction(Picks(clusters, draw, round));
    }
    assert RealLeq(sorted[Low()], sorted[High()]);
    RoundKeepsOrder(sorted[Low()], sorted[High()]);
  }

  // ----- What one draw of every world gives -----

  lemma {:induction false} WorldsHoldEveryGap(worlds: seq<string>, rows: seq<RunRow>, last: RunRow, k: int)
    requires forall i, j :: 0 <= i < j < |worlds| ==> worlds[i] != worlds[j]
    ensures SumIn(worlds, rows + [last], k) == SumIn(worlds, rows, k)
      + if last.Gap(k).Some? && last.world in worlds then last.Gap(k).value else 0
    ensures SizeIn(worlds, rows + [last], k) == SizeIn(worlds, rows, k)
      + if last.Gap(k).Some? && last.world in worlds then 1 else 0
  {
    if worlds != [] {
      var rest, world := worlds[..|worlds| - 1], worlds[|worlds| - 1];
      assert worlds == rest + [world];
      WorldsHoldEveryGap(rest, rows, last, k);
      OneMoreGap(rows, last, k, world);
    }
  }

  function SumIn(worlds: seq<string>, rows: seq<RunRow>, k: int): int {
    if worlds == [] then 0 else SumIn(worlds[..|worlds| - 1], rows, k) + Sum(GapsIn(rows, k, worlds[|worlds| - 1]))
  }

  function SizeIn(worlds: seq<string>, rows: seq<RunRow>, k: int): nat {
    if worlds == [] then 0 else SizeIn(worlds[..|worlds| - 1], rows, k) + |GapsIn(rows, k, worlds[|worlds| - 1])|
  }

  lemma OneMoreGap(rows: seq<RunRow>, last: RunRow, k: int, world: string)
    ensures var before, after := GapsIn(rows, k, world), GapsIn(rows + [last], k, world);
      if last.Gap(k).Some? && last.world == world then
        Sum(after) == Sum(before) + last.Gap(k).value && |after| == |before| + 1
      else after == before
  {
    assert (rows + [last])[..|rows|] == rows;
    var before := GapsIn(rows, k, world);
    assert last.Gap(k).Some? ==> (before + [last.Gap(k).value])[..|before|] == before;
  }

  lemma {:induction false} NothingIn(worlds: seq<string>, k: int)
    ensures SumIn(worlds, [], k) == 0 && SizeIn(worlds, [], k) == 0
  {
    if worlds != [] {
      NothingIn(worlds[..|worlds| - 1], k);
    }
  }

  lemma {:induction false} CoveredIsPooled(worlds: seq<string>, rows: seq<RunRow>, k: int)
    requires forall i, j :: 0 <= i < j < |worlds| ==> worlds[i] != worlds[j]
    requires forall row <- rows :: row.Gap(k).Some? ==> row.world in worlds
    ensures SumIn(worlds, rows, k) == AtK(rows, k).gap && SizeIn(worlds, rows, k) == AtK(rows, k).n
  {
    if rows == [] {
      NothingIn(worlds, k);
    } else {
      var init, last := rows[..|rows| - 1], rows[|rows| - 1];
      assert rows == init + [last] && last in rows;
      CoveredIsPooled(worlds, init, k);
      WorldsHoldEveryGap(worlds, init, last, k);
    }
  }

  lemma {:induction false} ClustersAreSums(clusters: seq<seq<int>>, worlds: seq<string>, rows: seq<RunRow>, k: int)
    requires |clusters| == |worlds| && forall i :: 0 <= i < |worlds| ==> clusters[i] == GapsIn(rows, k, worlds[i])
    ensures SumOf(clusters) == SumIn(worlds, rows, k) && SizeOf(clusters) == SizeIn(worlds, rows, k)
  {
    if worlds != [] {
      ClustersAreSums(clusters[..|clusters| - 1], worlds[..|worlds| - 1], rows, k);
    }
  }

  /** Clustering loses no run: picking every world once gives the pooled gap rate itself. */
  lemma EveryWorldOnceIsThePool(clusters: seq<seq<int>>, rows: seq<RunRow>, k: int)
    requires Clusters(clusters, rows, k) && clusters != []
    ensures NoneEmpty(clusters) && AtK(rows, k).n > 0
    ensures Rate(clusters) == AtK(rows, k).gap as real / AtK(rows, k).n as real
  {
    ClustersNotEmpty(clusters, rows, k);
    SizeIsPositive(clusters);
    var worlds := FirstSeen(rows, k);
    ClustersAreSums(clusters, worlds, rows, k);
    CoveredIsPooled(worlds, rows, k);
  }

  /** So a round that draws each world at its own place gives that rate. */
  lemma DrawnInPlaceIsThePool(clusters: seq<seq<int>>, rows: seq<RunRow>, k: int, draw: Draw, round: nat)
    requires InRange(draw) && Clusters(clusters, rows, k) && clusters != []
    requires forall i: nat :: i < |clusters| ==> draw(round, i, |clusters|) == i
    ensures NoneEmpty(Picks(clusters, draw, round)) && AtK(rows, k).n > 0
    ensures Rate(Picks(clusters, draw, round)) == AtK(rows, k).gap as real / AtK(rows, k).n as real
  {
    assert Picks(clusters, draw, round) == clusters;
    EveryWorldOnceIsThePool(clusters, rows, k);
  }

  /** And a round that draws one world throughout gives that world's own rate. */
  lemma DrawnAloneIsItsOwn(clusters: seq<seq<int>>, draw: Draw, round: nat, j: nat)
    requires InRange(draw) && j < |clusters| && NoneEmpty(clusters)
    requires forall i: nat :: i < |clusters| ==> draw(round, i, |clusters|) == j
    ensures NoneEmpty(Picks(clusters, draw, round)) && |clusters[j]| > 0
    ensures Rate(Picks(clusters, draw, round)) == Sum(clusters[j]) as real / |clusters[j]| as real
  {
    var picks := Picks(clusters, draw, round);
    assert forall i :: 0 <= i < |picks| ==> picks[i] == clusters[j];
    assert clusters[j] in clusters;
    SameThroughout(picks, clusters[j]);
    Cancelled(Sum(clusters[j]), |clusters[j]|, |picks|);
  }

  lemma {:induction false} SameThroughout(picks: seq<seq<int>>, cluster: seq<int>)
    requires forall i :: 0 <= i < |picks| ==> picks[i] == cluster
    ensures SumOf(picks) == |picks| * Sum(cluster) && SizeOf(picks) == |picks| * |cluster|
  {
    if picks != [] {
      SameThroughout(picks[..|picks| - 1], cluster);
    }
  }

  lemma Cancelled(a: int, b: int, n: int)
    requires b > 0 && n > 0
    ensures n * b > 0 && (n * a) as real / (n * b) as real == a as real / b as real
  {
    var q := a as real / b as real;
    assert q * b as real == a as real;
    assert q * (n * b) as real == (n * a) as real;
  }
}
