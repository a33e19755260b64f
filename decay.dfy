/** The contact-decay curve P(s) of the current bin order
    (`calculatePsDistribution`, script.js:454-526): the mean contact at
    each distance s between visual positions, the filter of the points
    worth fitting, and the choice of the best-supported power-law exponent
    among 100 randomly sampled point pairs. Logarithms and random draws
    are parameters. */
module Decay {
  import opened Wrappers

  /** A contact map: `m[a][b]` is the contact between original bins a, b. */
  type Matrix = seq<seq<real>>

  predicate Square(m: Matrix) {
    forall a :: 0 <= a < |m| ==> |m[a]| == |m|
  }

  /** Every entry of the order names a bin of an `n`-bin map. */
  predicate IdsIn(order: seq<int>, n: int) {
    forall k :: 0 <= k < |order| ==> 0 <= order[k] < n
  }

  /** The contact between visual positions i and j. */
  function Contact(m: Matrix, order: seq<int>, i: int, j: int): real
    requires Square(m) && IdsIn(order, |m|)
    requires 0 <= i < |order| && 0 <= j < |order|
  {
    m[order[i]][order[j]]
  }

  /** The sum of the contacts at distance d over the first `rows` rows:
      positions (0, d), (1, 1 + d), ..., (rows - 1, rows - 1 + d). */
  function DiagonalSum(m: Matrix, order: seq<int>, d: nat, rows: nat): real
    requires Square(m) && IdsIn(order, |m|) && rows + d <= |order|
  {
    if rows == 0 then 0.0
    else DiagonalSum(m, order, d, rows - 1) + Contact(m, order, rows - 1, rows - 1 + d)
  }

  /** The running sum and count kept per distance. */
  datatype Bucket = Bucket(sum: real, count: int)

  /** How many rows of distance d the double loop has visited before
      reaching position (i, j) of an n-by-n walk over `j >= i`. */
  function RowsDone(n: int, i: int, j: int, d: int): int {
    if d < j - i then i + 1 else if i < n - d then i else n - d
  }

  /** What the buckets hold when the double loop reaches position (i, j):
      distances not yet met have no bucket, the others hold the rows of
      their diagonal done so far. */
  ghost predicate BucketsAt(m: Matrix, order: seq<int>, n: nat, i: int, j: int, buckets: map<int, Bucket>)
    requires Square(m) && IdsIn(order, |m|) && n <= |order| && 0 <= i <= j <= n
  {
    (forall d :: d in buckets <==> 0 <= d < n && (0 < i || d < j))
    && (forall d :: d in buckets ==>
          buckets[d] == Bucket(DiagonalSum(m, order, d, RowsDone(n, i, j, d)), RowsDone(n, i, j, d)))
  }

  /** One pass of the inner loop: row i, columns `i <= j < n`. */
  method AddRow(m: Matrix, order: seq<int>, n: nat, i: nat, buckets0: map<int, Bucket>)
    returns (buckets: map<int, Bucket>)
    requires Square(m) && IdsIn(order, |m|) && n <= |order| && i < n
    requires BucketsAt(m, order, n, i, i, buckets0)
    ensures BucketsAt(m, order, n, i + 1, i + 1, buckets)
  {
    buckets := buckets0;
    var j := i;
    while j < n
      invariant i <= j <= n
      invariant BucketsAt(m, order, n, i, j, buckets)
    {
      var distance := if i - j < 0 then j - i else i - j;
      var contact := m[order[i]][order[j]];
      // a bucket is created on the first visit of its distance
      var bucket := if distance in buckets then buckets[distance] else Bucket(0.0, 0);
      buckets := buckets[distance := Bucket(bucket.sum + contact, bucket.count + 1)];
      j := j + 1;
    }
    assert forall d :: 0 <= d < n ==> RowsDone(n, i, n, d) == RowsDone(n, i + 1, i + 1, d);
  }

  /** The double loop over all positions `i <= j < n`: one bucket per
      distance, holding the sum of the contacts at that distance and how
      many pairs were added. Every distance `0 <= d < n` gets a bucket, and
      it counts exactly the `n - d` pairs at that distance. */
  method Buckets(m: Matrix, order: seq<int>, n: nat) returns (buckets: map<int, Bucket>)
    requires Square(m) && IdsIn(order, |m|) && n <= |order|
    ensures forall d :: d in buckets <==> 0 <= d < n
    ensures forall d :: 0 <= d < n ==> buckets[d] == Bucket(DiagonalSum(m, order, d, n - d), n - d)
  {
    buckets := map[];
    var i := 0;
    while i < n
      invariant 0 <= i <= n
      invariant BucketsAt(m, order, n, i, i, buckets)
    {
      buckets := AddRow(m, order, n, i, buckets);
      i := i + 1;
    }
    assert forall d :: 0 <= d < n ==> RowsDone(n, n, n, d) == n - d;
  }

  /** One point of the curve: distance s and mean contact p. */
  datatype PsPoint = PsPoint(s: int, p: real)

  /** The mean contact at distance d over the first n positions. */
  function MeanAt(m: Matrix, order: seq<int>, n: nat, d: nat): real
    requires Square(m) && IdsIn(order, |m|) && 1 <= d < n <= |order|
  {
    DiagonalSum(m, order, d, n - d) / ((n - d) as real)
  }

  /** The curve over the first n positions: every distance `1 <= d < n`,
      ascending, with its mean contact. */
  function Curve(m: Matrix, order: seq<int>, n: nat): seq<PsPoint>
    requires Square(m) && IdsIn(order, |m|) && n <= |order|
  {
    seq(if n == 0 then 0 else n - 1, k requires 0 <= k < n - 1 => PsPoint(k + 1, MeanAt(m, order, n, k + 1)))
  }

  /** Distances strictly increase along a list of points. */
  predicate Ascending(curve: seq<PsPoint>) {
    forall a, b :: 0 <= a < b < |curve| ==> curve[a].s < curve[b].s
  }

  /** The curve lists each distance once, ascending, so sorting it by
      distance (as the program does after collecting it) changes nothing. */
  lemma CurveAscending(m: Matrix, order: seq<int>, n: nat)
    requires Square(m) && IdsIn(order, |m|) && n <= |order|
    ensures Ascending(Curve(m, order, n))
    ensures forall q :: q in Curve(m, order, n) ==> 1 <= q.s < n
  {
  }

  /** Collecting the curve from the buckets, in the order the distances
      were first met (0, 1, 2, ...), leaving out distance 0. */
  method CollectCurve(m: Matrix, order: seq<int>, n: nat, buckets: map<int, Bucket>)
    returns (curve: seq<PsPoint>)
    requires Square(m) && IdsIn(order, |m|) && n <= |order|
    requires forall d :: d in buckets <==> 0 <= d < n
    requires forall d :: 0 <= d < n ==> buckets[d] == Bucket(DiagonalSum(m, order, d, n - d), n - d)
    ensures curve == Curve(m, order, n)
  {
    curve := [];
    var distance := 0;
    while distance < n
      invariant 0 <= distance <= n
      invariant |curve| == if distance == 0 then 0 else distance - 1
      invariant forall k :: 0 <= k < |curve| ==> curve[k] == PsPoint(k + 1, MeanAt(m, order, n, k + 1))
    {
      var value := buckets[distance];
      if distance > 0 {
        curve := curve + [PsPoint(distance, value.sum / (value.count as real))];
      }
      distance := distance + 1;
    }
    // psData.sort((a, b) => a.s - b.s) is stable and the list is already ascending
    CurveAscending(m, order, n);
  }

  /** `calculatePsDistribution`'s curve, over every position of the order:
      the mean contact at each distance 1 .. |order| - 1. */
  method PsCurve(m: Matrix, order: seq<int>) returns (curve: seq<PsPoint>)
    requires Square(m) && IdsIn(order, |m|)
    ensures curve == Curve(m, order, |order|)
  {
    var buckets := Buckets(m, order, |order|);
    curve := CollectCurve(m, order, |order|, buckets);
  }

  /** The curve as the program computes it: the double loop runs to
      `matrix.length`, not to the length of the order. An order shorter
      than the map (after a deletion) makes `order[i]` undefined and the
      contact lookup throws; an order longer than the map (after a
      duplication) has its tail ignored. */
  function CurveAsWritten(m: Matrix, order: seq<int>): (r: Result<seq<PsPoint>, string>)
    requires Square(m) && IdsIn(order, |m|)
    ensures r.Failure? <==> |order| < |m|
    ensures r.Success? ==> |r.value| == if |m| == 0 then 0 else |m| - 1
  {
    if |order| < |m| then Failure("TypeError: matrix[order[i]] is undefined")
    else Success(Curve(m, order, |m|))
  }

  /** The points kept for fitting: positive mean, not the nearest distance,
      and closer than 0.8 of the size (`s < size * 0.8`, exactly
      `5 * s < 4 * size` on integers). */
  predicate Fittable(q: PsPoint, size: int) {
    q.p > 0.0 && q.s > 1 && 5 * q.s < 4 * size
  }

  /** The filter of the fit candidates, keeping the curve's order. */
  function Candidates(curve: seq<PsPoint>, size: int): (r: seq<PsPoint>)
    ensures forall q :: q in r <==> q in curve && Fittable(q, size)
    ensures |r| <= |curve|
    ensures Ascending(curve) ==> Ascending(r)
  {
    if curve == [] then []
    else
      var rest := Candidates(curve[1..], size);
      assert forall q :: q in curve <==> q == curve[0] || q in curve[1..];
      if Fittable(curve[0], size) then
        assert Ascending(curve) ==> forall q :: q in rest ==> curve[0].s < q.s;
        [curve[0]] + rest
      else rest
  }

  /** Along an ascending list, the distances spread at least one apart. */
  lemma {:induction false} AscendingSpread(r: seq<PsPoint>)
    requires Ascending(r) && r != []
    ensures r[|r| - 1].s - r[0].s >= |r| - 1
  {
    if |r| > 1 {
      var init := r[..|r| - 1];
      assert Ascending(init);
      AscendingSpread(init);
      assert init[|init| - 1] == r[|r| - 2];
    }
  }

  /** An order of at most four positions never has more than two fit
      candidates (only distances 2 and 3 pass the filter), so it is never
      fitted. */
  lemma ShortOrdersNeverFit(m: Matrix, order: seq<int>)
    requires Square(m) && IdsIn(order, |m|) && |order| <= 4
    ensures |Candidates(Curve(m, order, |order|), |order|)| <= 2
  {
    var curve := Curve(m, order, |order|);
    CurveAscending(m, order, |order|);
    var r := Candidates(curve, |order|);
    if r != [] {
      AscendingSpread(r);
      assert r[0] in r && r[|r| - 1] in r;
    }
  }

  /** A point of the log-log plot. */
  datatype LogPoint = LogPoint(x: real, y: real)

  /** A strictly increasing function on the positive reals (as `Math.log`). */
  ghost predicate Increasing(ln: real -> real) {
    forall a: real, b: real :: 0.0 < a < b ==> ln(a) < ln(b)
  }

  /** The candidates on the log-log plot: `{x: log(s), y: log(p)}`. */
  function LogPoints(cands: seq<PsPoint>, ln: real -> real): (r: seq<LogPoint>)
    ensures |r| == |cands|
    ensures forall k :: 0 <= k < |r| ==> r[k] == LogPoint(ln(cands[k].s as real), ln(cands[k].p))
  {
    seq(|cands|, k requires 0 <= k < |cands| => LogPoint(ln(cands[k].s as real), ln(cands[k].p)))
  }

  /** No two points share an x, so every slope between two of them exists. */
  predicate DistinctX(pts: seq<LogPoint>) {
    forall a, b :: 0 <= a < |pts| && 0 <= b < |pts| && a != b ==> pts[a].x != pts[b].x
  }

  /** Ascending candidates at positive distances have distinct logs. */
  lemma LogPointsDistinct(cands: seq<PsPoint>, ln: real -> real)
    requires Ascending(cands) && (forall q :: q in cands ==> q.s > 1) && Increasing(ln)
    ensures DistinctX(LogPoints(cands, ln))
  {
    var pts := LogPoints(cands, ln);
    forall a, b | 0 <= a < |pts| && 0 <= b < |pts| && a < b
      ensures pts[a].x < pts[b].x
    {
      assert cands[a] in cands && cands[b] in cands;
      assert 0.0 < cands[a].s as real < cands[b].s as real;
    }
  }

  /** `Math.floor(u * len)`: the index a random draw `u` picks. */
  function Pick(u: real, len: nat): int {
    (u * (len as real)).Floor
  }

  /** A draw in [0, 1) picks an index of a non-empty list. */
  lemma PickInRange(u: real, len: nat)
    requires 0.0 <= u < 1.0 && len > 0
    ensures 0 <= Pick(u, len) < len
  {
    assert u * (len as real) < len as real;
  }

  /** Both members of every pair of draws lie in [0, 1). */
  predicate Draws(draws: seq<(real, real)>) {
    forall k :: 0 <= k < |draws| ==> 0.0 <= draws[k].0 < 1.0 && 0.0 <= draws[k].1 < 1.0
  }

  /** Both indices of every sampled pair are positions of a list of `len`. */
  predicate Samples(samples: seq<(int, int)>, len: int) {
    forall k :: 0 <= k < |samples| ==> 0 <= samples[k].0 < len && 0 <= samples[k].1 < len
  }

  /** The index pairs the draws pick (`idx1`, `idx2` of each iteration). */
  function Indices(draws: seq<(real, real)>, len: nat): (r: seq<(int, int)>)
    requires Draws(draws) && len > 0
    ensures |r| == |draws| && Samples(r, len)
    ensures forall k :: 0 <= k < |r| ==> r[k] == (Pick(draws[k].0, len), Pick(draws[k].1, len))
  {
    if draws == [] then []
    else
      var last := draws[|draws| - 1];
      PickInRange(last.0, len);
      PickInRange(last.1, len);
      Indices(draws[..|draws| - 1], len) + [(Pick(last.0, len), Pick(last.1, len))]
  }

  /** An exponent and the number of points that support it. */
  datatype Fit = Fit(alpha: real, inliers: int)

  /** The exponent of the line through two points, `-(dy / dx)`. */
  function Slope(a: LogPoint, b: LogPoint): real
    requires a.x != b.x
  {
    -(b.y - a.y) / (b.x - a.x)
  }

  /** The intercept of the line through `p` with exponent alpha,
      `p.y + alpha * p.x`. */
  function Intercept(p: LogPoint, alpha: real): real {
    p.y + alpha * p.x
  }

  /** A point within 0.5 of the line `y = intercept - alpha * x`. */
  predicate Inlier(q: LogPoint, alpha: real, intercept: real) {
    var error := intercept - alpha * q.x - q.y;
    -0.5 < error < 0.5
  }

  /** How many of the points are inliers of the line. */
  function CountInliers(pts: seq<LogPoint>, alpha: real, intercept: real): (n: nat)
    ensures n <= |pts|
  {
    if pts == [] then 0
    else CountInliers(pts[..|pts| - 1], alpha, intercept)
         + (if Inlier(pts[|pts| - 1], alpha, intercept) then 1 else 0)
  }

  /** One iteration of the sampling loop: the line through the two picked
      points and its inliers, or nothing when the same index is picked
      twice (`continue`). */
  function Trial(pts: seq<LogPoint>, sample: (int, int)): Option<Fit>
    requires DistinctX(pts) && 0 <= sample.0 < |pts| && 0 <= sample.1 < |pts|
  {
    var i1, i2 := sample.0, sample.1;
    if i1 == i2 then None
    else
      var alpha := Slope(pts[i1], pts[i2]);
      Some(Fit(alpha, CountInliers(pts, alpha, Intercept(pts[i1], alpha))))
  }

  /** Keep the best so far unless the trial has strictly more inliers. */
  function Improve(best: Fit, trial: Option<Fit>): Fit {
    if trial.Some? && trial.value.inliers > best.inliers then trial.value else best
  }

  /** The best fit over the samples in order, from the sentinel
      `Fit(-1, 0)`. */
  function BestFit(pts: seq<LogPoint>, samples: seq<(int, int)>): (best: Fit)
    requires DistinctX(pts) && Samples(samples, |pts|)
    ensures best == Fit(-1.0, 0) || best.inliers >= 2
  {
    if samples == [] then Fit(-1.0, 0)
    else
      TrialSupport(pts, samples[|samples| - 1]);
      Improve(BestFit(pts, samples[..|samples| - 1]), Trial(pts, samples[|samples| - 1]))
  }

  /** `Math.abs(predicted - d.y) < 0.5` is the inlier test. */
  lemma InlierByError(q: LogPoint, alpha: real, intercept: real)
    ensures var predicted := intercept - alpha * q.x;
            var error := if predicted - q.y < 0.0 then q.y - predicted else predicted - q.y;
            Inlier(q, alpha, intercept) <==> error < 0.5
  {
  }

  /** The inlier count of one trial (`logData.forEach`). */
  method CountNear(pts: seq<LogPoint>, alpha: real, intercept: real) returns (inliers: int)
    ensures inliers == CountInliers(pts, alpha, intercept)
  {
    inliers := 0;
    for k := 0 to |pts|
      invariant inliers == CountInliers(pts[..k], alpha, intercept)
    {
      assert pts[..k + 1][..k] == pts[..k];
      var predicted := intercept - alpha * pts[k].x;
      var error := if predicted - pts[k].y < 0.0 then pts[k].y - predicted else predicted - pts[k].y;
      InlierByError(pts[k], alpha, intercept);
      if error < 0.5 {
        inliers := inliers + 1;
      }
    }
    assert pts[..|pts|] == pts;
  }

  /** The sampling loop: 100 iterations, each over one sampled index pair
      (the indices `Math.floor(Math.random() * logData.length)` are drawn
      by the caller, see `Indices`), keeping the slope with the most
      inliers; ties keep the earlier slope. */
  method SelectAlpha(pts: seq<LogPoint>, samples: seq<(int, int)>) returns (bestAlpha: real, bestInliers: int)
    requires |pts| > 2 && DistinctX(pts)
    requires |samples| == 100 && Samples(samples, |pts|)
    ensures Fit(bestAlpha, bestInliers) == BestFit(pts, samples)
  {
    bestAlpha := -1.0;
    bestInliers := 0;
    for iter := 0 to 100
      invariant Fit(bestAlpha, bestInliers) == BestFit(pts, samples[..iter])
    {
      assert samples[..iter + 1][..iter] == samples[..iter];
      var (idx1, idx2) := samples[iter];
      if idx1 == idx2 {
        assert Trial(pts, samples[iter]) == None;
        continue;
      }
      var alpha := Slope(pts[idx1], pts[idx2]);
      var intercept := Intercept(pts[idx1], alpha);
      var inliers := CountNear(pts, alpha, intercept);
      assert Trial(pts, samples[iter]) == Some(Fit(alpha, inliers));
      if inliers > bestInliers {
        bestInliers := inliers;
        bestAlpha := alpha;
      }
    }
    assert samples[..100] == samples;
  }

  /** An inlier among the points counts. */
  lemma {:induction false} OneInlier(pts: seq<LogPoint>, alpha: real, intercept: real, a: int)
    requires 0 <= a < |pts| && Inlier(pts[a], alpha, intercept)
    ensures CountInliers(pts, alpha, intercept) >= 1
  {
    if a < |pts| - 1 {
      var init := pts[..|pts| - 1];
      assert init[a] == pts[a];
      OneInlier(init, alpha, intercept, a);
    }
  }

  /** Two different inliers among the points both count. */
  lemma {:induction false} TwoInliers(pts: seq<LogPoint>, alpha: real, intercept: real, a: int, b: int)
    requires 0 <= a < |pts| && 0 <= b < |pts| && a != b
    requires Inlier(pts[a], alpha, intercept) && Inlier(pts[b], alpha, intercept)
    ensures CountInliers(pts, alpha, intercept) >= 2
  {
    var last := |pts| - 1;
    var init := pts[..last];
    if a == last {
      assert init[b] == pts[b];
      OneInlier(init, alpha, intercept, b);
    } else if b == last {
      assert init[a] == pts[a];
      OneInlier(init, alpha, intercept, a);
    } else {
      assert init[a] == pts[a] && init[b] == pts[b];
      TwoInliers(init, alpha, intercept, a, b);
    }
  }

  /** The line through two points passes through both. */
  lemma LineThrough(p1: LogPoint, p2: LogPoint)
    requires p1.x != p2.x
    ensures var alpha := Slope(p1, p2);
            Inlier(p1, alpha, Intercept(p1, alpha)) && Inlier(p2, alpha, Intercept(p1, alpha))
  {
    var alpha := Slope(p1, p2);
    assert alpha * (p2.x - p1.x) == -(p2.y - p1.y);
    assert (p1.y + alpha * p1.x) - alpha * p2.x - p2.y == 0.0;
  }

  /** Every trial that samples two different points is supported by at
      least those two points. */
  lemma TrialSupport(pts: seq<LogPoint>, sample: (int, int))
    requires DistinctX(pts) && 0 <= sample.0 < |pts| && 0 <= sample.1 < |pts|
    ensures Trial(pts, sample).Some? <==> sample.0 != sample.1
    ensures Trial(pts, sample).Some? ==> Trial(pts, sample).value.inliers >= 2
  {
    var i1, i2 := sample.0, sample.1;
    if i1 != i2 {
      LineThrough(pts[i1], pts[i2]);
      var alpha := Slope(pts[i1], pts[i2]);
      var intercept := Intercept(pts[i1], alpha);
      assert Trial(pts, sample) == Some(Fit(alpha, CountInliers(pts, alpha, intercept)));
      TwoInliers(pts, alpha, intercept, i1, i2);
    }
  }

  /** The chosen fit has at least as many inliers as every trial. */
  lemma {:induction false} BestFitDominates(pts: seq<LogPoint>, samples: seq<(int, int)>)
    requires DistinctX(pts) && Samples(samples, |pts|)
    ensures BestFit(pts, samples).inliers >= 0
    ensures forall k :: 0 <= k < |samples| && Trial(pts, samples[k]).Some? ==>
              Trial(pts, samples[k]).value.inliers <= BestFit(pts, samples).inliers
  {
    if samples != [] {
      var init := samples[..|samples| - 1];
      BestFitDominates(pts, init);
      forall k | 0 <= k < |init|
        ensures samples[k] == init[k]
      {
      }
    }
  }

  /** The chosen fit is the sentinel `Fit(-1, 0)` or the first trial that
      reached the best inlier count: every earlier trial had fewer. */
  lemma {:induction false} BestFitIsFirstBest(pts: seq<LogPoint>, samples: seq<(int, int)>)
    requires DistinctX(pts) && Samples(samples, |pts|)
    ensures var best := BestFit(pts, samples);
            best == Fit(-1.0, 0)
            || exists k :: 0 <= k < |samples| && Trial(pts, samples[k]) == Some(best)
                 && forall j :: 0 <= j < k && Trial(pts, samples[j]).Some? ==>
                      Trial(pts, samples[j]).value.inliers < best.inliers
  {
    if samples != [] {
      var init := samples[..|samples| - 1];
      var last := |samples| - 1;
      BestFitIsFirstBest(pts, init);
      var before := BestFit(pts, init);
      var best := BestFit(pts, samples);
      forall k | 0 <= k < |init|
        ensures samples[k] == init[k]
      {
      }
      if best != before {
        BestFitDominates(pts, init);
        assert Trial(pts, samples[last]) == Some(best);
        assert forall j :: 0 <= j < last && Trial(pts, samples[j]).Some? ==>
                 Trial(pts, samples[j]).value.inliers < best.inliers;
      }
    }
  }

  /** The sentinel survives exactly when no iteration sampled two
      different points. */
  lemma {:induction false} SentinelIffNoPair(pts: seq<LogPoint>, samples: seq<(int, int)>)
    requires DistinctX(pts) && Samples(samples, |pts|)
    ensures (BestFit(pts, samples) == Fit(-1.0, 0))
              <==> (forall k :: 0 <= k < |samples| ==> samples[k].0 == samples[k].1)
  {
    BestFitDominates(pts, samples);
    if samples != [] {
      var init := samples[..|samples| - 1];
      var last := |samples| - 1;
      SentinelIffNoPair(pts, init);
      forall k | 0 <= k < |init|
        ensures samples[k] == init[k]
      {
      }
      TrialSupport(pts, samples[last]);
      forall k | 0 <= k < |samples|
        ensures Trial(pts, samples[k]).Some? <==> samples[k].0 != samples[k].1
        ensures Trial(pts, samples[k]).Some? ==> Trial(pts, samples[k]).value.inliers >= 2
      {
        TrialSupport(pts, samples[k]);
      }
    }
  }

  /** What the program keeps of the analysis (`psData`): the curve and the
      fitted exponent. */
  datatype PsData = PsData(data: seq<PsPoint>, alpha: real)

  /** The fitting step after the curve is built: with more than two fit
      candidates, the exponent chosen over the 100 draws; with two or
      fewer, no analysis at all, so the score falls back to 0. */
  function Analyze(curve: seq<PsPoint>, size: int, ln: real -> real, draws: seq<(real, real)>): (r: Option<PsData>)
    requires Ascending(curve) && Increasing(ln) && |draws| == 100 && Draws(draws)
    ensures r.Some? <==> |Candidates(curve, size)| > 2
    ensures r.Some? ==> r.value.data == curve
  {
    var cands := Candidates(curve, size);
    var pts := LogPoints(cands, ln);
    if |pts| > 2 then
      LogPointsDistinct(cands, ln);
      Some(PsData(curve, BestFit(pts, Indices(draws, |pts|)).alpha))
    else None
  }

  /** The fitting step as the program writes it: `psData` is assigned only
      inside `if (logData.length > 2)`, so with two or fewer candidates the
      previous analysis stays in place. */
  function AnalyzeAsWritten(prev: Option<PsData>, curve: seq<PsPoint>, size: int, ln: real -> real,
                            draws: seq<(real, real)>): (r: Option<PsData>)
    requires Ascending(curve) && Increasing(ln) && |draws| == 100 && Draws(draws)
    ensures |Candidates(curve, size)| > 2 ==> r == Analyze(curve, size, ln, draws)
    ensures |Candidates(curve, size)| <= 2 ==> r == prev
  {
    var cands := Candidates(curve, size);
    var pts := LogPoints(cands, ln);
    if |pts| > 2 then
      LogPointsDistinct(cands, ln);
      Some(PsData(curve, BestFit(pts, Indices(draws, |pts|)).alpha))
    else prev
  }

  /** `calculatePsDistribution` over the whole current order, with the
      logarithm and the random draws supplied: the curve, then the fit
      when more than two candidates survive. */
  method Distribution(m: Matrix, order: seq<int>, ln: real -> real, draws: seq<(real, real)>)
    returns (psData: Option<PsData>)
    requires Square(m) && IdsIn(order, |m|)
    requires Increasing(ln) && |draws| == 100 && Draws(draws)
    ensures Ascending(Curve(m, order, |order|))
    ensures psData == Analyze(Curve(m, order, |order|), |order|, ln, draws)
  {
    var curve := PsCurve(m, order);
    CurveAscending(m, order, |order|);
    var cands := Candidates(curve, |order|);
    var pts := LogPoints(cands, ln);
    if |pts| > 2 {
      LogPointsDistinct(cands, ln);
      var alpha, inliers := SelectAlpha(pts, Indices(draws, |pts|));
      psData := Some(PsData(curve, alpha));
    } else {
      psData := None;
    }
  }
}
