/**
 * The altitude chart's shading of the ideal observing windows: the night's altitude points are
 * cut into maximal runs of consecutive ideal points, each given by the indices of its first and
 * last point.
 */
module AltitudeChart {
  import opened AstronomyUtils

  /** A maximal run of ideal points: all of `first..last` are ideal, and the points around it are not. */
  predicate IsRun(data: seq<AltitudePoint>, r: (int, int))
  {
    && 0 <= r.0 <= r.1 < |data|
    && (forall j :: r.0 <= j <= r.1 ==> data[j].isIdeal)
    && (r.0 == 0 || !data[r.0 - 1].isIdeal)
    && (r.1 == |data| - 1 || !data[r.1 + 1].isIdeal)
  }

  /** Runs in order, with at least one point between two runs. */
  predicate Increasing(ranges: seq<(int, int)>)
  {
    forall k :: 0 <= k < |ranges| - 1 ==> ranges[k].1 + 1 < ranges[k + 1].0
  }

  predicate Covered(ranges: seq<(int, int)>, j: int)
  {
    exists k :: 0 <= k < |ranges| && ranges[k].0 <= j <= ranges[k].1
  }

  /** A run already closed by the non-ideal point after it. */
  predicate Closed(data: seq<AltitudePoint>, r: (int, int))
  {
    && 0 <= r.0 <= r.1 && r.1 + 1 < |data|
    && (forall j :: r.0 <= j <= r.1 ==> data[j].isIdeal)
    && (r.0 == 0 || !data[r.0 - 1].isIdeal)
    && !data[r.1 + 1].isIdeal
  }

  /** The run being scanned: it starts at `start` and every point up to `i` is ideal. */
  predicate Open(data: seq<AltitudePoint>, start: int, i: int)
  {
    && 0 <= start < i <= |data|
    && (forall j :: start <= j < i ==> data[j].isIdeal)
    && (start == 0 || !data[start - 1].isIdeal)
  }

  lemma CoveredAppend(prev: seq<(int, int)>, r: (int, int), j: int)
    requires Covered(prev, j) || r.0 <= j <= r.1
    ensures Covered(prev + [r], j)
  {
    var all := prev + [r];
    if r.0 <= j <= r.1 {
      assert all[|prev|] == r;
    } else {
      var k :| 0 <= k < |prev| && prev[k].0 <= j <= prev[k].1;
      assert all[k] == prev[k];
    }
  }

  /** Closing the open run at `e` keeps every ideal point seen so far covered. */
  lemma CloseRun(data: seq<AltitudePoint>, prev: seq<(int, int)>, start: int, e: int)
    requires e < |data|
    requires forall j :: 0 <= j <= e && data[j].isIdeal ==> Covered(prev, j) || start <= j
    ensures forall j :: 0 <= j <= e && data[j].isIdeal ==> Covered(prev + [(start, e)], j)
  {
    forall j | 0 <= j <= e && data[j].isIdeal ensures Covered(prev + [(start, e)], j) {
      CoveredAppend(prev, (start, e), j);
    }
  }

  /**
   * What the scan knows after the first `i` points: the runs closed so far, in order and before
   * `i`; the open run from `start` (-1 when none is open); every ideal point seen is in a closed
   * run or in the open one.
   */
  predicate Scanned(data: seq<AltitudePoint>, ranges: seq<(int, int)>, start: int, i: int)
  {
    && 0 <= i <= |data|
    && (forall k :: 0 <= k < |ranges| ==> Closed(data, ranges[k]) && ranges[k].1 + 1 < i)
    && (start != -1 ==> Open(data, start, i))
    && (start == -1 ==> i == 0 || !data[i - 1].isIdeal)
    && Increasing(ranges)
    && (start != -1 && |ranges| > 0 ==> ranges[|ranges| - 1].1 + 1 < start)
    && (forall j :: 0 <= j < i && data[j].isIdeal ==> Covered(ranges, j) || (start != -1 && start <= j))
  }

  /** An ideal point after a non-ideal one opens a run. */
  lemma StartRun(data: seq<AltitudePoint>, ranges: seq<(int, int)>, i: int)
    requires 0 <= i < |data| && data[i].isIdeal
    requires Scanned(data, ranges, -1, i)
    ensures Scanned(data, ranges, i, i + 1)
  {
  }

  /** A non-ideal point closes the open run at the point before it. */
  lemma EndRun(data: seq<AltitudePoint>, ranges: seq<(int, int)>, start: int, i: int)
    requires 0 <= i < |data| && !data[i].isIdeal && start != -1
    requires Scanned(data, ranges, start, i)
    ensures Scanned(data, ranges + [(start, i - 1)], -1, i + 1)
  {
    CloseRun(data, ranges, start, i - 1);
    var next := ranges + [(start, i - 1)];
    forall k | 0 <= k < |next| - 1 ensures next[k].1 + 1 < next[k + 1].0 {
      if k < |ranges| - 1 {
        assert next[k] == ranges[k] && next[k + 1] == ranges[k + 1];
      }
    }
  }

  /** A point that neither opens nor closes a run leaves the scan as it is. */
  lemma KeepRun(data: seq<AltitudePoint>, ranges: seq<(int, int)>, start: int, i: int)
    requires 0 <= i < |data| && (data[i].isIdeal <==> start != -1)
    requires Scanned(data, ranges, start, i)
    ensures Scanned(data, ranges, start, i + 1)
  {
  }

  /**
   * The loop of the chart over all points: the runs closed by a non-ideal point, and the start
   * of the run still open at the end (-1 when none is).
   */
  method ScanRuns(data: seq<AltitudePoint>) returns (ranges: seq<(int, int)>, start: int)
    ensures Scanned(data, ranges, start, |data|)
  {
    ranges := [];
    start := -1;
    var i := 0;
    while i < |data|
      invariant Scanned(data, ranges, start, i)
    {
      if data[i].isIdeal && start == -1 {
        StartRun(data, ranges, i);
        start := i;
      } else if !data[i].isIdeal && start != -1 {
        EndRun(data, ranges, start, i);
        ranges := ranges + [(start, i - 1)];
        start := -1;
      } else {
        KeepRun(data, ranges, start, i);
      }
      i := i + 1;
    }
  }

  /** At the end of the points, closing the open run covers every ideal point with a maximal run. */
  lemma FinishRuns(data: seq<AltitudePoint>, ranges: seq<(int, int)>, start: int)
    requires Scanned(data, ranges, start, |data|)
    ensures var all := if start != -1 then ranges + [(start, |data| - 1)] else ranges;
      && (forall k :: 0 <= k < |all| ==> IsRun(data, all[k]))
      && Increasing(all)
      && (forall j :: 0 <= j < |data| && data[j].isIdeal ==> Covered(all, j))
  {
    if start != -1 {
      CloseRun(data, ranges, start, |data| - 1);
      var all := ranges + [(start, |data| - 1)];
      forall k | 0 <= k < |all| - 1 ensures all[k].1 + 1 < all[k + 1].0 {
        if k < |ranges| - 1 {
          assert all[k] == ranges[k] && all[k + 1] == ranges[k + 1];
        }
      }
      forall k | 0 <= k < |all| ensures IsRun(data, all[k]) {
        if k < |ranges| { assert all[k] == ranges[k]; }
      }
    }
  }

  /**
   * The ideal ranges: each is a maximal run of ideal points, they come in order and apart, and
   * every ideal point lies in one of them; there are none exactly when no point is ideal.
   */
  method IdealRanges(data: seq<AltitudePoint>) returns (ranges: seq<(int, int)>)
    ensures forall k :: 0 <= k < |ranges| ==> IsRun(data, ranges[k])
    ensures Increasing(ranges)
    ensures forall j :: 0 <= j < |data| && data[j].isIdeal ==> Covered(ranges, j)
    ensures |ranges| == 0 <==> forall j :: 0 <= j < |data| ==> !data[j].isIdeal
  {
    IdealPointsEnds(data);
    if |IdealPoints(data)| == 0 {
      return [];
    }
    var start;
    ranges, start := ScanRuns(data);
    FinishRuns(data, ranges, start);
    if start != -1 {
      ranges := ranges + [(start, |data| - 1)];
    }
  }
}
