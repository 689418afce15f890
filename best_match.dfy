/**
 * select_best_matching (sensum/preprocess.py:538-579): the consensus step of
 * co-registration. The candidate rows are sorted by slope and cut into runs
 * wherever the next slope exceeds the previous one by more than 0.1. Every
 * run with more than 3 rows is scored by the variance of its shift magnitudes,
 * ties going to the larger run, and the lowest-distance row of the winning run
 * is returned, or a fixed sentinel row when no run qualifies.
 */
module BestMatch {
  import opened PyCore
  import opened Sorting

  /** One row of the comparison stack:
      [distance, shift_magnitude, slope, x_ref, y_ref, x_tg, y_tg]. */
  datatype Row = Row(distance: real, magnitude: real, slope: real,
                     xRef: real, yRef: real, xTg: real, yTg: real)

  /** The row returned when no run qualifies; gcp_extraction also seeds its stack with it. */
  const SENTINEL := Row(100.0, 1.5, 0.0, 1.0, 1.0, 2.0, 2.0)

  /** A run ends where the next slope exceeds the previous one by more than this. */
  const SLOPE_TOLERANCE := 0.1

  /** The variance a qualifying run must not exceed: best_variability's initial value. */
  const INITIAL_VARIABILITY := 5.0

  /** A run needs more than this many rows to be scored. */
  const MIN_ROWS_EXCLUSIVE := 3

  function SlopeOf(r: Row): real { r.slope }

  function DistanceOf(r: Row): real { r.distance }

  /** How much the slope rises from one row to the next. */
  function Rise(prev: Row, next: Row): real { next.slope - prev.slope }

  // ---------------------------------------------------------------------------
  // Split points and runs (preprocess.py:550-551, 558-559, 578)
  // ---------------------------------------------------------------------------

  /** The split points at or after index j: the indices i >= j (with 1 <= i < |rows|)
      where rows[i].slope - rows[i - 1].slope > 0.1, followed by |rows|. */
  function CutsFrom(rows: seq<Row>, j: nat): (spl: seq<nat>)
    requires 1 <= j
    ensures |spl| >= 1 && spl[|spl| - 1] == |rows|
    ensures forall a :: 0 <= a < |spl| ==> spl[a] <= |rows| && (j <= spl[a] || spl[a] == |rows|)
    ensures forall a, b :: 0 <= a < b < |spl| ==> spl[a] < spl[b]
    ensures forall i :: j <= i < |rows| ==> (i in spl <==> Rise(rows[i - 1], rows[i]) > SLOPE_TOLERANCE)
    decreases |rows| - j
  {
    if j >= |rows| then [|rows|]
    else if Rise(rows[j - 1], rows[j]) > SLOPE_TOLERANCE then [j] + CutsFrom(rows, j + 1)
    else CutsFrom(rows, j + 1)
  }

  /** The index a run starts at: 0 for the first, the previous split point otherwise. */
  function Start(spl: seq<nat>, k: nat): nat
    requires k <= |spl|
  {
    if k == 0 then 0 else spl[k - 1]
  }

  /** Split points in non-decreasing order, none beyond n. */
  predicate ValidSplits(spl: seq<nat>, n: nat)
  {
    && (forall a, b :: 0 <= a < b < |spl| ==> spl[a] <= spl[b])
    && (forall a :: 0 <= a < |spl| ==> spl[a] <= n)
  }

  /** np.append(np.where(np.diff(slopes) > 0.1)[0] + 1, len(compstack)). */
  function SplitPoints(rows: seq<Row>): (spl: seq<nat>)
    ensures |spl| >= 1 && spl[|spl| - 1] == |rows|
    ensures ValidSplits(spl, |rows|)
    ensures forall a, b :: 0 <= a < b < |spl| ==> spl[a] < spl[b]
    ensures |rows| > 0 ==> forall a :: 0 <= a < |spl| ==> 1 <= spl[a]
    ensures |rows| == 0 ==> spl == [0]
    ensures forall i :: 1 <= i < |rows| ==> (i in spl <==> Rise(rows[i - 1], rows[i]) > SLOPE_TOLERANCE)
  {
    CutsFrom(rows, 1)
  }

  /** The runs compstack[step:i] the loop visits, one per split point. */
  function Runs(rows: seq<Row>, spl: seq<nat>): (runs: seq<seq<Row>>)
    requires ValidSplits(spl, |rows|)
    ensures |runs| == |spl|
    ensures forall k {:trigger runs[k]} :: 0 <= k < |spl| ==> runs[k] == rows[Start(spl, k)..spl[k]]
  {
    seq(|spl|, k requires 0 <= k < |spl| => rows[Start(spl, k)..spl[k]])
  }

  function Flatten(runs: seq<seq<Row>>): seq<Row>
  {
    if |runs| == 0 then [] else Flatten(runs[..|runs| - 1]) + runs[|runs| - 1]
  }

  lemma {:induction false} FlattenRunsPrefix(rows: seq<Row>, spl: seq<nat>, k: nat)
    requires ValidSplits(spl, |rows|) && k <= |spl|
    ensures Flatten(Runs(rows, spl)[..k]) == rows[..Start(spl, k)]
  {
    if k > 0 {
      FlattenRunsPrefix(rows, spl, k - 1);
      var runs := Runs(rows, spl);
      assert runs[..k][..k - 1] == runs[..k - 1];
      assert rows[..Start(spl, k - 1)] + rows[Start(spl, k - 1)..spl[k - 1]] == rows[..spl[k - 1]];
    }
  }

  /** The runs, concatenated in order, are the rows. */
  lemma RunsCoverRows(rows: seq<Row>)
    ensures Flatten(Runs(rows, SplitPoints(rows))) == rows
  {
    var spl := SplitPoints(rows);
    var runs := Runs(rows, spl);
    FlattenRunsPrefix(rows, spl, |spl|);
    assert runs[..|spl|] == runs;
  }

  /** For a non-empty stack every run is non-empty. */
  lemma RunsNonEmpty(rows: seq<Row>)
    requires |rows| > 0
    ensures forall k :: 0 <= k < |Runs(rows, SplitPoints(rows))| ==> |Runs(rows, SplitPoints(rows))[k]| > 0
  {
    var spl := SplitPoints(rows);
    forall k | 0 <= k < |spl|
      ensures Start(spl, k) < spl[k]
    {
      if k > 0 {
        assert spl[k - 1] < spl[k];
      }
    }
  }

  /** Inside a run, consecutive slopes rise by at most 0.1. */
  lemma RunsWithinTolerance(rows: seq<Row>)
    ensures var runs := Runs(rows, SplitPoints(rows));
      forall k, i :: 0 <= k < |runs| && 1 <= i < |runs[k]| ==>
        Rise(runs[k][i - 1], runs[k][i]) <= SLOPE_TOLERANCE
  {
    var spl := SplitPoints(rows);
    var runs: seq<seq<Row>> := Runs(rows, spl);
    forall k: int, i: int | 0 <= k < |runs| && 1 <= i < |runs[k]|
      ensures Rise(runs[k][i - 1], runs[k][i]) <= SLOPE_TOLERANCE
    {
      var g := Start(spl, k) + i;
      assert runs[k][i] == rows[g] && runs[k][i - 1] == rows[g - 1];
      BetweenSplits(spl, k, g);
    }
  }

  /** No split point lies strictly inside the k-th run. */
  lemma BetweenSplits(spl: seq<nat>, k: nat, g: nat)
    requires k < |spl| && Start(spl, k) < g < spl[k]
    requires forall a, b :: 0 <= a < b < |spl| ==> spl[a] < spl[b]
    ensures g !in spl
  {
    forall a | 0 <= a < |spl|
      ensures spl[a] != g
    {
      if a < k {
        assert spl[a] <= spl[k - 1];
      } else if a > k {
        assert spl[k] < spl[a];
      }
    }
  }

  /** Run k (k >= 1) and the run before it are non-empty, and the slope rises by
      more than 0.1 from the last row of the one to the first row of the other. */
  predicate BreakBefore(runs: seq<seq<Row>>, k: nat)
    requires 0 < k < |runs|
  {
    && |runs[k - 1]| > 0 && |runs[k]| > 0
    && Rise(runs[k - 1][|runs[k - 1]| - 1], runs[k][0]) > SLOPE_TOLERANCE
  }

  /** Between consecutive runs the slope rises by more than 0.1. */
  lemma RunsBreakApart(rows: seq<Row>)
    ensures var runs := Runs(rows, SplitPoints(rows));
      forall k :: 0 < k < |runs| ==> BreakBefore(runs, k)
  {
    var spl := SplitPoints(rows);
    var runs: seq<seq<Row>> := Runs(rows, spl);
    forall k: int | 0 < k < |runs|
      ensures BreakBefore(runs, k)
    {
      var s := spl[k - 1];
      assert s < spl[k];
      if k >= 2 {
        assert spl[k - 2] < s;
      }
      assert 1 <= s < |rows|;
      assert s in spl;
      assert runs[k][0] == rows[s];
      assert runs[k - 1][|runs[k - 1]| - 1] == rows[s - 1];
    }
  }

  // ---------------------------------------------------------------------------
  // Scoring the runs (preprocess.py:553-577)
  // ---------------------------------------------------------------------------

  /** Column 1 of the run: the shift magnitudes. */
  function Magnitudes(run: seq<Row>): seq<real>
  {
    seq(|run|, i requires 0 <= i < |run| => run[i].magnitude)
  }

  /** np.var of the run's shift magnitudes. */
  function RunVariance(run: seq<Row>): real
    requires |run| > 0
  {
    Variance(Magnitudes(run))
  }

  /** The first row of run[run[:,0].argsort()]: a row of the run with the least distance. */
  function MinDistanceRow(run: seq<Row>): (r: Row)
    requires |run| > 0
    ensures r in run
    ensures forall i :: 0 <= i < |run| ==> r.distance <= run[i].distance
  {
    if |run| == 1 then run[0]
    else
      var m := MinDistanceRow(run[..|run| - 1]);
      if run[|run| - 1].distance < m.distance then run[|run| - 1] else m
  }

  /** The loop state: best_variability, len_bestvariab and best_row. */
  datatype Best = Best(variability: real, count: nat, row: Row)

  const INITIAL := Best(INITIAL_VARIABILITY, 0, SENTINEL)

  /** One iteration of the loop body on the run compstack[step:i]. (np.var of an
      empty run is NaN, and every comparison with NaN is false; checking the
      length first gives the same outcome.) */
  function Step(b: Best, run: seq<Row>): Best
  {
    if |run| > MIN_ROWS_EXCLUSIVE && RunVariance(run) <= b.variability then
      var v := RunVariance(run);
      if v < b.variability then Best(v, |run|, MinDistanceRow(run))
      else if v == b.variability && |run| > b.count then Best(v, |run|, MinDistanceRow(run))
      else b
    else b
  }

  /** The loop state after the first |runs| iterations. */
  function FoldPrefix(runs: seq<seq<Row>>): Best
  {
    if |runs| == 0 then INITIAL else Step(FoldPrefix(runs[..|runs| - 1]), runs[|runs| - 1])
  }

  /** What select_best_matching returns for a stack already in slope order. */
  function Selection(rows: seq<Row>): Row
  {
    FoldPrefix(Runs(rows, SplitPoints(rows))).row
  }

  method SelectBestMatching(compstack: seq<Row>) returns (bestRow: Row)
    ensures bestRow == Selection(SortBy(compstack, SlopeOf))
  {
    var rows := SortBy(compstack, SlopeOf);
    bestRow := ScanRuns(rows);
  }

  /** The loop over the split points of a stack already in slope order. */
  method ScanRuns(rows: seq<Row>) returns (bestRow: Row)
    ensures bestRow == Selection(rows)
  {
    var splSlope := SplitPoints(rows);
    ghost var runs := Runs(rows, splSlope);
    var step := 0;
    var bestVariability := INITIAL_VARIABILITY;
    var lenBestVariab: nat := 0;
    bestRow := SENTINEL;
    for k := 0 to |splSlope|
      invariant step == Start(splSlope, k)
      invariant Best(bestVariability, lenBestVariab, bestRow) == FoldPrefix(runs[..k])
    {
      var i := splSlope[k];
      var temp := rows[step..i];
      assert temp == runs[k];
      assert runs[..k + 1][..k] == runs[..k];
      bestVariability, lenBestVariab, bestRow := ScoreRun(bestVariability, lenBestVariab, bestRow, temp);
      step := i;
    }
    assert runs[..|splSlope|] == runs;
  }

  /** The loop body for one run compstack[step:i]: the two tests of the source
      and the state they leave. */
  method ScoreRun(bestVariability: real, lenBestVariab: nat, bestRow: Row, temp: seq<Row>)
    returns (variability: real, count: nat, row: Row)
    ensures Best(variability, count, row) == Step(Best(bestVariability, lenBestVariab, bestRow), temp)
  {
    variability, count, row := bestVariability, lenBestVariab, bestRow;
    if |temp| > MIN_ROWS_EXCLUSIVE && RunVariance(temp) <= variability {
      var variabTemp := RunVariance(temp);
      if variabTemp < variability {
        variability := variabTemp;
        count := |temp|;
        row := MinDistanceRow(temp);
      }
      if variabTemp == variability {
        if |temp| > count {
          variability := variabTemp;
          count := |temp|;
          row := MinDistanceRow(temp);
        }
      }
    }
  }

  // ---------------------------------------------------------------------------
  // What the selection promises
  // ---------------------------------------------------------------------------

  /** A run that takes part in the scoring: more than 3 rows and variance at most 5. */
  predicate Qualifies(run: seq<Row>)
  {
    |run| > MIN_ROWS_EXCLUSIVE && RunVariance(run) <= INITIAL_VARIABILITY
  }

  /** Run w qualifies; no qualifying run has a lower variance, or the same variance
      and more rows; and every qualifying run before it is strictly worse (so w is
      the first of the best). */
  predicate IsWinner(runs: seq<seq<Row>>, w: nat)
    requires w < |runs|
  {
    && Qualifies(runs[w])
    && (forall j :: 0 <= j < |runs| && Qualifies(runs[j]) ==>
          RunVariance(runs[w]) < RunVariance(runs[j]) ||
          (RunVariance(runs[w]) == RunVariance(runs[j]) && |runs[j]| <= |runs[w]|))
    && (forall j :: 0 <= j < w && Qualifies(runs[j]) ==>
          RunVariance(runs[w]) < RunVariance(runs[j]) ||
          (RunVariance(runs[w]) == RunVariance(runs[j]) && |runs[j]| < |runs[w]|))
  }

  function Record(run: seq<Row>): Best
    requires |run| > 0
  {
    Best(RunVariance(run), |run|, MinDistanceRow(run))
  }

  /** What the loop state says about the runs visited so far: it is untouched
      exactly when none of them qualifies, and otherwise records the first best. */
  predicate Summarises(runs: seq<seq<Row>>, b: Best)
  {
    && b.variability <= INITIAL_VARIABILITY
    && (b.count == 0 <==> forall j :: 0 <= j < |runs| ==> !Qualifies(runs[j]))
    && (b.count == 0 ==> b == INITIAL)
    && (b.count > 0 ==> exists w :: 0 <= w < |runs| && IsWinner(runs, w) && b == Record(runs[w]))
  }

  /** The step after a prefix in which nothing qualified. */
  lemma ExtendUntouched(runs: seq<seq<Row>>)
    requires |runs| > 0
    requires forall j :: 0 <= j < |runs| - 1 ==> !Qualifies(runs[j])
    requires FoldPrefix(runs[..|runs| - 1]) == INITIAL
    ensures Summarises(runs, FoldPrefix(runs))
  {
    var n := |runs| - 1;
    var last := runs[n];
    assert FoldPrefix(runs) == Step(INITIAL, last);
    if Qualifies(last) {
      assert Step(INITIAL, last) == Record(last);
      forall j | 0 <= j < |runs| && Qualifies(runs[j])
        ensures j == n
      {
      }
      assert IsWinner(runs, n);
    } else {
      assert Step(INITIAL, last) == INITIAL;
    }
  }

  /** A run that beats the recorded best of the prefix is the first best of all. */
  lemma ChallengerWins(runs: seq<seq<Row>>, w0: nat)
    requires w0 < |runs| - 1
    requires IsWinner(runs[..|runs| - 1], w0)
    requires var last := runs[|runs| - 1];
      |last| > MIN_ROWS_EXCLUSIVE && RunVariance(last) <= RunVariance(runs[w0]) &&
      (RunVariance(last) < RunVariance(runs[w0]) || |last| > |runs[w0]|)
    ensures IsWinner(runs, |runs| - 1)
  {
    var n := |runs| - 1;
    var prefix := runs[..n];
    assert prefix[w0] == runs[w0];
    var vn := RunVariance(runs[n]);
    forall j | 0 <= j < n && Qualifies(runs[j])
      ensures vn < RunVariance(runs[j]) || (vn == RunVariance(runs[j]) && |runs[j]| < |runs[n]|)
    {
      assert prefix[j] == runs[j];
    }
  }

  /** A run that does not beat the recorded best leaves it the first best of all. */
  lemma HolderWins(runs: seq<seq<Row>>, w0: nat)
    requires w0 < |runs| - 1
    requires IsWinner(runs[..|runs| - 1], w0)
    requires var last := runs[|runs| - 1];
      !(|last| > MIN_ROWS_EXCLUSIVE && RunVariance(last) <= RunVariance(runs[w0]) &&
        (RunVariance(last) < RunVariance(runs[w0]) || |last| > |runs[w0]|))
    ensures IsWinner(runs, w0)
  {
    var n := |runs| - 1;
    var prefix := runs[..n];
    assert prefix[w0] == runs[w0];
    var vw := RunVariance(runs[w0]);
    forall j | 0 <= j < |runs| && Qualifies(runs[j])
      ensures vw < RunVariance(runs[j]) || (vw == RunVariance(runs[j]) && |runs[j]| <= |runs[w0]|)
    {
      if j < n {
        assert prefix[j] == runs[j];
      }
    }
    forall j | 0 <= j < w0 && Qualifies(runs[j])
      ensures vw < RunVariance(runs[j]) || (vw == RunVariance(runs[j]) && |runs[j]| < |runs[w0]|)
    {
      assert prefix[j] == runs[j];
    }
  }

  /** The step after a prefix whose first best run is w0. */
  lemma ExtendRecorded(runs: seq<seq<Row>>, w0: nat)
    requires w0 < |runs| - 1
    requires IsWinner(runs[..|runs| - 1], w0)
    requires FoldPrefix(runs[..|runs| - 1]) == Record(runs[w0])
    ensures Summarises(runs, FoldPrefix(runs))
  {
    var n := |runs| - 1;
    var last := runs[n];
    var b0 := Record(runs[w0]);
    assert FoldPrefix(runs) == Step(b0, last);
    if |last| > MIN_ROWS_EXCLUSIVE && RunVariance(last) <= b0.variability &&
       (RunVariance(last) < b0.variability || |last| > b0.count) {
      ChallengerWins(runs, w0);
      assert FoldPrefix(runs) == Record(last);
    } else {
      HolderWins(runs, w0);
      assert FoldPrefix(runs) == b0;
    }
  }

  /** After any number of iterations the loop state summarises the runs so far. */
  lemma {:induction false} FoldPrefixWinner(runs: seq<seq<Row>>)
    ensures var b := FoldPrefix(runs);
      && b.variability <= INITIAL_VARIABILITY
      && (b.count == 0 <==> forall j :: 0 <= j < |runs| ==> !Qualifies(runs[j]))
      && (b.count == 0 ==> b == INITIAL)
      && (b.count > 0 ==> exists w :: 0 <= w < |runs| && IsWinner(runs, w) && b == Record(runs[w]))
  {
    if |runs| == 0 {
      return;
    }
    var n := |runs| - 1;
    var prefix := runs[..n];
    FoldPrefixWinner(prefix);
    var b0 := FoldPrefix(prefix);
    assert forall j :: 0 <= j < n ==> prefix[j] == runs[j];
    if b0.count == 0 {
      ExtendUntouched(runs);
    } else {
      var w0 :| 0 <= w0 < n && IsWinner(prefix, w0) && b0 == Record(prefix[w0]);
      ExtendRecorded(runs, w0);
    }
  }

  /** The selection from a slope-sorted stack: the sentinel exactly when no run
      qualifies; otherwise the least-distance row of the first run that has the least
      variance among the qualifying runs and, among those, the most rows. */
  lemma SelectionSpec(rows: seq<Row>)
    ensures var runs := Runs(rows, SplitPoints(rows));
      && ((forall j :: 0 <= j < |runs| ==> !Qualifies(runs[j])) ==> Selection(rows) == SENTINEL)
      && ((exists j :: 0 <= j < |runs| && Qualifies(runs[j])) ==>
            exists w :: 0 <= w < |runs| && IsWinner(runs, w) && Selection(rows) == MinDistanceRow(runs[w]))
  {
    FoldPrefixWinner(Runs(rows, SplitPoints(rows)));
  }

  /** A returned row is either the sentinel or one of the input rows. */
  lemma SelectionIsARow(rows: seq<Row>)
    ensures Selection(rows) == SENTINEL || Selection(rows) in rows
  {
    var runs := Runs(rows, SplitPoints(rows));
    FoldPrefixRow(runs);
    if FoldPrefix(runs).row != SENTINEL {
      var w, i :| 0 <= w < |runs| && 0 <= i < |runs[w]| && FoldPrefix(runs).row == runs[w][i];
      InFlatten(runs, w, i);
      RunsCoverRows(rows);
    }
  }

  /** Every row of a run is a row of the concatenation. */
  lemma {:induction false} InFlatten(runs: seq<seq<Row>>, w: nat, i: nat)
    requires w < |runs| && i < |runs[w]|
    ensures runs[w][i] in Flatten(runs)
  {
    var init := runs[..|runs| - 1];
    if w < |runs| - 1 {
      InFlatten(init, w, i);
      assert init[w] == runs[w];
    } else {
      assert Flatten(runs)[|Flatten(init)| + i] == runs[w][i];
    }
  }

  /** The recorded row is the sentinel or a row of one of the runs. */
  lemma {:induction false} FoldPrefixRow(runs: seq<seq<Row>>)
    ensures var r := FoldPrefix(runs).row;
      r == SENTINEL || exists w, i :: 0 <= w < |runs| && 0 <= i < |runs[w]| && r == runs[w][i]
  {
    if |runs| > 0 {
      var init := runs[..|runs| - 1];
      var last := runs[|runs| - 1];
      FoldPrefixRow(init);
      var r := FoldPrefix(runs).row;
      if r != FoldPrefix(init).row {
        var m := MinDistanceRow(last);
        var i :| 0 <= i < |last| && last[i] == m;
        assert r == runs[|runs| - 1][i];
      } else if r != SENTINEL {
        var w, i :| 0 <= w < |init| && 0 <= i < |init[w]| && r == init[w][i];
        assert r == runs[w][i];
      }
    }
  }

  /** With fewer than four rows no run can qualify, so the sentinel is returned. */
  lemma FewRowsGiveSentinel(rows: seq<Row>)
    requires |rows| <= MIN_ROWS_EXCLUSIVE
    ensures Selection(rows) == SENTINEL
  {
    var spl := SplitPoints(rows);
    var runs := Runs(rows, spl);
    FoldPrefixWinner(runs);
    forall j | 0 <= j < |runs|
      ensures !Qualifies(runs[j])
    {
      assert |runs[j]| <= |rows|;
    }
  }

  /** If one qualifying run has a strictly lower variance than every other
      qualifying run, the selection is its least-distance row. */
  lemma StrictlyBestRunWins(rows: seq<Row>, w: nat)
    requires var runs := Runs(rows, SplitPoints(rows));
      w < |runs| && Qualifies(runs[w]) &&
      forall j :: 0 <= j < |runs| && j != w && Qualifies(runs[j]) ==>
        RunVariance(runs[w]) < RunVariance(runs[j])
    ensures Selection(rows) == MinDistanceRow(Runs(rows, SplitPoints(rows))[w])
  {
    var runs := Runs(rows, SplitPoints(rows));
    FoldPrefixWinner(runs);
    var v :| 0 <= v < |runs| && IsWinner(runs, v) && FoldPrefix(runs) == Record(runs[v]);
    if v != w {
      assert false;
    }
  }
}
