/**
 * Ground-control-point handling of sensum/preprocess.py: the comparison stack
 * gcp_extraction builds from feature matches (485-535), the older extraction
 * that keeps only the closest matches (241-268), the mean integer offset of
 * linear_offset_comp (283-295) and the translation matrix of affine_correction
 * (595-597). Feature detection and matching are OpenCV calls and are not
 * modelled: a match arrives as its distance, its two keypoints and its shift
 * magnitude. np.arctan is a parameter.
 */
module Gcp {
  import opened PyCore
  import opened Sorting
  import opened Conversion
  import opened BestMatch

  /** One OpenCV match: its Hamming distance, the reference keypoint (queryIdx),
      the target keypoint (trainIdx) and the shift magnitude of column 1. */
  datatype KeyMatch = KeyMatch(distance: real, query: Point2, train: Point2, magnitude: real)

  /** A reference point and its target point: [x_ref, y_ref, x_tg, y_tg]. */
  datatype Quad = Quad(xRef: real, yRef: real, xTg: real, yTg: real)

  /** Matches farther apart than this are dropped by gcp_extraction. */
  const DISTANCE_THRESHOLD := 100.0

  /** Only this many of the closest rows reach select_best_matching. */
  const STACK_LIMIT := 90

  /** np.pi as a double. */
  const PI := 3.141592653589793

  const ZERO_QUAD := Quad(0.0, 0.0, 0.0, 0.0)

  // ---------------------------------------------------------------------------
  // Filtering and the shift of a match
  // ---------------------------------------------------------------------------

  /** [m for m in matches if m.distance <= threshold], in order. */
  function KeepWithin(matches: seq<KeyMatch>, threshold: real): (kept: seq<KeyMatch>)
    ensures |kept| <= |matches|
    ensures forall m :: m in kept <==> m in matches && m.distance <= threshold
  {
    if |matches| == 0 then []
    else
      var last := matches[|matches| - 1];
      assert matches == matches[..|matches| - 1] + [last];
      var rest := KeepWithin(matches[..|matches| - 1], threshold);
      if last.distance <= threshold then rest + [last] else rest
  }

  /** The matches gcp_extraction keeps. */
  function KeepReliable(matches: seq<KeyMatch>): seq<KeyMatch>
  {
    KeepWithin(matches, DISTANCE_THRESHOLD)
  }

  /** int() of a keypoint coordinate, stored in a float array. */
  function Pix(c: real): real
  {
    Trunc(c) as real
  }

  /** The integer coordinates [x_ref, y_ref, x_tg, y_tg] of a match. */
  function TruncatedQuad(m: KeyMatch): Quad
  {
    Quad(Pix(m.query.x), Pix(m.query.y), Pix(m.train.x), Pix(m.train.y))
  }

  function DeltaX(m: KeyMatch): real { Pix(m.train.x) - Pix(m.query.x) }

  function DeltaY(m: KeyMatch): real { Pix(m.train.y) - Pix(m.query.y) }

  /** The slope in degrees of the shift (dx, dy): 90 for a vertical shift, 0 for
      no shift, the arctangent of dy/dx otherwise. */
  function Slope(dx: real, dy: real, arctan: real -> real): real
  {
    if dx == 0.0 && dy != 0.0 then 90.0
    else if dx == 0.0 && dy == 0.0 then 0.0
    else arctan(dy / dx) * 360.0 / (2.0 * PI)
  }

  /** The slope is that of the line through the shift, whatever its length or sense. */
  lemma SlopeOfScaledShift(dx: real, dy: real, k: real, arctan: real -> real)
    requires k != 0.0
    ensures Slope(k * dx, k * dy, arctan) == Slope(dx, dy, arctan)
  {
    if dx != 0.0 {
      assert (k * dy) / (k * dx) == dy / dx;
    }
  }

  /** With np.arctan's range (-pi/2, pi/2), every slope lies in (-90, 90]. */
  lemma SlopeRange(dx: real, dy: real, arctan: real -> real)
    requires forall t :: -PI / 2.0 < arctan(t) < PI / 2.0
    ensures -90.0 < Slope(dx, dy, arctan) <= 90.0
  {
    if dx != 0.0 {
      var a := arctan(dy / dx);
      assert -PI / 2.0 < a < PI / 2.0;
      assert a * 360.0 / (2.0 * PI) == a * (180.0 / PI);
    }
  }

  // ---------------------------------------------------------------------------
  // gcp_extraction (preprocess.py:485-535)
  // ---------------------------------------------------------------------------

  /** The row vstack appends for a kept match. */
  function CandidateRow(m: KeyMatch, arctan: real -> real): Row
  {
    var q := TruncatedQuad(m);
    Row(m.distance, m.magnitude, Slope(DeltaX(m), DeltaY(m), arctan), q.xRef, q.yRef, q.xTg, q.yTg)
  }

  /** The rows appended for the kept matches, in order. */
  function CandidateRows(kept: seq<KeyMatch>, arctan: real -> real): seq<Row>
  {
    if |kept| == 0 then []
    else CandidateRows(kept[..|kept| - 1], arctan) + [CandidateRow(kept[|kept| - 1], arctan)]
  }

  /** compar_stack before sorting: the sentinel, then one row per kept match. */
  function ComparisonStack(matches: seq<KeyMatch>, arctan: real -> real): seq<Row>
  {
    [SENTINEL] + CandidateRows(KeepReliable(matches), arctan)
  }

  function Take<T>(s: seq<T>, n: nat): seq<T>
  {
    if |s| <= n then s else s[..n]
  }

  /** compar_stack[0:90] after the sort by distance. */
  function SelectorInput(matches: seq<KeyMatch>, arctan: real -> real): seq<Row>
  {
    Take(SortBy(ComparisonStack(matches, arctan), DistanceOf), STACK_LIMIT)
  }

  /** best[3:7]. */
  function Columns3To6(r: Row): Quad
  {
    Quad(r.xRef, r.yRef, r.xTg, r.yTg)
  }

  /** What gcp_extraction returns. With no kept match compar_stack is still the
      one-dimensional sentinel, and compar_stack[:,0] raises IndexError. */
  function GcpExtractionSpec(matches: seq<KeyMatch>, arctan: real -> real): Result<seq<Quad>>
  {
    if |KeepReliable(matches)| == 0 then Failure(IndexError)
    else Success([Columns3To6(Selection(SortBy(SelectorInput(matches, arctan), SlopeOf)))])
  }

  method GcpExtraction(matches: seq<KeyMatch>, arctan: real -> real) returns (r: Result<seq<Quad>>)
    ensures r == GcpExtractionSpec(matches, arctan)
  {
    var selMatches := KeepReliable(matches);
    var comparStack := [SENTINEL];
    var i := 0;
    while i < |selMatches|
      invariant 0 <= i <= |selMatches|
      invariant comparStack == [SENTINEL] + CandidateRows(selMatches[..i], arctan)
    {
      assert selMatches[..i + 1][..i] == selMatches[..i];
      comparStack := comparStack + [CandidateRow(selMatches[i], arctan)];
      i := i + 1;
    }
    assert selMatches[..i] == selMatches;
    if |selMatches| == 0 {
      return Failure(IndexError);
    }
    comparStack := SortBy(comparStack, DistanceOf);
    var best := SelectBestMatching(Take(comparStack, STACK_LIMIT));
    r := Success([Columns3To6(best)]);
  }

  lemma {:induction false} CandidateRowsFrom(kept: seq<KeyMatch>, arctan: real -> real, row: Row)
    requires row in CandidateRows(kept, arctan)
    ensures exists m :: m in kept && row == CandidateRow(m, arctan)
  {
    var n := |kept| - 1;
    if row == CandidateRow(kept[n], arctan) {
      assert kept[n] in kept;
    } else {
      CandidateRowsFrom(kept[..n], arctan, row);
      var m :| m in kept[..n] && row == CandidateRow(m, arctan);
      assert m in kept;
    }
  }

  lemma {:induction false} CandidateRowsLength(kept: seq<KeyMatch>, arctan: real -> real)
    ensures |CandidateRows(kept, arctan)| == |kept|
  {
    if |kept| > 0 {
      CandidateRowsLength(kept[..|kept| - 1], arctan);
    }
  }

  /** Every row of the comparison stack is the sentinel or the row of a match with
      distance at most 100, so every distance in it is at most 100. */
  lemma StackRowOrigin(matches: seq<KeyMatch>, arctan: real -> real, row: Row)
    requires row in ComparisonStack(matches, arctan)
    ensures row == SENTINEL ||
            exists m :: m in matches && m.distance <= DISTANCE_THRESHOLD && row == CandidateRow(m, arctan)
    ensures row.distance <= DISTANCE_THRESHOLD
  {
    if row != SENTINEL {
      CandidateRowsFrom(KeepReliable(matches), arctan, row);
    }
  }

  /** The selector sees min(90, kept + 1) rows. */
  lemma SelectorInputLength(matches: seq<KeyMatch>, arctan: real -> real)
    ensures |SelectorInput(matches, arctan)| ==
            if |KeepReliable(matches)| + 1 <= STACK_LIMIT then |KeepReliable(matches)| + 1 else STACK_LIMIT
  {
    CandidateRowsLength(KeepReliable(matches), arctan);
  }

  /** The selector's rows are sorted by distance and are the closest of the stack. */
  lemma SelectorInputClosest(matches: seq<KeyMatch>, arctan: real -> real)
    ensures SortedBy(SelectorInput(matches, arctan), DistanceOf)
    ensures var sorted := SortBy(ComparisonStack(matches, arctan), DistanceOf);
      var input := SelectorInput(matches, arctan);
      forall i, j :: 0 <= i < |input| <= j < |sorted| ==> input[i].distance <= sorted[j].distance
  {
    var sorted := SortBy(ComparisonStack(matches, arctan), DistanceOf);
    var input := SelectorInput(matches, arctan);
    assert forall i :: 0 <= i < |input| ==> input[i] == sorted[i];
    assert forall i, j :: 0 <= i < j < |sorted| ==> DistanceOf(sorted[i]) <= DistanceOf(sorted[j]);
  }

  /** Each row the selector sees is the sentinel or the row of a match within
      distance 100. */
  lemma SelectorInputRows(matches: seq<KeyMatch>, arctan: real -> real, row: Row)
    requires row in SelectorInput(matches, arctan)
    ensures row.distance <= DISTANCE_THRESHOLD
    ensures row == SENTINEL ||
            exists m :: m in matches && m.distance <= DISTANCE_THRESHOLD && row == CandidateRow(m, arctan)
  {
    var stack := ComparisonStack(matches, arctan);
    var sorted := SortBy(stack, DistanceOf);
    assert row in sorted;
    SortByMembers(stack, DistanceOf, row);
    StackRowOrigin(matches, arctan, row);
  }

  /** gcp_extraction fails exactly when no match is within distance 100; otherwise
      it returns one point pair: the sentinel's (1, 1, 2, 2) or the integer
      coordinates of a match within distance 100. */
  lemma GcpExtractionResult(matches: seq<KeyMatch>, arctan: real -> real)
    ensures GcpExtractionSpec(matches, arctan).Failure? <==>
            forall m :: m in matches ==> m.distance > DISTANCE_THRESHOLD
    ensures GcpExtractionSpec(matches, arctan).Success? ==>
              var out := GcpExtractionSpec(matches, arctan).value;
              |out| == 1 &&
              (out[0] == Quad(1.0, 1.0, 2.0, 2.0) ||
               exists m :: m in matches && m.distance <= DISTANCE_THRESHOLD && out[0] == TruncatedQuad(m))
  {
    var kept := KeepReliable(matches);
    if |kept| > 0 {
      assert kept[0] in kept;
      var input := SelectorInput(matches, arctan);
      var bySlope := SortBy(input, SlopeOf);
      var best := Selection(bySlope);
      SelectionIsARow(bySlope);
      if best != SENTINEL {
        SortByMembers(input, SlopeOf, best);
        SelectorInputRows(matches, arctan, best);
        var m :| m in matches && m.distance <= DISTANCE_THRESHOLD && best == CandidateRow(m, arctan);
        assert Columns3To6(best) == TruncatedQuad(m);
      }
    }
  }

  // ---------------------------------------------------------------------------
  // gcp_extraction_old (preprocess.py:241-268)
  // ---------------------------------------------------------------------------

  /** dist: the match distances, in order. */
  function Distances(matches: seq<KeyMatch>): seq<real>
  {
    seq(|matches|, i requires 0 <= i < |matches| => matches[i].distance)
  }

  function RealKey(x: real): real { x }

  /** thres_dist = max(fildist), where fildist holds only sorted(dist)[0]. */
  function OldThreshold(matches: seq<KeyMatch>): real
    requires |matches| > 0
  {
    SortBy(Distances(matches), RealKey)[0]
  }

  /** Both points of a row converted with the reference geotransform. */
  function ToWorld(gt: GeoTransform, p: Quad): Quad
  {
    var r := Pixel2World(gt, p.xRef, p.yRef);
    var t := Pixel2World(gt, p.xTg, p.yTg);
    Quad(r.x, r.y, t.x, t.y)
  }

  /** Every row converted with ToWorld. */
  function WorldPoints(gt: GeoTransform, points: seq<Quad>): seq<Quad>
  {
    seq(|points|, j requires 0 <= j < |points| => ToWorld(gt, points[j]))
  }

  function OldPoints(sel: seq<KeyMatch>): seq<Quad>
  {
    seq(|sel|, k requires 0 <= k < |sel| => TruncatedQuad(sel[k]))
  }

  /** Indices are returned for output_option None or 0, coordinates otherwise. */
  predicate WantsIndices(outputOption: Option<int>)
  {
    outputOption == None || outputOption == Some(0)
  }

  /** What gcp_extraction_old returns; sorted(dist)[0] of no matches raises IndexError. */
  function GcpExtractionOldSpec(matches: seq<KeyMatch>, refGt: GeoTransform, outputOption: Option<int>): Result<seq<Quad>>
  {
    if |matches| == 0 then Failure(IndexError)
    else
      var points := OldPoints(KeepWithin(matches, OldThreshold(matches)));
      if WantsIndices(outputOption) then Success(points)
      else Success(WorldPoints(refGt, points))
  }

  method GcpExtractionOld(matches: seq<KeyMatch>, refGt: GeoTransform, outputOption: Option<int>)
    returns (r: Result<seq<Quad>>)
    ensures r == GcpExtractionOldSpec(matches, refGt, outputOption)
  {
    if |matches| == 0 {
      return Failure(IndexError);
    }
    var a := SortBy(Distances(matches), RealKey);
    var thresDist := a[0];
    var selMatches := KeepWithin(matches, thresDist);
    var points := FillPoints(selMatches);
    if WantsIndices(outputOption) {
      return Success(points);
    }
    var pointsCoordinates := FillCoordinates(refGt, points);
    r := Success(pointsCoordinates);
  }

  /** The loop that writes points[i] for each selected match. */
  method FillPoints(selMatches: seq<KeyMatch>) returns (rows: seq<Quad>)
    ensures rows == OldPoints(selMatches)
  {
    var points := new Quad[|selMatches|](_ => ZERO_QUAD);
    var i := 0;
    while i < |selMatches|
      invariant 0 <= i <= |selMatches|
      invariant forall k :: 0 <= k < i ==> points[k] == TruncatedQuad(selMatches[k])
    {
      points[i] := TruncatedQuad(selMatches[i]);
      i := i + 1;
    }
    rows := points[..];
  }

  /** The loop that writes points_coordinates[j] for each row. */
  method FillCoordinates(refGt: GeoTransform, points: seq<Quad>) returns (rows: seq<Quad>)
    ensures rows == WorldPoints(refGt, points)
  {
    var pointsCoordinates := new Quad[|points|](_ => ZERO_QUAD);
    for j := 0 to |points|
      invariant forall k :: 0 <= k < j ==> pointsCoordinates[k] == ToWorld(refGt, points[k])
    {
      pointsCoordinates[j] := ToWorld(refGt, points[j]);
    }
    rows := pointsCoordinates[..];
  }

  /** The threshold is the least match distance. */
  lemma OldThresholdIsMinimum(matches: seq<KeyMatch>)
    requires |matches| > 0
    ensures exists i :: 0 <= i < |matches| && matches[i].distance == OldThreshold(matches)
    ensures forall i :: 0 <= i < |matches| ==> OldThreshold(matches) <= matches[i].distance
  {
    var ds := Distances(matches);
    SortByHead(ds, RealKey);
    var i :| 0 <= i < |ds| && ds[i] == OldThreshold(matches);
    forall j | 0 <= j < |matches|
      ensures OldThreshold(matches) <= matches[j].distance
    {
      assert ds[j] in ds;
    }
  }

  /** For a non-empty match list the old extraction succeeds with at least one row;
      every row comes from a match at the least distance, and every match at the
      least distance gives a row: its integer coordinates, or their world
      positions under the reference geotransform. */
  lemma OldKeepsClosest(matches: seq<KeyMatch>, refGt: GeoTransform, outputOption: Option<int>)
    requires |matches| > 0
    ensures GcpExtractionOldSpec(matches, refGt, outputOption).Success?
    ensures var out := GcpExtractionOldSpec(matches, refGt, outputOption).value;
      && |out| >= 1
      && forall j :: 0 <= j < |out| ==>
           exists m :: m in matches && (forall n :: n in matches ==> m.distance <= n.distance) &&
             out[j] == (if WantsIndices(outputOption) then TruncatedQuad(m) else ToWorld(refGt, TruncatedQuad(m)))
    ensures var out := GcpExtractionOldSpec(matches, refGt, outputOption).value;
      forall m :: m in matches && (forall n :: n in matches ==> m.distance <= n.distance) ==>
        (if WantsIndices(outputOption) then TruncatedQuad(m) else ToWorld(refGt, TruncatedQuad(m))) in out
  {
    OldThresholdIsMinimum(matches);
    var t := OldThreshold(matches);
    var sel := KeepWithin(matches, t);
    var i0 :| 0 <= i0 < |matches| && matches[i0].distance == t;
    assert matches[i0] in sel;
    var out := GcpExtractionOldSpec(matches, refGt, outputOption).value;
    forall j | 0 <= j < |out|
      ensures exists m :: m in matches && (forall n :: n in matches ==> m.distance <= n.distance) &&
                out[j] == (if WantsIndices(outputOption) then TruncatedQuad(m) else ToWorld(refGt, TruncatedQuad(m)))
    {
      var m := sel[j];
      assert m in sel;
      forall n | n in matches
        ensures m.distance <= n.distance
      {
        var k :| 0 <= k < |matches| && matches[k] == n;
      }
    }
    forall m | m in matches && (forall n :: n in matches ==> m.distance <= n.distance)
      ensures (if WantsIndices(outputOption) then TruncatedQuad(m) else ToWorld(refGt, TruncatedQuad(m))) in out
    {
      assert matches[i0] in matches;
      assert m.distance == t;
      assert m in sel;
      var k :| 0 <= k < |sel| && sel[k] == m;
      assert out[k] == (if WantsIndices(outputOption) then TruncatedQuad(m) else ToWorld(refGt, TruncatedQuad(m)));
    }
  }

  // ---------------------------------------------------------------------------
  // linear_offset_comp (preprocess.py:283-295)
  // ---------------------------------------------------------------------------

  function XOffsets(ps: seq<Quad>): seq<real>
  {
    seq(|ps|, l requires 0 <= l < |ps| => ps[l].xTg - ps[l].xRef)
  }

  function YOffsets(ps: seq<Quad>): seq<real>
  {
    seq(|ps|, l requires 0 <= l < |ps| => ps[l].yTg - ps[l].yRef)
  }

  /** The rounded mean offsets; with no points the means are NaN, modelled as None. */
  function LinearOffset(ps: seq<Quad>): (off: Option<(int, int)>)
    ensures off.None? <==> |ps| == 0
  {
    if |ps| == 0 then None
    else Some((RoundHalfAway(Mean(XOffsets(ps))), RoundHalfAway(Mean(YOffsets(ps)))))
  }

  method LinearOffsetComp(commonPoints: seq<Quad>) returns (off: Option<(int, int)>)
    ensures off == LinearOffset(commonPoints)
  {
    var xoff1 := new real[|commonPoints|];
    var yoff1 := new real[|commonPoints|];
    for l := 0 to |commonPoints|
      invariant forall k :: 0 <= k < l ==> xoff1[k] == commonPoints[k].xTg - commonPoints[k].xRef
      invariant forall k :: 0 <= k < l ==> yoff1[k] == commonPoints[k].yTg - commonPoints[k].yRef
    {
      xoff1[l] := commonPoints[l].xTg - commonPoints[l].xRef;
      yoff1[l] := commonPoints[l].yTg - commonPoints[l].yRef;
    }
    if |commonPoints| == 0 {
      return None;
    }
    assert xoff1[..] == XOffsets(commonPoints);
    assert yoff1[..] == YOffsets(commonPoints);
    off := Some((RoundHalfAway(Mean(xoff1[..])), RoundHalfAway(Mean(yoff1[..]))));
  }

  /** When every point pair is shifted by the same integer (dx, dy), that is the offset. */
  lemma UniformShiftOffset(ps: seq<Quad>, dx: int, dy: int)
    requires |ps| > 0
    requires forall l :: 0 <= l < |ps| ==> ps[l].xTg - ps[l].xRef == dx as real && ps[l].yTg - ps[l].yRef == dy as real
    ensures LinearOffset(ps) == Some((dx, dy))
  {
    MeanOfConstant(XOffsets(ps), dx as real);
    MeanOfConstant(YOffsets(ps), dy as real);
    RoundOfInteger(dx);
    RoundOfInteger(dy);
  }

  /** All four coordinates are whole numbers, as int() leaves them. */
  predicate IntegerValued(q: Quad)
  {
    q.xRef == q.xRef.Floor as real && q.yRef == q.yRef.Floor as real &&
    q.xTg == q.xTg.Floor as real && q.yTg == q.yTg.Floor as real
  }

  /** For a single integer point pair the offset is exactly that pair's shift. */
  lemma SingleRowOffset(q: Quad)
    requires IntegerValued(q)
    ensures LinearOffset([q]) == Some((q.xTg.Floor - q.xRef.Floor, q.yTg.Floor - q.yRef.Floor))
  {
    UniformShiftOffset([q], q.xTg.Floor - q.xRef.Floor, q.yTg.Floor - q.yRef.Floor);
  }

  // ---------------------------------------------------------------------------
  // affine_correction (preprocess.py:595-597)
  // ---------------------------------------------------------------------------

  /** A 2x3 affine matrix [[a, b, c], [d, e, f]]. */
  datatype Affine = Affine(a: real, b: real, c: real, d: real, e: real, f: real)

  function Apply(m: Affine, p: Point2): Point2
  {
    Point2(m.a * p.x + m.b * p.y + m.c, m.d * p.x + m.e * p.y + m.f)
  }

  /** M = [[1, 0, delta_x], [0, 1, delta_y]] from best_match[0]; an empty
      best_match raises IndexError. */
  function CorrectionMatrix(bestMatch: seq<Quad>): (r: Result<Affine>)
    ensures r.Failure? <==> |bestMatch| == 0
    ensures r.Failure? ==> r.error == IndexError
  {
    if |bestMatch| == 0 then Failure(IndexError)
    else
      var q := bestMatch[0];
      Success(Affine(1.0, 0.0, q.xTg - q.xRef, 0.0, 1.0, q.yTg - q.yRef))
  }

  /** The matrix is a pure translation that carries the reference point of the
      best match onto its target point. */
  lemma CorrectionMapsReferenceToTarget(bestMatch: seq<Quad>)
    requires |bestMatch| > 0
    ensures var q := bestMatch[0];
      var m := CorrectionMatrix(bestMatch).value;
      && Apply(m, Point2(q.xRef, q.yRef)) == Point2(q.xTg, q.yTg)
      && forall p :: Apply(m, p) == Point2(p.x + (q.xTg - q.xRef), p.y + (q.yTg - q.yRef))
  {
  }

  /** For one integer point pair the translation is the offset linear_offset_comp computes. */
  lemma CorrectionAgreesWithLinearOffset(q: Quad)
    requires IntegerValued(q)
    ensures var m := CorrectionMatrix([q]).value;
      var off := LinearOffset([q]).value;
      m.c == off.0 as real && m.f == off.1 as real
  {
    SingleRowOffset(q);
  }
}
