/**
 * Raster extents in sensum/preprocess.py: the corner coordinates of
 * get_coordinate_limit (438-441), the intersection of two extents in
 * fix_tiling_raster (393-408), and the pixel window and geotransform that
 * clip_rectangular derives from a polygon layer (107-140). Opening files,
 * reading features and copying pixels are GDAL/OGR calls and are not modelled:
 * a raster is its geotransform and band count, a layer is the sequence of the
 * exterior rings of its features.
 */
module Extent {
  import opened PyCore
  import opened Sorting
  import opened Conversion

  /** minx, miny, maxx, maxy. */
  datatype Box = Box(minx: real, miny: real, maxx: real, maxy: real)

  // ---------------------------------------------------------------------------
  // get_coordinate_limit (preprocess.py:438-441)
  // ---------------------------------------------------------------------------

  function CoordinateLimit(width: int, height: int, gt: GeoTransform): Box
  {
    Box(gt.originX,
        gt.originY + width as real * gt.columnRotation + height as real * gt.pixelHeight,
        gt.originX + width as real * gt.pixelWidth + height as real * gt.rowRotation,
        gt.originY)
  }

  /** (minx, maxy) is the world position of pixel corner (0, 0) and (maxx, miny)
      that of corner (width, height). */
  lemma CoordinateLimitCorners(width: int, height: int, gt: GeoTransform)
    ensures var b := CoordinateLimit(width, height, gt);
      && Pixel2World(gt, 0.0, 0.0) == Point2(b.minx, b.maxy)
      && Pixel2World(gt, width as real, height as real) == Point2(b.maxx, b.miny)
  {
    Origin(gt);
    var w, h := width as real, height as real;
    var p := Pixel2World(gt, w, h);
    assert p.x == gt.originX + w * gt.pixelWidth + h * gt.rowRotation;
    assert p.y == gt.originY + w * gt.columnRotation + h * gt.pixelHeight;
  }

  /** For a north-up raster (no rotation, positive pixel width, negative pixel
      height) the limits are ordered. */
  lemma NorthUpLimitsOrdered(width: nat, height: nat, gt: GeoTransform)
    requires gt.rowRotation == 0.0 && gt.columnRotation == 0.0
    requires gt.pixelWidth > 0.0 && gt.pixelHeight < 0.0
    ensures var b := CoordinateLimit(width, height, gt);
      b.minx <= b.maxx && b.miny <= b.maxy
  {
    MultiplyMonotone(0.0, width as real, gt.pixelWidth);
    MultiplyMonotone(0.0, height as real, -gt.pixelHeight);
  }

  // ---------------------------------------------------------------------------
  // fix_tiling_raster (preprocess.py:393-408)
  // ---------------------------------------------------------------------------

  function Intersect(b1: Box, b2: Box): Box
  {
    Box(if b1.minx - b2.minx >= 0.0 then b1.minx else b2.minx,
        if b1.miny - b2.miny >= 0.0 then b1.miny else b2.miny,
        if b1.maxx - b2.maxx <= 0.0 then b1.maxx else b2.maxx,
        if b1.maxy - b2.maxy <= 0.0 then b1.maxy else b2.maxy)
  }

  predicate Contains(b: Box, p: Point2)
  {
    b.minx <= p.x <= b.maxx && b.miny <= p.y <= b.maxy
  }

  /** Each lower bound is the larger of the two lower bounds and each upper bound
      the smaller of the two upper bounds. */
  lemma IntersectBounds(b1: Box, b2: Box)
    ensures var r := Intersect(b1, b2);
      && b1.minx <= r.minx && b2.minx <= r.minx && (r.minx == b1.minx || r.minx == b2.minx)
      && b1.miny <= r.miny && b2.miny <= r.miny && (r.miny == b1.miny || r.miny == b2.miny)
      && r.maxx <= b1.maxx && r.maxx <= b2.maxx && (r.maxx == b1.maxx || r.maxx == b2.maxx)
      && r.maxy <= b1.maxy && r.maxy <= b2.maxy && (r.maxy == b1.maxy || r.maxy == b2.maxy)
  {
  }

  /** A point lies in the intersection exactly when it lies in both extents. */
  lemma IntersectContains(b1: Box, b2: Box, p: Point2)
    ensures Contains(Intersect(b1, b2), p) <==> Contains(b1, p) && Contains(b2, p)
  {
  }

  lemma IntersectCommutes(b1: Box, b2: Box)
    ensures Intersect(b1, b2) == Intersect(b2, b1)
  {
  }

  lemma IntersectIdempotent(b: Box)
    ensures Intersect(b, b) == b
  {
  }

  // ---------------------------------------------------------------------------
  // clip_rectangular (preprocess.py:107-140)
  // ---------------------------------------------------------------------------

  /** The vertices of a ring that the loop visits: range(0, n_vertex - 1) leaves out
      the last one, which closes the ring. */
  function DropLast(ring: seq<Point2>): seq<Point2>
  {
    if |ring| == 0 then [] else ring[..|ring| - 1]
  }

  /** The visited vertices of all rings, in order. */
  function Visited(rings: seq<seq<Point2>>): seq<Point2>
  {
    if |rings| == 0 then [] else Visited(rings[..|rings| - 1]) + DropLast(rings[|rings| - 1])
  }

  /** The pixel that world2pixel gives a vertex. */
  function PixelOf(gt: GeoTransform, p: Point2): Pixel
    requires gt.pixelWidth != 0.0
  {
    World2Pixel(gt, p.x, p.y).value
  }

  /** x_list: the pixel columns of the vertices, in order of appending. */
  function VertexCols(gt: GeoTransform, pts: seq<Point2>): seq<int>
    requires gt.pixelWidth != 0.0
  {
    if |pts| == 0 then [] else VertexCols(gt, pts[..|pts| - 1]) + [PixelOf(gt, pts[|pts| - 1]).col]
  }

  /** y_list: the pixel rows of the vertices, in order of appending. */
  function VertexRows(gt: GeoTransform, pts: seq<Point2>): seq<int>
    requires gt.pixelWidth != 0.0
  {
    if |pts| == 0 then [] else VertexRows(gt, pts[..|pts| - 1]) + [PixelOf(gt, pts[|pts| - 1]).row]
  }

  function MinOf(s: seq<int>): (m: int)
    requires |s| > 0
    ensures m in s && forall x :: x in s ==> m <= x
  {
    if |s| == 1 then s[0]
    else
      var rest := MinOf(s[..|s| - 1]);
      assert s == s[..|s| - 1] + [s[|s| - 1]];
      if s[|s| - 1] < rest then s[|s| - 1] else rest
  }

  function MaxOf(s: seq<int>): (m: int)
    requires |s| > 0
    ensures m in s
    ensures forall x :: x in s ==> x <= m
  {
    if |s| == 1 then s[0]
    else
      var init := s[..|s| - 1];
      var last := s[|s| - 1];
      assert s == init + [last];
      var rest := MaxOf(init);
      if last > rest then last else rest
  }

  /** Sort key of list.sort(). */
  function Ascending(n: int): real { n as real }

  /** Sort key of list.sort(None, None, True): reverse order. */
  function Descending(n: int): real { -(n as real) }

  /** After x_list.sort(), x_list[0] is the least element. */
  lemma AscendingHead(s: seq<int>)
    requires |s| > 0
    ensures SortBy(s, Ascending)[0] == MinOf(s)
  {
    SortByHead(s, Ascending);
  }

  /** After x_list.sort(None, None, True), x_list[0] is the greatest element. */
  lemma DescendingHead(s: seq<int>)
    requires |s| > 0
    ensures SortBy(s, Descending)[0] == MaxOf(s)
  {
    SortByHead(s, Descending);
  }

  /** The output of clip_rectangular: the window [x_min, y_min, cols_out, rows_out]
      read from each input band, the output geotransform, the band count and the
      GDAL data type of the created raster. */
  datatype Clip = Clip(xOffset: int, yOffset: int, cols: int, rows: int,
                       geoTransform: GeoTransform, bands: nat, dataType: GdalType)

  /** The GDAL type clip_rectangular creates its output with, as written: the
      table lookup alone, so the documented default 0 yields None and Create
      raises TypeError. */
  function ClipGdalTypeAsWritten(dataType: TypeArg): Result<GdalType>
  {
    match DataTypeToGdal(dataType)
    case None => Failure(TypeError)
    case Some(g) => Success(g)
  }

  /** The documented default data type makes the clip fail as written. */
  lemma DefaultTypeBreaksClip()
    ensures ClipGdalTypeAsWritten(DefaultType) == Failure(TypeError)
  {
  }

  /** The corrected lookup is GdalTypeOrDefault, the rule write_image applies: 0
      creates a UInt16 raster, the GDAL counterpart of the documented uint16, and
      every explicit numpy type fails or succeeds exactly as written. */
  lemma ClipGdalTypeCorrected(dataType: TypeArg)
    ensures GdalTypeOrDefault(DefaultType) == Some(GdtUInt16)
    ensures ReadType(DefaultType) == GdalToNumpy(GdtUInt16)
    ensures dataType.Numpy? ==>
      ClipGdalTypeAsWritten(dataType) ==
        (if GdalTypeOrDefault(dataType).Some? then Success(GdalTypeOrDefault(dataType).value) else Failure(TypeError))
  {
  }

  /** The clip for vertex pixel columns xs and rows ys: the window from the
      least to the greatest of each, and a geotransform whose origin is the
      world position of the window's first pixel. */
  function ClipOf(gt: GeoTransform, xs: seq<int>, ys: seq<int>, nbands: nat, g: GdalType): Clip
    requires |xs| > 0 && |ys| > 0
  {
    var xMin := MinOf(xs);
    var yMin := MinOf(ys);
    Clip(xMin, yMin, MaxOf(xs) - xMin, MaxOf(ys) - yMin, ClippedGeoTransform(gt, xMin, yMin), nbands, g)
  }

  /** The output geotransform: lon_min = x_min * gt[1] + gt[0] and
      lat_min = gt[3] + y_min * gt[5], the input pixel sizes and no rotation. */
  function ClippedGeoTransform(gt: GeoTransform, xMin: int, yMin: int): GeoTransform
  {
    GeoTransform(xMin as real * gt.pixelWidth + gt.originX, gt.pixelWidth, 0.0,
                 gt.originY + yMin as real * gt.pixelHeight, 0.0, gt.pixelHeight)
  }

  /** x_list and y_list after the loop over the features: a zero pixel width makes
      world2pixel divide by zero at the first visited vertex. */
  function VertexListsSpec(gt: GeoTransform, rings: seq<seq<Point2>>): Result<(seq<int>, seq<int>)>
  {
    var pts := Visited(rings);
    if |pts| == 0 then Success(([], []))
    else if gt.pixelWidth == 0.0 then Failure(ZeroDivisionError)
    else Success((VertexCols(gt, pts), VertexRows(gt, pts)))
  }

  /** What clip_rectangular creates, with the documented default data type honoured
      (0 means uint16, as in write_image): no visited vertex leaves x_list empty and
      x_list[0] raises IndexError; a type with no GDAL counterpart makes Create raise
      TypeError. As written, 0 raises TypeError too (ClipGdalTypeAsWritten). */
  function ClipSpec(gt: GeoTransform, rings: seq<seq<Point2>>, nbands: nat, dataType: TypeArg): Result<Clip>
  {
    match VertexListsSpec(gt, rings)
    case Failure(e) => Failure(e)
    case Success(lists) =>
      if |lists.0| == 0 || |lists.1| == 0 then Failure(IndexError)
      else
        match GdalTypeOrDefault(dataType)
        case None => Failure(TypeError)
        case Some(g) => Success(ClipOf(gt, lists.0, lists.1, nbands, g))
  }

  lemma {:induction false} VertexListsLength(gt: GeoTransform, pts: seq<Point2>)
    requires gt.pixelWidth != 0.0
    ensures |VertexCols(gt, pts)| == |pts| && |VertexRows(gt, pts)| == |pts|
  {
    if |pts| > 0 {
      VertexListsLength(gt, pts[..|pts| - 1]);
    }
  }

  /** The vertices visited in the first f + 1 rings are no more than all visited. */
  lemma {:induction false} VisitedGrows(rings: seq<seq<Point2>>, f: nat)
    requires f < |rings|
    ensures |Visited(rings[..f + 1])| <= |Visited(rings)|
    decreases |rings|
  {
    var n := |rings|;
    if f + 1 == n {
      assert rings[..f + 1] == rings;
    } else {
      VisitedGrows(rings[..n - 1], f);
      assert rings[..n - 1][..f + 1] == rings[..f + 1];
    }
  }

  /** The loop over the features that appends each visited vertex's pixel to
      x_list and y_list (preprocess.py:107-120). */
  method CollectVertexPixels(gt: GeoTransform, rings: seq<seq<Point2>>) returns (r: Result<(seq<int>, seq<int>)>)
    ensures r == VertexListsSpec(gt, rings)
  {
    var xList: seq<int> := [];
    var yList: seq<int> := [];
    ghost var visited: seq<Point2> := [];
    var f := 0;
    while f < |rings|
      invariant 0 <= f <= |rings|
      invariant visited == Visited(rings[..f])
      invariant gt.pixelWidth == 0.0 ==> visited == [] && xList == [] && yList == []
      invariant gt.pixelWidth != 0.0 ==> xList == VertexCols(gt, visited) && yList == VertexRows(gt, visited)
    {
      var ring := rings[f];
      var nVertex := |ring|;
      var upper := if nVertex > 0 then nVertex - 1 else 0;
      assert rings[..f + 1][..f] == rings[..f];
      assert ring[..upper] == DropLast(ring);
      for i := 0 to upper
        invariant visited == Visited(rings[..f]) + ring[..i]
        invariant gt.pixelWidth == 0.0 ==> visited == [] && xList == [] && yList == []
        invariant gt.pixelWidth != 0.0 ==> xList == VertexCols(gt, visited) && yList == VertexRows(gt, visited)
      {
        var p := World2Pixel(gt, ring[i].x, ring[i].y);
        if p.Failure? {
          assert Visited(rings[..f + 1]) == Visited(rings[..f]) + DropLast(ring);
          assert |DropLast(ring)| > i;
          VisitedGrows(rings, f);
          assert VertexListsSpec(gt, rings) == Failure(ZeroDivisionError);
          return Failure(p.error);
        }
        assert (visited + [ring[i]])[..|visited|] == visited;
        visited := visited + [ring[i]];
        assert ring[..i + 1] == ring[..i] + [ring[i]];
        xList := xList + [p.value.col];
        yList := yList + [p.value.row];
      }
      f := f + 1;
    }
    assert rings[..f] == rings;
    r := Success((xList, yList));
  }

  method ClipRectangular(gt: GeoTransform, rings: seq<seq<Point2>>, nbands: nat, dataType: TypeArg)
    returns (r: Result<Clip>)
    ensures r == ClipSpec(gt, rings, nbands, dataType)
  {
    var lists := CollectVertexPixels(gt, rings);
    if lists.Failure? {
      return Failure(lists.error);
    }
    var xList, yList := lists.value.0, lists.value.1;
    if |xList| == 0 || |yList| == 0 {
      return Failure(IndexError);
    }
    var xMin, xMax := Extremes(xList);
    var yMin, yMax := Extremes(yList);
    var geotransform := ClippedGeoTransform(gt, xMin, yMin);
    var colsOut := xMax - xMin;
    var rowsOut := yMax - yMin;
    var gdalDataType := GdalTypeOrDefault(dataType);
    assert VertexListsSpec(gt, rings) == Success((xList, yList));
    if gdalDataType.None? {
      assert ClipSpec(gt, rings, nbands, dataType) == Failure(TypeError);
      return Failure(TypeError);
    }
    var clip := Clip(xMin, yMin, colsOut, rowsOut, geotransform, nbands, gdalDataType.value);
    assert clip == ClipOf(gt, xList, yList, nbands, gdalDataType.value);
    assert ClipSpec(gt, rings, nbands, dataType) == Success(clip);
    r := Success(clip);
  }

  /** The least and the greatest vertex pixel, read off the head of the list sorted
      ascending and then descending. */
  method Extremes(list: seq<int>) returns (least: int, greatest: int)
    requires |list| > 0
    ensures least == MinOf(list) && greatest == MaxOf(list)
  {
    var sorted := SortBy(list, Ascending);
    least := sorted[0];
    AscendingHead(list);
    sorted := SortBy(sorted, Descending);
    greatest := sorted[0];
    SortedKeepsExtremes(list);
  }

  /** Sorting in descending order after an ascending sort still puts the greatest first. */
  lemma SortedKeepsExtremes(s: seq<int>)
    requires |s| > 0
    ensures SortBy(SortBy(s, Ascending), Descending)[0] == MaxOf(s)
  {
    var up := SortBy(s, Ascending);
    DescendingHead(up);
    assert forall x :: x in up <==> x in s by {
      forall x {
        SortByMembers(s, Ascending, x);
      }
    }
    assert MaxOf(up) in s && MaxOf(s) in up;
  }

  /** The clip fails exactly when no vertex is visited, when the pixel width is
      zero, or when the data type has no GDAL counterpart; otherwise it succeeds,
      with that GDAL type and the window built from the pixels of all visited
      vertices. */
  lemma ClipOutcome(gt: GeoTransform, rings: seq<seq<Point2>>, nbands: nat, dataType: TypeArg)
    ensures var r := ClipSpec(gt, rings, nbands, dataType);
      && (|Visited(rings)| == 0 ==> r == Failure(IndexError))
      && (|Visited(rings)| > 0 && gt.pixelWidth == 0.0 ==> r == Failure(ZeroDivisionError))
      && (|Visited(rings)| > 0 && gt.pixelWidth != 0.0 && GdalTypeOrDefault(dataType).None? ==> r == Failure(TypeError))
      && (|Visited(rings)| > 0 && gt.pixelWidth != 0.0 && GdalTypeOrDefault(dataType).Some? ==>
            r.Success? && r.value.dataType == GdalTypeOrDefault(dataType).value)
      && (r.Success? ==>
            gt.pixelWidth != 0.0 && |VertexCols(gt, Visited(rings))| > 0 &&
            GdalTypeOrDefault(dataType).Some? &&
            r.value == ClipOf(gt, VertexCols(gt, Visited(rings)), VertexRows(gt, Visited(rings)), nbands,
                              GdalTypeOrDefault(dataType).value))
  {
    if |Visited(rings)| > 0 && gt.pixelWidth != 0.0 {
      VertexListsLength(gt, Visited(rings));
    }
  }

  /** The window spans every visited vertex: its size is non-negative, every vertex
      pixel lies inside it, and each of its four edges passes through a vertex. */
  lemma ClipWindow(gt: GeoTransform, xs: seq<int>, ys: seq<int>, nbands: nat, g: GdalType)
    requires |xs| > 0 && |ys| > 0
    ensures var c := ClipOf(gt, xs, ys, nbands, g);
      && c.cols >= 0 && c.rows >= 0
      && (forall x :: x in xs ==> c.xOffset <= x <= c.xOffset + c.cols)
      && (forall y :: y in ys ==> c.yOffset <= y <= c.yOffset + c.rows)
      && c.xOffset in xs && c.xOffset + c.cols in xs
      && c.yOffset in ys && c.yOffset + c.rows in ys
  {
  }

  /** On an unrotated grid, pixel2world scales each pixel coordinate by its own pixel size. */
  lemma UnrotatedPixel2World(gt: GeoTransform, x: real, y: real)
    requires gt.rowRotation == 0.0 && gt.columnRotation == 0.0
    ensures Pixel2World(gt, x, y) == Point2(x * gt.pixelWidth + gt.originX, gt.originY + y * gt.pixelHeight)
  {
    var p := Pixel2World(gt, x, y);
    assert p.x == gt.originX + x * gt.pixelWidth + y * gt.rowRotation;
    assert p.y == gt.originY + x * gt.columnRotation + y * gt.pixelHeight;
    assert y * gt.rowRotation == 0.0 by {
      assert y * gt.rowRotation == y * 0.0;
    }
    assert x * gt.columnRotation == 0.0 by {
      assert x * gt.columnRotation == x * 0.0;
    }
  }

  /** For an unrotated input the new origin is the world position of the window's
      top-left pixel, and the pixel size is kept. */
  lemma ClipOrigin(gt: GeoTransform, xs: seq<int>, ys: seq<int>, nbands: nat, g: GdalType)
    requires |xs| > 0 && |ys| > 0
    requires gt.rowRotation == 0.0 && gt.columnRotation == 0.0
    ensures var c := ClipOf(gt, xs, ys, nbands, g);
      && Pixel2World(c.geoTransform, 0.0, 0.0) == Pixel2World(gt, c.xOffset as real, c.yOffset as real)
      && c.geoTransform.pixelWidth == gt.pixelWidth && c.geoTransform.pixelHeight == gt.pixelHeight
  {
    var c := ClipOf(gt, xs, ys, nbands, g);
    assert c.geoTransform == ClippedGeoTransform(gt, c.xOffset, c.yOffset);
    Origin(c.geoTransform);
    UnrotatedPixel2World(gt, c.xOffset as real, c.yOffset as real);
  }
}
