/**
 * The deterministic rules of sensum/conversion.py: the numpy-to-GDAL type
 * table, the default type and band selection of read_image and write_image,
 * the affine pixel/world formulas, and the grid sizing of shp2rast and
 * polygon2array. Files, drivers and rasterisation are replaced by values:
 * a raster on disk is the sequence of its bands, a created dataset is a
 * Raster value, and the outcome of the driver's Create call is a parameter.
 */
module Conversion {
  import opened PyCore

  /** GDAL's six geotransform coefficients gt[0] .. gt[5]. */
  datatype GeoTransform = GeoTransform(
    originX: real,         // gt[0], x of the top-left corner
    pixelWidth: real,      // gt[1], west-east pixel size
    rowRotation: real,     // gt[2]
    originY: real,         // gt[3], y of the top-left corner
    columnRotation: real,  // gt[4]
    pixelHeight: real      // gt[5], north-south pixel size (negative for north-up)
  )

  datatype Point2 = Point2(x: real, y: real)

  /** A (column, row) matrix index, as world2pixel returns it. */
  datatype Pixel = Pixel(col: int, row: int)

  // ---------------------------------------------------------------------------
  // Data types (conversion.py:45-66, 88-89, 154-157)
  // ---------------------------------------------------------------------------

  /** The numpy scalar types the code names; any other numpy type is OtherNumpyType. */
  datatype NumpyType = UInt8 | UInt16 | Int32 | Float32 | Float64 | OtherNumpyType(name: string)

  /** A data_type argument: the integer 0, which means "the default", or a numpy type. */
  datatype TypeArg = DefaultType | Numpy(numpyType: NumpyType)

  datatype GdalType = GdtByte | GdtUInt16 | GdtInt32 | GdtFloat32 | GdtFloat64

  /** data_type2gdal_data_type: falls off its end (returns None) for anything unlisted. */
  function DataTypeToGdal(t: TypeArg): (r: Option<GdalType>)
    ensures r.Some? ==> t == Numpy(GdalToNumpy(r.value))
    ensures r.None? <==> t == DefaultType || t.numpyType.OtherNumpyType?
  {
    match t
    case Numpy(UInt16) => Some(GdtUInt16)
    case Numpy(UInt8) => Some(GdtByte)
    case Numpy(Int32) => Some(GdtInt32)
    case Numpy(Float32) => Some(GdtFloat32)
    case Numpy(Float64) => Some(GdtFloat64)
    case _ => None
  }

  /** The numpy type each GDAL type is the image of: the inverse of the table. */
  function GdalToNumpy(g: GdalType): NumpyType
  {
    match g
    case GdtUInt16 => UInt16
    case GdtByte => UInt8
    case GdtInt32 => Int32
    case GdtFloat32 => Float32
    case GdtFloat64 => Float64
  }

  /** The table is a bijection between the five numpy types and the five GDAL types,
      and every other argument (the integer 0 included) maps to None. */
  lemma DataTypeTable(t: TypeArg, g: GdalType)
    ensures DataTypeToGdal(Numpy(GdalToNumpy(g))) == Some(g)
    ensures DataTypeToGdal(t) == Some(g) ==> t == Numpy(GdalToNumpy(g))
    ensures DataTypeToGdal(t).None? <==>
              (t == DefaultType || t.numpyType.OtherNumpyType?)
  {
  }

  lemma DataTypeToGdalInjective(t1: TypeArg, t2: TypeArg)
    requires DataTypeToGdal(t1).Some? && DataTypeToGdal(t1) == DataTypeToGdal(t2)
    ensures t1 == t2
  {
    DataTypeTable(t1, DataTypeToGdal(t1).value);
    DataTypeTable(t2, DataTypeToGdal(t1).value);
  }

  /** The numpy type read_image casts to: 0 stands for uint16. */
  function ReadType(t: TypeArg): NumpyType
  {
    if t == DefaultType then UInt16 else t.numpyType
  }

  /** The GDAL type write_image creates: 0 stands for GDT_UInt16. */
  function GdalTypeOrDefault(t: TypeArg): Option<GdalType>
  {
    if t == DefaultType then Some(GdtUInt16) else DataTypeToGdal(t)
  }

  /** The two defaults agree: writing with data_type d creates the GDAL type that
      corresponds to the numpy type reading with d produces. */
  lemma DefaultTypesAgree(t: TypeArg)
    ensures GdalTypeOrDefault(t) == DataTypeToGdal(Numpy(ReadType(t)))
    ensures t == DefaultType ==> ReadType(t) == UInt16 && GdalTypeOrDefault(t) == Some(GdtUInt16)
  {
  }

  // ---------------------------------------------------------------------------
  // read_image (conversion.py:69-109)
  // ---------------------------------------------------------------------------

  /** A band read with ReadAsArray(...).astype(dtype). */
  datatype TypedBand<B> = TypedBand(pixels: B, dtype: NumpyType)

  /** What read_image returns for a raster whose bands (band 1 first) are `raster`. */
  function ReadSpec<B>(raster: seq<B>, dataType: TypeArg, bandSelection: int): Result<seq<TypedBand<B>>>
  {
    if bandSelection == 0 then
      Success(seq(|raster|, i requires 0 <= i < |raster| => TypedBand(raster[i], ReadType(dataType))))
    else if 1 <= bandSelection <= |raster| then
      Success([TypedBand(raster[bandSelection - 1], ReadType(dataType))])
    else
      // GetRasterBand returns None for a band number outside 1..nbands,
      // and None.ReadAsArray raises.
      Failure(AttributeError)
  }

  method ReadImage<B>(raster: seq<B>, dataType: TypeArg, bandSelection: int)
    returns (r: Result<seq<TypedBand<B>>>)
    ensures r == ReadSpec(raster, dataType, bandSelection)
  {
    var t := ReadType(dataType);
    var nbands := |raster|;
    var bandList: seq<TypedBand<B>> := [];
    if bandSelection == 0 {
      var i := 1;
      while i < nbands + 1
        invariant 1 <= i <= nbands + 1
        invariant |bandList| == i - 1
        invariant forall j :: 0 <= j < i - 1 ==> bandList[j] == TypedBand(raster[j], t)
      {
        bandList := bandList + [TypedBand(raster[i - 1], t)];
        i := i + 1;
      }
    } else {
      if !(1 <= bandSelection <= nbands) {
        return Failure(AttributeError);
      }
      bandList := bandList + [TypedBand(raster[bandSelection - 1], t)];
    }
    r := Success(bandList);
    var spec := ReadSpec(raster, dataType, bandSelection);
    assert spec.Success? && |spec.value| == |bandList|;
    assert forall i :: 0 <= i < |bandList| ==> spec.value[i] == bandList[i];
    assert spec.value == bandList;
  }

  /** Band selection 0 reads every band, band i + 1 at position i, and band selection
      k reads exactly band k; any other k fails. */
  lemma ReadSelection<B>(raster: seq<B>, dataType: TypeArg, k: int)
    ensures var r := ReadSpec(raster, dataType, k);
      (r.Success? <==> 0 <= k <= |raster|) &&
      (k == 0 ==> |r.value| == |raster| &&
                  forall i :: 0 <= i < |raster| ==> r.value[i].pixels == raster[i]) &&
      (1 <= k <= |raster| ==> |r.value| == 1 && r.value[0].pixels == raster[k - 1]) &&
      (r.Success? ==> forall i :: 0 <= i < |r.value| ==> r.value[i].dtype == ReadType(dataType))
  {
  }

  // ---------------------------------------------------------------------------
  // write_image (conversion.py:135-181)
  // ---------------------------------------------------------------------------

  /** A dataset as the driver created it; a band GDAL created but nobody wrote is None. */
  datatype Raster<B> = Raster(
    cols: int, rows: int, dataType: GdalType,
    bands: seq<Option<B>>, geoTransform: GeoTransform, projection: string)

  /** What write_image leaves on disk. `created` is whether the driver's Create call
      returned a dataset; when it does not, the code exits. */
  function WriteSpec<B>(bandList: seq<B>, dataType: TypeArg, bandSelection: int,
                        rows: int, cols: int, gt: GeoTransform, projection: string,
                        created: bool): Result<Raster<B>>
  {
    match GdalTypeOrDefault(dataType)
    case None => Failure(TypeError)
    case Some(g) =>
      if !created then Failure(SystemExit)
      else if bandSelection == 0 then
        Success(Raster(cols, rows, g, seq(|bandList|, i requires 0 <= i < |bandList| => Some(bandList[i])),
                       gt, projection))
      else
        match PyIndex(bandList, bandSelection - 1)
        case None => Failure(IndexError)
        case Some(b) => Success(Raster(cols, rows, g, [Some(b)], gt, projection))
  }

  method WriteImage<B>(bandList: seq<B>, dataType: TypeArg, bandSelection: int,
                       rows: int, cols: int, gt: GeoTransform, projection: string,
                       created: bool)
    returns (r: Result<Raster<B>>)
    ensures r == WriteSpec(bandList, dataType, bandSelection, rows, cols, gt, projection, created)
  {
    var gdalType := GdalTypeOrDefault(dataType);
    if gdalType.None? {
      return Failure(TypeError);
    }
    var nbands := if bandSelection == 0 then |bandList| else 1;
    if !created {
      return Failure(SystemExit);
    }
    var outDs := new Option<B>[nbands](_ => None);
    if bandSelection == 0 {
      var i := 0;
      while i < nbands
        invariant 0 <= i <= nbands
        invariant forall j :: 0 <= j < i ==> outDs[j] == Some(bandList[j])
      {
        outDs[i] := Some(bandList[i]);
        i := i + 1;
      }
    } else {
      var band := PyIndex(bandList, bandSelection - 1);
      if band.None? {
        return Failure(IndexError);
      }
      outDs[0] := band;
      assert outDs[..] == [band];
    }
    assert bandSelection == 0 ==>
      outDs[..] == seq(|bandList|, i requires 0 <= i < |bandList| => Some(bandList[i]));
    r := Success(Raster(cols, rows, gdalType.value, outDs[..], gt, projection));
  }

  /** A data type with no GDAL counterpart raises TypeError. Otherwise band
      selection 0 writes band_list[i] to band i + 1 for every i, and band selection
      k writes one band holding band_list[k - 1] (Python indexing, so a negative k
      counts from the end). Every created band is written. */
  lemma WriteSelection<B>(bandList: seq<B>, dataType: TypeArg, k: int,
                          rows: int, cols: int, gt: GeoTransform, projection: string)
    ensures var r := WriteSpec(bandList, dataType, k, rows, cols, gt, projection, true);
      (GdalTypeOrDefault(dataType).None? ==> r == Failure(TypeError)) &&
      (GdalTypeOrDefault(dataType).Some? ==>
        (r.Success? <==> k == 0 || -|bandList| < k <= |bandList|) &&
        (r.Success? ==> r.value.dataType == GdalTypeOrDefault(dataType).value &&
                        forall i :: 0 <= i < |r.value.bands| ==> r.value.bands[i].Some?) &&
        (k == 0 ==> |r.value.bands| == |bandList| &&
                    forall i :: 0 <= i < |bandList| ==> r.value.bands[i] == Some(bandList[i])) &&
        (1 <= k <= |bandList| ==> r.value.bands == [Some(bandList[k - 1])]) &&
        (-|bandList| < k < 0 ==> r.value.bands == [Some(bandList[|bandList| + k - 1])]))
  {
  }

  /** Writing with band selection 0 what read_image read with band selection 0
      creates a raster holding every band of the source, cast, in order; it fails
      exactly when the read type has no GDAL counterpart. */
  lemma ReadAllThenWriteAll<B>(raster: seq<B>, dataType: TypeArg,
                               rows: int, cols: int, gt: GeoTransform, projection: string)
    ensures ReadSpec(raster, dataType, 0).Success?
    ensures var w := WriteSpec(ReadSpec(raster, dataType, 0).value, dataType, 0,
                               rows, cols, gt, projection, true);
      (w.Success? <==> DataTypeToGdal(Numpy(ReadType(dataType))).Some?) &&
      (w.Success? ==>
         w.value.dataType == DataTypeToGdal(Numpy(ReadType(dataType))).value &&
         |w.value.bands| == |raster| &&
         forall i :: 0 <= i < |raster| ==>
           w.value.bands[i] == Some(TypedBand(raster[i], ReadType(dataType))))
  {
    DefaultTypesAgree(dataType);
  }

  // ---------------------------------------------------------------------------
  // world2pixel and pixel2world (conversion.py:337-379)
  // ---------------------------------------------------------------------------

  /** world2pixel as written: both coordinates are divided by gt[1]; gt[5] is read
      but unused. */
  function World2Pixel(gt: GeoTransform, lon: real, lat: real): (r: Result<Pixel>)
    ensures r.Failure? <==> gt.pixelWidth == 0.0
    ensures r.Failure? ==> r.error == ZeroDivisionError
  {
    if gt.pixelWidth == 0.0 then Failure(ZeroDivisionError)
    else Success(Pixel(Trunc((lon - gt.originX) / gt.pixelWidth),
                       Trunc((gt.originY - lat) / gt.pixelWidth)))
  }

  /** pixel2world: the world position of the (cols, rows) corner, which the code
      returns as (maxx, miny). */
  function Pixel2World(gt: GeoTransform, cols: real, rows: real): Point2
  {
    Point2(gt.originX + cols * gt.pixelWidth + rows * gt.rowRotation,
           gt.originY + cols * gt.columnRotation + rows * gt.pixelHeight)
  }

  /** The origin maps to pixel (0, 0) and back. */
  lemma Origin(gt: GeoTransform)
    ensures Pixel2World(gt, 0.0, 0.0) == Point2(gt.originX, gt.originY)
    ensures gt.pixelWidth != 0.0 ==> World2Pixel(gt, gt.originX, gt.originY) == Success(Pixel(0, 0))
  {
  }

  /** gt[5] has no influence on world2pixel. */
  lemma World2PixelIgnoresPixelHeight(gt: GeoTransform, h: real, lon: real, lat: real)
    ensures World2Pixel(gt, lon, lat) == World2Pixel(gt.(pixelHeight := h), lon, lat)
  {
  }

  /** Northing grows downwards by one pixel width per row. */
  predicate NorthUpSquare(gt: GeoTransform)
  {
    gt.rowRotation == 0.0 && gt.columnRotation == 0.0 &&
    gt.pixelWidth != 0.0 && gt.pixelHeight == -gt.pixelWidth
  }

  lemma DivideMultiple(k: int, w: real)
    requires w != 0.0
    ensures (k as real * w) / w == k as real
  {
  }

  /** For a north-up geotransform with square pixels, world2pixel inverts pixel2world
      on every integer pixel position. */
  lemma {:induction false} PixelRoundTrip(gt: GeoTransform, c: int, r: int)
    requires NorthUpSquare(gt)
    ensures var p := Pixel2World(gt, c as real, r as real);
            World2Pixel(gt, p.x, p.y) == Success(Pixel(c, r))
  {
    var w := gt.pixelWidth;
    var p := Pixel2World(gt, c as real, r as real);
    assert p.x - gt.originX == c as real * w by {
      assert p.x == gt.originX + c as real * w + r as real * 0.0;
    }
    assert gt.originY - p.y == r as real * w by {
      assert p.y == gt.originY + c as real * 0.0 + r as real * -w;
    }
    assert (p.x - gt.originX) / w == c as real by {
      DivideMultiple(c, w);
    }
    assert (gt.originY - p.y) / w == r as real by {
      DivideMultiple(r, w);
    }
    RoundOfInteger(c);
    RoundOfInteger(r);
  }

  /** With non-square pixels the round trip fails, because the row is measured in
      pixel widths: on an unrotated grid whose pixels are twice as tall as wide,
      pixel (c, r) comes back from world2pixel as (c, 2 r). */
  lemma {:induction false} NonSquareRowScale(gt: GeoTransform, c: int, r: int)
    requires gt.rowRotation == 0.0 && gt.columnRotation == 0.0
    requires gt.pixelWidth != 0.0 && gt.pixelHeight == -2.0 * gt.pixelWidth
    ensures var p := Pixel2World(gt, c as real, r as real);
            World2Pixel(gt, p.x, p.y) == Success(Pixel(c, 2 * r))
  {
    var w := gt.pixelWidth;
    var p := Pixel2World(gt, c as real, r as real);
    assert p.x - gt.originX == c as real * w by {
      assert p.x == gt.originX + c as real * w + r as real * 0.0;
    }
    assert gt.originY - p.y == (2 * r) as real * w by {
      assert p.y == gt.originY + c as real * 0.0 + r as real * (-2.0 * w);
    }
    assert (p.x - gt.originX) / w == c as real by {
      DivideMultiple(c, w);
    }
    assert (gt.originY - p.y) / w == (2 * r) as real by {
      DivideMultiple(2 * r, w);
    }
    RoundOfInteger(c);
    RoundOfInteger(2 * r);
  }

  /** Truncation picks the cell that holds a non-negative offset: with cells of
      positive size, the offset lies in [n * size, (n + 1) * size). */
  lemma CellOfOffset(offset: real, size: real)
    requires size > 0.0 && offset >= 0.0
    ensures var n := Trunc(offset / size);
            0 <= n && n as real * size <= offset < (n + 1) as real * size
  {
    var q := offset / size;
    assert q >= 0.0;
    var n := Trunc(q);
    assert n as real <= q < (n + 1) as real;
    ScaleCell(q, n, size);
    assert offset == q * size;
    assert q * size < (n + 1) as real * size;
    assert offset < (n + 1) as real * size;
  }

  /** n <= q < n + 1 scales to n * size <= q * size < (n + 1) * size. */
  lemma ScaleCell(q: real, n: int, size: real)
    requires size > 0.0 && n as real <= q < (n + 1) as real
    ensures n as real * size <= q * size < (n + 1) as real * size
  {
    MultiplyMonotone(n as real, q, size);
    MultiplyMonotoneStrict(q, (n + 1) as real, size);
  }

  lemma MultiplyMonotone(a: real, b: real, c: real)
    requires a <= b && c >= 0.0
    ensures a * c <= b * c
  {
  }

  lemma MultiplyMonotoneStrict(a: real, b: real, c: real)
    requires a < b && c > 0.0
    ensures a * c < b * c
  {
  }

  /** For a positive pixel width, world2pixel returns the column and row of the cell
      that contains the point, for points right of and below the origin. */
  lemma World2PixelCell(gt: GeoTransform, lon: real, lat: real)
    requires gt.pixelWidth > 0.0 && lon >= gt.originX && lat <= gt.originY
    ensures var p := World2Pixel(gt, lon, lat).value;
      gt.originX + p.col as real * gt.pixelWidth <= lon < gt.originX + (p.col + 1) as real * gt.pixelWidth &&
      gt.originY - (p.row + 1) as real * gt.pixelWidth < lat <= gt.originY - p.row as real * gt.pixelWidth
  {
    CellOfOffset(lon - gt.originX, gt.pixelWidth);
    CellOfOffset(gt.originY - lat, gt.pixelWidth);
  }

  // ---------------------------------------------------------------------------
  // shp2rast sizing (conversion.py:207-225) and polygon2array sizing (286-289)
  // ---------------------------------------------------------------------------

  /** A vector extent in OGR's GetExtent order. */
  datatype Extent = Extent(xMin: real, xMax: real, yMin: real, yMax: real)

  /** The size and geotransform of a raster the code creates. */
  datatype GridPlan = GridPlan(cols: int, rows: int, geoTransform: GeoTransform)

  /** shp2rast's result: the extent it returns, and the raster it creates, if any. */
  datatype Shp2RastOutcome = Shp2RastOutcome(extent: Extent, target: Option<GridPlan>)

  predicate HasZeroBound(e: Extent)
  {
    e.xMin == 0.0 || e.xMax == 0.0 || e.yMin == 0.0 || e.yMax == 0.0
  }

  function Abs(x: real): (a: real)
    ensures a >= 0.0 && (a == x || a == -x)
  {
    if x >= 0.0 then x else -x
  }

  /** The sizing part of shp2rast. `given` holds the x_min, x_max, y_min, y_max
      arguments, `layerExtent` what the layer's GetExtent returns. */
  method Shp2RastSizing(rows: int, cols: int, pxW: real, pxH: real,
                        given: Extent, layerExtent: Extent)
    returns (r: Result<Shp2RastOutcome>)
    ensures var e := if HasZeroBound(given) then layerExtent else given;
      && (r.Failure? <==> (rows == 0 || cols == 0) && (pxW == 0.0 || pxH == 0.0))
      && (r.Failure? ==> r.error == ZeroDivisionError)
      && (r.Success? ==> r.value.extent == e)
      // given sizes and pixel sizes all usable: the pixel size is (px_W, |px_H|)
      && (rows != 0 && cols != 0 && pxW != 0.0 && pxH != 0.0 && e.xMin != 0.0 && e.yMax != 0.0 ==>
            r == Success(Shp2RastOutcome(e, Some(GridPlan(cols, rows,
                   GeoTransform(e.xMin, pxW, 0.0, e.yMax, 0.0, -Abs(pxH)))))))
      // only the sizes usable: the pixel size is extent / size, so the grid spans the extent exactly
      && (rows != 0 && cols != 0 && !(pxW != 0.0 && pxH != 0.0 && e.xMin != 0.0 && e.yMax != 0.0) ==>
            r.Success? && r.value.target.Some? &&
            var g := r.value.target.value;
            g.cols == cols && g.rows == rows &&
            g.geoTransform.originX == e.xMin && g.geoTransform.originY == e.yMax &&
            g.geoTransform.rowRotation == 0.0 && g.geoTransform.columnRotation == 0.0 &&
            cols as real * g.geoTransform.pixelWidth == e.xMax - e.xMin &&
            rows as real * -g.geoTransform.pixelHeight == e.yMax - e.yMin)
      // sizes missing: they are the truncated extent / pixel size, and a raster is
      // created only if both are non-zero
      && ((rows == 0 || cols == 0) && pxW != 0.0 && pxH != 0.0 ==>
            var c := Trunc((e.xMax - e.xMin) / pxW);
            var w := Trunc((e.yMax - e.yMin) / Abs(pxH));
            r.Success? &&
            r.value.target == (if w != 0 && c != 0 then
              Some(GridPlan(c, w, GeoTransform(e.xMin, pxW, 0.0, e.yMax, 0.0, -Abs(pxH))))
            else None))
      && (r.Success? && r.value.target.Some? ==>
            r.value.target.value.rows != 0 && r.value.target.value.cols != 0)
  {
    var xMin, xMax, yMin, yMax := given.xMin, given.xMax, given.yMin, given.yMax;
    if xMin == 0.0 || xMax == 0.0 || yMin == 0.0 || yMax == 0.0 {
      xMin, xMax, yMin, yMax := layerExtent.xMin, layerExtent.xMax, layerExtent.yMin, layerExtent.yMax;
    }
    var pixelSizeX: real, pixelSizeY: real;
    var rows, cols := rows, cols;
    if rows != 0 && cols != 0 && pxW != 0.0 && pxH != 0.0 && xMin != 0.0 && yMax != 0.0 {
      pixelSizeX := pxW;
      pixelSizeY := Abs(pxH);
    } else {
      if rows != 0 && cols != 0 {
        pixelSizeX := (xMax - xMin) / cols as real;
        pixelSizeY := (yMax - yMin) / rows as real;
        assert cols as real * pixelSizeX == xMax - xMin;
        assert rows as real * pixelSizeY == yMax - yMin;
      } else {
        pixelSizeX := pxW;
        pixelSizeY := Abs(pxH);
        if pixelSizeX == 0.0 || pixelSizeY == 0.0 {
          return Failure(ZeroDivisionError);
        }
        cols := Trunc((xMax - xMin) / pixelSizeX);
        rows := Trunc((yMax - yMin) / pixelSizeY);
      }
    }
    var extent := Extent(xMin, xMax, yMin, yMax);
    if rows != 0 && cols != 0 {
      var gt := GeoTransform(xMin, pixelSizeX, 0.0, yMax, 0.0, -pixelSizeY);
      r := Success(Shp2RastOutcome(extent, Some(GridPlan(cols, rows, gt))));
    } else {
      r := Success(Shp2RastOutcome(extent, None));
    }
  }

  /** With a positive pixel size and a well-formed extent, the sizes shp2rast
      computes when none are given cover the extent up to less than one pixel. */
  lemma Shp2RastCoverage(e: Extent, pxW: real, pxH: real)
    requires pxW > 0.0 && pxH != 0.0 && e.xMin <= e.xMax && e.yMin <= e.yMax
    ensures var c := Trunc((e.xMax - e.xMin) / pxW);
            var w := Trunc((e.yMax - e.yMin) / Abs(pxH));
      c as real * pxW <= e.xMax - e.xMin < (c + 1) as real * pxW &&
      w as real * Abs(pxH) <= e.yMax - e.yMin < (w + 1) as real * Abs(pxH)
  {
    CellOfOffset(e.xMax - e.xMin, pxW);
    CellOfOffset(e.yMax - e.yMin, Abs(pxH));
  }

  /** The grid polygon2array rasterises the layer into: the truncated number of
      whole pixels across the extent, anchored at its top-left corner. */
  function Polygon2ArrayGrid(e: Extent, gt: GeoTransform): (r: Result<GridPlan>)
    ensures r.Failure? <==> gt.pixelWidth == 0.0 || gt.pixelHeight == 0.0
    ensures r.Success? ==>
      r.value.geoTransform == GeoTransform(e.xMin, gt.pixelWidth, 0.0, e.yMax, 0.0, gt.pixelHeight)
  {
    if gt.pixelWidth == 0.0 then Failure(ZeroDivisionError)
    else if Abs(gt.pixelHeight) == 0.0 then Failure(ZeroDivisionError)
    else Success(GridPlan(Trunc((e.xMax - e.xMin) / gt.pixelWidth),
                          Trunc((e.yMax - e.yMin) / Abs(gt.pixelHeight)),
                          GeoTransform(e.xMin, gt.pixelWidth, 0.0, e.yMax, 0.0, gt.pixelHeight)))
  }

  /** With positive pixel width and a well-formed extent, the grid is the largest
      whole number of pixels that fits in the extent in each direction. */
  lemma Polygon2ArrayCoverage(e: Extent, gt: GeoTransform)
    requires gt.pixelWidth > 0.0 && gt.pixelHeight != 0.0 && e.xMin <= e.xMax && e.yMin <= e.yMax
    ensures var g := Polygon2ArrayGrid(e, gt).value;
      0 <= g.cols && 0 <= g.rows &&
      g.cols as real * gt.pixelWidth <= e.xMax - e.xMin < (g.cols + 1) as real * gt.pixelWidth &&
      g.rows as real * Abs(gt.pixelHeight) <= e.yMax - e.yMin < (g.rows + 1) as real * Abs(gt.pixelHeight)
  {
    CellOfOffset(e.xMax - e.xMin, gt.pixelWidth);
    CellOfOffset(e.yMax - e.yMin, Abs(gt.pixelHeight));
  }
}
