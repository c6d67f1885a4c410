/** Choosing the stage-1 statistics a later tile is segmented with
    (`findSegStatsFiles`): the tile's centre is computed from its
    geotransform and the k-means centres and stretch statistics of the
    stage-1 tile whose centre is nearest are used. Also the loop of stages 2
    and 3 that segments each tile with the statistics chosen for it. */
module SegStats {
  import opened PosixPath
  import opened TileNames

  datatype Option<T> = None | Some(value: T)

  /** The one failure of `findSegStatsFiles`: when `GetGeoTransform` returns
      `None` the centre is never assigned, and reading it in the loop raises
      a NameError. */
  datatype Error = UndefinedCentre

  /** A GDAL geotransform: the origin (top-left corner), the pixel size and
      the two rotation terms, in GDAL's order. */
  datatype GeoTransform = GeoTransform(
    originX: real, pixelWidth: real, rowRotation: real,
    originY: real, columnRotation: real, pixelHeight: real)

  /** What is read from a tile's raster: its geotransform, if it has one,
      and its size in pixels. */
  datatype RasterInfo = RasterInfo(geoTransform: Option<GeoTransform>, xSize: nat, ySize: nat)

  datatype Point = Point(x: real, y: real)

  /** One entry of the statistics map written by stage 1, keyed by tile name:
      the tile's centre point and its two statistics files. */
  datatype TileStatsEntry = TileStatsEntry(tileName: string, centre: Point, kCentres: string, stretchStats: string)

  /** The pair `findSegStatsFiles` returns. */
  datatype StatsFiles = StatsFiles(kCentres: string, stretchStats: string)

  function FilesOf(e: TileStatsEntry): StatsFiles
  {
    StatsFiles(e.kCentres, e.stretchStats)
  }

  /** The pixel height made non-negative, by multiplying a negative one by -1. */
  function NonNegative(r: real): (a: real)
    ensures a >= 0.0 && (a == r || a == -r)
  {
    if r < 0.0 then r * -1.0 else r
  }

  /** The tile centre exactly as `findSegStatsFiles` computes it. The lower
      y bound is taken from the right-hand x edge (`yMin = xMax - height`),
      so the y-centre never depends on the origin's y coordinate. */
  function TileCentre(gt: GeoTransform, xSize: nat, ySize: nat): (c: Point)
    ensures c.x == (gt.originX + (gt.originX + xSize as real * gt.pixelWidth)) / 2.0
    ensures c.y + ySize as real * NonNegative(gt.pixelHeight) / 2.0
            == gt.originX + xSize as real * gt.pixelWidth
  {
    var xMin := gt.originX;
    var xRes := gt.pixelWidth;
    var yRes := NonNegative(gt.pixelHeight);
    var width := xSize as real * xRes;
    var height := ySize as real * yRes;
    var xMax := xMin + width;
    var yMin := xMax - height;
    Point(xMin + width / 2.0, yMin + height / 2.0)
  }

  /** The centre with the lower y bound taken from the top edge
      (`yMin = yMax - height`), as evidently intended. */
  function IntendedTileCentre(gt: GeoTransform, xSize: nat, ySize: nat): (c: Point)
    ensures c.x == TileCentre(gt, xSize, ySize).x
    ensures c.y + ySize as real * NonNegative(gt.pixelHeight) / 2.0 == gt.originY
  {
    var xMin := gt.originX;
    var yMax := gt.originY;
    var width := xSize as real * gt.pixelWidth;
    var height := ySize as real * NonNegative(gt.pixelHeight);
    var yMin := yMax - height;
    Point(xMin + width / 2.0, yMin + height / 2.0)
  }

  /** The tile's extent: x from the origin rightwards, y from the origin downwards. */
  ghost predicate InsideTile(gt: GeoTransform, xSize: nat, ySize: nat, p: Point)
  {
    var xMax := gt.originX + xSize as real * gt.pixelWidth;
    var yMin := gt.originY - ySize as real * NonNegative(gt.pixelHeight);
    gt.originX <= p.x <= xMax && yMin <= p.y <= gt.originY
  }

  /** The intended centre lies inside the tile for every north-up geotransform. */
  lemma IntendedCentreInsideTile(gt: GeoTransform, xSize: nat, ySize: nat)
    requires gt.pixelWidth >= 0.0
    ensures InsideTile(gt, xSize, ySize, IntendedTileCentre(gt, xSize, ySize))
  {
    var c := IntendedTileCentre(gt, xSize, ySize);
    assert 0.0 <= xSize as real * gt.pixelWidth;
    assert 0.0 <= ySize as real * NonNegative(gt.pixelHeight);
  }

  /** As written, moving a tile vertically does not move its computed centre. */
  lemma WrittenCentreIgnoresOriginY(gt: GeoTransform, originY: real, xSize: nat, ySize: nat)
    ensures TileCentre(gt.(originY := originY), xSize, ySize) == TileCentre(gt, xSize, ySize)
  {
  }

  /** A 10 by 10 tile of unit pixels whose top-left corner is (0, 100): the
      written centre is (5, 5), outside the tile's y range [90, 100], while
      the intended centre is (5, 95). */
  lemma WrittenCentreOutsideTile()
    ensures var gt := GeoTransform(0.0, 1.0, 0.0, 100.0, 0.0, -1.0);
      TileCentre(gt, 10, 10) == Point(5.0, 5.0) &&
      !InsideTile(gt, 10, 10, TileCentre(gt, 10, 10)) &&
      IntendedTileCentre(gt, 10, 10) == Point(5.0, 95.0)
  {
  }

  /** The squared Euclidean distance the selection compares (no square root). */
  function SqDist(p: Point, q: Point): (d: real)
    ensures d >= 0.0
    ensures p == q ==> d == 0.0
  {
    var dx, dy := p.x - q.x, p.y - q.y;
    dx * dx + dy * dy
  }

  /** Entry `b` is nearest to `c` and no earlier entry is as near: the entry a
      scan that replaces its choice only on a strictly smaller distance keeps. */
  ghost predicate IsFirstNearest(info: seq<TileStatsEntry>, c: Point, b: int)
  {
    0 <= b < |info| &&
    (forall j :: 0 <= j < |info| ==> SqDist(info[b].centre, c) <= SqDist(info[j].centre, c)) &&
    (forall j :: 0 <= j < b ==> SqDist(info[j].centre, c) > SqDist(info[b].centre, c))
  }

  /** What `findSegStatsFiles` promises: empty names for an empty map, and
      otherwise both files of the first nearest entry. */
  ghost predicate SelectsStats(tile: RasterInfo, info: seq<TileStatsEntry>, files: StatsFiles)
  {
    if |info| == 0 then files == StatsFiles("", "")
    else
      tile.geoTransform.Some? &&
      var c := TileCentre(tile.geoTransform.value, tile.xSize, tile.ySize);
      exists b :: IsFirstNearest(info, c, b) && files == FilesOf(info[b])
  }

  /** Every non-empty map has a first nearest entry. */
  lemma {:induction false} FirstNearestExists(info: seq<TileStatsEntry>, c: Point)
    requires |info| > 0
    ensures exists b :: IsFirstNearest(info, c, b)
  {
    if |info| == 1 {
      assert IsFirstNearest(info, c, 0);
    } else {
      var init := info[..|info| - 1];
      FirstNearestExists(init, c);
      var b :| IsFirstNearest(init, c, b);
      assert forall j :: 0 <= j < |init| ==> info[j] == init[j];
      var last := |info| - 1;
      if SqDist(info[last].centre, c) < SqDist(info[b].centre, c) {
        assert IsFirstNearest(info, c, last);
      } else {
        assert IsFirstNearest(info, c, b);
      }
    }
  }

  /** There is only one first nearest entry. */
  lemma FirstNearestUnique(info: seq<TileStatsEntry>, c: Point, b1: int, b2: int)
    requires IsFirstNearest(info, c, b1) && IsFirstNearest(info, c, b2)
    ensures b1 == b2
  {
    assert SqDist(info[b1].centre, c) == SqDist(info[b2].centre, c);
  }

  /** The selection is fully determined by the tile and the map. */
  lemma SelectionDetermined(tile: RasterInfo, info: seq<TileStatsEntry>, f1: StatsFiles, f2: StatsFiles)
    requires SelectsStats(tile, info, f1) && SelectsStats(tile, info, f2)
    ensures f1 == f2
  {
    if |info| > 0 {
      var c := TileCentre(tile.geoTransform.value, tile.xSize, tile.ySize);
      var b1 :| IsFirstNearest(info, c, b1) && f1 == FilesOf(info[b1]);
      var b2 :| IsFirstNearest(info, c, b2) && f2 == FilesOf(info[b2]);
      FirstNearestUnique(info, c, b1, b2);
    }
  }

  /** `findSegStatsFiles` (lines 68-109): scan the map in order, keeping the
      files of the first entry and then of every entry strictly nearer to the
      tile centre than the one kept. */
  method FindSegStatsFiles(tile: RasterInfo, info: seq<TileStatsEntry>) returns (files: StatsFiles, error: Option<Error>)
    ensures error.Some? <==> tile.geoTransform.None? && |info| > 0
    ensures error.None? ==> SelectsStats(tile, info, files)
  {
    var centre: Option<Point> := None;
    if tile.geoTransform.Some? {
      centre := Some(TileCentre(tile.geoTransform.value, tile.xSize, tile.ySize));
    }
    var first := true;
    var minDist := 0.0;
    var minKCenFile := "";
    var minStchStatsFile := "";
    ghost var best := 0;
    for i := 0 to |info|
      invariant centre.Some? <==> tile.geoTransform.Some?
      invariant centre.Some? ==> centre.value == TileCentre(tile.geoTransform.value, tile.xSize, tile.ySize)
      invariant first <==> i == 0
      invariant first ==> minKCenFile == "" && minStchStatsFile == ""
      invariant !first ==> centre.Some? && IsFirstNearest(info[..i], centre.value, best)
      invariant !first ==> minDist == SqDist(info[best].centre, centre.value)
      invariant !first ==> StatsFiles(minKCenFile, minStchStatsFile) == FilesOf(info[best])
    {
      if centre.None? {
        return StatsFiles("", ""), Some(UndefinedCentre);
      }
      var entry := info[i];
      var dist := SqDist(entry.centre, centre.value);
      if first {
        minKCenFile := entry.kCentres;
        minStchStatsFile := entry.stretchStats;
        minDist := dist;
        first := false;
        best := i;
      } else if dist < minDist {
        minKCenFile := entry.kCentres;
        minStchStatsFile := entry.stretchStats;
        minDist := dist;
        best := i;
      }
      assert info[..i + 1][..i] == info[..i];
    }
    assert info[..|info|] == info;
    return StatsFiles(minKCenFile, minStchStatsFile), None;
  }

  /** One call of the segmentation with precalculated statistics. */
  datatype SegCall = SegCall(image: string, clumpsFile: string, kCentres: string, stretchStats: string, tmpPath: string)

  /** The call made for `imgTile`: segmented into its `_segs` file, with a
      temporary directory named after its base name and the statistics
      `findSegStatsFiles` selects for its raster. */
  ghost predicate IsSegCallFor(call: SegCall, imgTile: string, segsDir: string, tmpDir: string,
                               info: seq<TileStatsEntry>, rasterOf: string -> RasterInfo)
  {
    call.image == imgTile &&
    call.clumpsFile == ClumpsFile(segsDir, imgTile) &&
    call.tmpPath == SegTmpPath(tmpDir, Stem(imgTile)) &&
    SelectsStats(rasterOf(imgTile), info, StatsFiles(call.kCentres, call.stretchStats))
  }

  /** The loops of `performStage2TilesSegmentation` (lines 302-324) and
      `performStage3SubsetsSegmentation` (lines 424-448): each tile the glob
      found is segmented into its `_segs` file in `segsDir` with the
      statistics chosen for it. `rasterOf` stands for opening a tile with GDAL.
      The calls made before a failure are returned with the error. */
  method SegmentWithPreCalcStats(imgTiles: seq<string>, segsDir: string, tmpDir: string,
                                 info: seq<TileStatsEntry>, rasterOf: string -> RasterInfo)
    returns (calls: seq<SegCall>, error: Option<Error>)
    ensures |calls| <= |imgTiles|
    ensures error.None? ==> |calls| == |imgTiles|
    ensures error.Some? ==> |calls| < |imgTiles| && |info| > 0 &&
                            rasterOf(imgTiles[|calls|]).geoTransform.None?
    ensures forall k :: 0 <= k < |calls| ==> IsSegCallFor(calls[k], imgTiles[k], segsDir, tmpDir, info, rasterOf)
  {
    calls := [];
    for i := 0 to |imgTiles|
      invariant |calls| == i
      invariant forall k :: 0 <= k < i ==> IsSegCallFor(calls[k], imgTiles[k], segsDir, tmpDir, info, rasterOf)
    {
      var imgTile := imgTiles[i];
      var baseName := Stem(imgTile);
      var clumpsFile := ClumpsFile(segsDir, imgTile);
      var files, err := FindSegStatsFiles(rasterOf(imgTile), info);
      if err.Some? {
        return calls, err;
      }
      var call := SegCall(imgTile, clumpsFile, files.kCentres, files.stretchStats, SegTmpPath(tmpDir, baseName));
      assert IsSegCallFor(call, imgTiles[i], segsDir, tmpDir, info, rasterOf);
      ghost var done := calls;
      calls := calls + [call];
      forall k | 0 <= k < i + 1
        ensures IsSegCallFor(calls[k], imgTiles[k], segsDir, tmpDir, info, rasterOf)
      {
        if k < i { assert calls[k] == done[k]; }
      }
    }
    error := None;
  }
}
