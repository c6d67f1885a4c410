# Tiled single-thread segmentation: selection, naming and stage-3 routing

This project models the decision logic inside RSGISLib's tiled segmentation
driver, `python/rsgislib/segmentation/tiledsegsingle.py`. The driver splits a
large image into tiles and segments each tile. It then re-segments offset
tiles and the residual boundary regions, and merges everything into one
clumps image. The raster work is done by external libraries. What the driver
decides for itself is modelled and proved here:

- **Statistics selection** (`findSegStatsFiles`). A tile's centre is computed
  from its geotransform. The k-means centres and stretch statistics of the
  stage-1 tile whose centre is nearest are chosen; the first such tile wins a
  tie. An empty statistics map gives `("", "")`, with or without a geotransform.
  When `GetGeoTransform` returns `None` and the map is non-empty, the Python
  code raises a `NameError`, modelled as the error `UndefinedCentre`.
- **File naming**. The tile ID is the last `_` field of a tile's base name.
  The statistics files are named after the tile ID. The `_segs`,
  `_segstats.json`, `_masked` and `_segsborder` files are named after the
  base name. Each later step finds its inputs again with `glob`, so the
  lemmas show that every file a step writes is matched by the pattern the
  next step globs for.
- **Stage-3 routing** (`createStage3ImageSubsets`). Row 0 of the
  boundary-clump table is skipped. Every other row yields one subset. The
  subset becomes a `_masked` file (segmented again) when its pixel count
  exceeds `minSize`, and a `_burn` file (burnt in unchanged) otherwise.
- **Stage-3 merge** (`mergeStage3TilesToOutput`). Operations are appended to a
  log. Burn tiles are merged only if there are any, always before the segment
  tiles, and the output's statistics are populated last.

Modules:

- `Text` (`text.dfy`): `str.split`, `join` and `str(i)`.
- `PosixPath` (`paths.dfy`): `os.path.join`, `basename`, the root of
  `splitext`, and `glob` on `<dir>/<prefix>*<suffix>`.
- `TileNames` (`tile_names.dfy`): the per-stage file names.
- `SegStats` (`seg_stats.dfy`): the selection and the segmentation loops of
  stages 2 and 3.
- `Stage3` (`stage3.dfy`): subset classification and merge.

External calls are recorded as values:

- A segmentation call is a `SegCall` record.
- A subset/mask step is a `SubsetJob`.
- A merge or statistics call is an `Operation` in the log.
- Opening a raster is the parameter `rasterOf`.
- The directory contents `glob` sees are listings passed in.

## Model

| member | source | states |
|---|---|---|
| SegStats.FindSegStatsFiles | python/rsgislib/segmentation/tiledsegsingle.py:68-109 | Fails exactly when `GetGeoTransform` returned `None` and the map is non-empty. Otherwise an empty map gives `("", "")`, and a non-empty map gives both files of one entry: no entry is nearer to the tile centre, and every earlier entry is strictly farther (first wins ties). |
| SegStats.TileCentre | python/rsgislib/segmentation/tiledsegsingle.py:72-86 | The centre as written. x is halfway between the origin and the right edge. y plus half the non-negative height equals the right x edge (`yMin = xMax - height`). |
| SegStats.NonNegative | python/rsgislib/segmentation/tiledsegsingle.py:79-80 | A negative pixel height is negated. The result is non-negative with the same magnitude. |
| SegStats.WrittenCentreIgnoresOriginY | python/rsgislib/segmentation/tiledsegsingle.py:83 | Two geotransforms that differ only in origin y give the same written centre. |
| SegStats.WrittenCentreOutsideTile | python/rsgislib/segmentation/tiledsegsingle.py:83 | For a 10x10 unit-pixel tile with top-left corner (0, 100), the written centre (5, 5) lies outside the tile, while the intended centre is (5, 95). |
| SegStats.IntendedTileCentre | python/rsgislib/segmentation/tiledsegsingle.py:73-86 | The corrected centre: same x, and y plus half the height equals the origin's y. |
| SegStats.IntendedCentreInsideTile | python/rsgislib/segmentation/tiledsegsingle.py:72-86 | For a non-negative pixel width, the corrected centre lies inside the tile's extent. |
| SegStats.SqDist | python/rsgislib/segmentation/tiledsegsingle.py:96-98 | The squared distance is non-negative, and zero from a point to itself. |
| SegStats.FirstNearestExists | python/rsgislib/segmentation/tiledsegsingle.py:93-107 | Every non-empty map has an entry that is nearest, with all earlier entries strictly farther. |
| SegStats.FirstNearestUnique | python/rsgislib/segmentation/tiledsegsingle.py:104 | At most one entry has that property, because the comparison is strict. |
| SegStats.SelectionDetermined | python/rsgislib/segmentation/tiledsegsingle.py:93-109 | Two results that both satisfy the selection are equal, so the two files come from the same entry. |
| SegStats.SegmentWithPreCalcStats | python/rsgislib/segmentation/tiledsegsingle.py:302-448 | The loops at lines 302-324 (stage 2) and 424-448 (stage 3). Each globbed tile is segmented, in order, into `<segsDir>/<base>_segs.kea` with temp path `<tmpDir>/<base>_segstemp` and the statistics selected for its raster. On failure, the calls made so far and the failing tile are reported. |
| Text.LastFieldIsSuffix | python/rsgislib/segmentation/tiledsegsingle.py:164 | `s.split(sep)[-1]` has no separator and is a suffix of `s`. A separator precedes it unless it is the whole of `s`, which happens exactly when `s` has no separator. |
| Text.JoinSplit | python/rsgislib/segmentation/tiledsegsingle.py:164 | Joining the fields of a split gives back the text. |
| Text.SplitJoin | python/rsgislib/segmentation/tiledsegsingle.py:164 | Splitting a join of separator-free fields gives back the fields. |
| Text.LastFieldAfterSep | python/rsgislib/segmentation/tiledsegsingle.py:164 | Appending `_` and a text without `_` makes that text the last field. |
| Text.ParseDecimalOfDecimal | python/rsgislib/segmentation/tiledsegsingle.py:387 | `str(i)` reads back as `i`. |
| Text.DecimalInjective | python/rsgislib/segmentation/tiledsegsingle.py:387 | Two row numbers have the same `str` exactly when they are equal. |
| PosixPath.JoinShape | python/rsgislib/segmentation/tiledsegsingle.py:165 | `os.path.join` ends with the name. An absolute name is the whole result. Otherwise the directory comes first, with one `/` added only when it does not already end in one. |
| PosixPath.BaseNameShape | python/rsgislib/segmentation/tiledsegsingle.py:163 | The base name is the suffix after the last `/`. |
| PosixPath.SplitExtRootShape | python/rsgislib/segmentation/tiledsegsingle.py:163 | The `splitext` root is a prefix cut at the last `.`, and only when something other than a dot precedes that `.`. |
| PosixPath.BaseNameOfJoin | python/rsgislib/segmentation/tiledsegsingle.py:163-165 | A plain name joined onto any directory is its own base name. |
| PosixPath.StemOfJoin | python/rsgislib/segmentation/tiledsegsingle.py:163 | The base name without extension of `<dir>/<name>.<ext>` is `name`. |
| PosixPath.Glob | python/rsgislib/segmentation/tiledsegsingle.py:160 | A path is returned exactly when it is the directory joined with a listed name that starts with the prefix and ends with the suffix (dot-files only for a pattern that starts with a dot). |
| TileNames.TileId | python/rsgislib/segmentation/tiledsegsingle.py:164 | The tile ID has no `_` and is the base name's suffix after its last `_`. It is the whole base name exactly when that has no `_`. |
| TileNames.Stage1Files | python/rsgislib/segmentation/tiledsegsingle.py:163-174 | The tile ID is taken from the tile's base name. It reads back from the k-centres name, and with `.txt` from the stretch-statistics name. The base name is the stem of the tile's path. The clumps file is `<segsDir>/<base>_segs.kea` and the statistics JSON `<tilesImgDir>/<base>_segstats.json`. The statistics files are `<kCentresBase>_<id>` and `<strchStatsBase>_<id>.txt`, and the temporary directory is `<tmpDir>/<id>_segstemp`, named after the tile ID. |
| TileNames.TileIdOfStatsFiles | python/rsgislib/segmentation/tiledsegsingle.py:167-168 | The last `_` field of `<kBase>_<id>` is `id`, and of `<sBase>_<id>.txt` it is `id.txt`. |
| TileNames.StatsFilesDistinguishTiles | python/rsgislib/segmentation/tiledsegsingle.py:167-168 | Two tiles get the same statistics files exactly when they have the same tile ID. |
| TileNames.StatsJsonBesideTile | python/rsgislib/segmentation/tiledsegsingle.py:166 | The statistics JSON of `<dir>/<name>.kea` is `<dir>/<name>_segstats.json`. The tile glob never matches it. |
| TileNames.DerivedFileOfJoin | python/rsgislib/segmentation/tiledsegsingle.py:295-296 | A file derived from `<srcDir>/<name>.<ext>` with a suffix is `<dir>/<name><suffix>`. |
| TileNames.Stage1FilesFlowThroughGlobs | python/rsgislib/segmentation/tiledsegsingle.py:160-237 | A stage-1 tile's `_segs` file is found by the border and merge globs. Its `_segsborder` mask is found by the border-merge glob. |
| TileNames.Stage2FilesFlowThroughGlobs | python/rsgislib/segmentation/tiledsegsingle.py:293-346 | A stage-2 tile's `_masked` file is found by the segmentation glob. Its `_segs` file is found by the border and merge globs, and its `_segsborder` mask by the border-merge glob. |
| Stage3.CreateStage3ImageSubsets | python/rsgislib/segmentation/tiledsegsingle.py:385-410 | Row 0 yields nothing, and every other row yields exactly one job, in row order. A job has the row's bounding box, the subset `<base><i>.kea`, and the masked file `<base><i>_masked.kea` when `Histogram[i] > minSize`, otherwise `<base><i>_burn.kea`. The masked files, in order, are the masked directory joined with `RegionFileNames`, the listing that `Stage3RoutesEveryRegion`, `BurnTilesIffSmallRegion` and `MergeBurnsSmallRegions` take as the directory's contents. |
| Stage3.RegionRouting | python/rsgislib/segmentation/tiledsegsingle.py:399-406 | A row's masked name matches `<base>*_masked.kea` exactly when the region is large, and `<base>*_burn.kea` exactly when it is not. |
| Stage3.SubsetImageNameInjective | python/rsgislib/segmentation/tiledsegsingle.py:387 | Different rows never share a subset image name. |
| Stage3.RegionFileNameInjective | python/rsgislib/segmentation/tiledsegsingle.py:399-406 | Two masked names are equal exactly when they come from the same row and the same routing. |
| Stage3.Stage3RoutesEveryRegion | python/rsgislib/segmentation/tiledsegsingle.py:424-455 | Over the loop's output, each row's file is found by the segmentation glob exactly when its region is large, and by the burn glob exactly when it is not. |
| Stage3.BurnTilesIffSmallRegion | python/rsgislib/segmentation/tiledsegsingle.py:453-456 | The burn glob finds something exactly when some row after row 0 is a small region. |
| Stage3.Stage3SegmentsReachMerge | python/rsgislib/segmentation/tiledsegsingle.py:428-429 | A large region is segmented into `<base><i>_masked_segs.kea`, which the merge glob `<base>*_segs.kea` finds. |
| Stage3.MergeStage3TilesToOutput | python/rsgislib/segmentation/tiledsegsingle.py:450-461 | The log keeps its old entries. Three operations are appended if the burn glob found tiles, otherwise two: the burn merge first, then the segment merge, then the statistics of the output. |
| Stage3.MergeBurnsSmallRegions | python/rsgislib/segmentation/tiledsegsingle.py:453-460 | After the stage-3 loop, any small region makes the merge append a burn merge whose tiles include that region's `_burn` file. |

## Left out

- Raster I/O and the external calls are not modelled. This covers GDAL, RIOS, `rastergis`, `imageutils`, `tilingutils`, `segmentation` and `shepherdseg`. They are recorded as values (`SegCall`, `SubsetJob`, `Operation`) or omitted; what they do to pixels and attribute tables is outside the model.
- The stage-1 and stage-2 tiling methods, `defineStage1Boundaries`, `mergeStage1TilesToOutput` and `mergeStage2TilesToOutput` are modelled only through the file names and glob patterns they use, in the flow lemmas. They only sequence external calls.
- `perform_tiled_segmentation` (lines 464-727) is left out: it creates and removes directories and calls the stage methods in order.
- JSON reading and writing is left out. The statistics map is a sequence of entries in the map's iteration order. Stage 1 writes the map with `json.dump(..., sort_keys=True)` (lines 198-206) and the driver reads it back with `json.loads` (lines 596-598), so that order is the tile base names sorted by code point, and a tie goes to the first stage-1 tile in that order. The model does not impose the sorting; its selection lemmas hold for any order. A missing key (`KeyError`) is not modelled.
- `glob` returns paths in an unspecified order; the model returns them in the order of the listing passed in.
- PosixPath.Glob: treats the prefix and suffix as literal text, so it assumes that the input image's base name, the temporary directory and the output directories contain no `*`, `?` or `[`. The driver puts this user-supplied text into its patterns without `glob.escape`, and a name such as `img[2020].kea` would be read as a character class, so the real glob would find other files or none. `glob` also rebuilds each path with `os.path.split`, which collapses a run of trailing `/` in the directory (`d//` gives `d/x`), whereas `Join` keeps the directory as given; the driver never builds such a directory.
- Floating point is modelled as exact `real` arithmetic: no rounding, infinities or NaN. The Histogram column is a `real` sequence compared with the integer `minSize`.
- CreateStage3ImageSubsets: requires the five table columns to have the same length, as columns of one attribute table do; a shorter column (an `IndexError` in Python) is not modelled.
- SegStats.FindSegStatsFiles: models a `None` geotransform as the error `UndefinedCentre`. GDAL's Python binding, called as at line 70 without `can_return_null=True`, returns the default `(0, 1, 0, 0, 0, 1)` for a raster that has none rather than `None`, so with that binding this branch is not reached; the model keeps it because the source tests for it. GDAL itself is not part of this model.
- SqDist: does not state that distinct points have a positive distance; the selection does not depend on it.
- The lemmas about stage-3 names require the subset base name to contain no `/`. The driver builds it from a file base name.
- `src/img/RSGISGenHistogram.h` and `src/img/RSGISAddNoise.h` are not part of this model. They hold declarations only.

## Findings

| source | as written | input that shows it | evidently intended | confidence | as-written member | corrected member |
|---|---|---|---|---|---|---|
| python/rsgislib/segmentation/tiledsegsingle.py:83 | `yMin = xMax - height`: the lower y bound is taken from the right-hand x edge | geotransform (0, 1, 0, 100, 0, -1), 10x10 pixels: the tile spans y 90 to 100, yet the centre's y is 5 | `yMin = yMax - height`, giving y 95 | high, not executed | SegStats.WrittenCentreOutsideTile | SegStats.IntendedCentreInsideTile |

`SegStats.FindSegStatsFiles` uses `SegStats.TileCentre`, so the selection matches the code as shipped. The corrected centre is `SegStats.IntendedTileCentre`. Its property is proved in `SegStats.IntendedCentreInsideTile`. The selection proofs hold for whichever centre is used, because they are stated about any point `c`.
