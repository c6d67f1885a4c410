/** How the stage methods of the tiled segmentation name the files they
    create: the tile ID, the per-tile statistics files of stage 1, and the
    `_segs`, `_segstats`, `_masked` and `_segsborder` files derived from a
    tile's base name. Each later step finds its inputs again with `glob`, so
    the lemmas here show that every file a step writes is matched by the
    pattern the next step globs for. */
module TileNames {
  import opened Text
  import opened PosixPath

  /** `baseName.split("_")[-1]`: the text after the last '_' of the base name,
      or the whole base name when it has no '_'. */
  function TileId(baseName: string): (id: string)
    ensures '_' !in id
    ensures |id| <= |baseName| && baseName[|baseName| - |id|..] == id
    ensures |id| < |baseName| ==> baseName[|baseName| - |id| - 1] == '_'
    ensures |id| == |baseName| <==> '_' !in baseName
  {
    LastFieldIsSuffix(baseName, '_');
    LastField(baseName, '_')
  }

  /** The stretch-statistics file a stage-1 tile is segmented with. */
  function StretchStatsFile(strchStatsBase: string, tileId: string): string
  {
    strchStatsBase + "_" + tileId + ".txt"
  }

  /** The k-means centres file a stage-1 tile is segmented with. */
  function KCentresFile(kCentresBase: string, tileId: string): string
  {
    kCentresBase + "_" + tileId
  }

  /** A file in `dir` named after the base name of `src` with `suffix` appended. */
  function DerivedFile(dir: string, src: string, suffix: string): string
  {
    Join(dir, Stem(src) + suffix)
  }

  /** The clumps (segments) file written for an image tile. */
  function ClumpsFile(segsDir: string, imgTile: string): string
  {
    DerivedFile(segsDir, imgTile, "_segs.kea")
  }

  /** The temporary JSON file the stage-1 segmentation writes its statistics to. */
  function SegStatsJsonFile(tilesImgDir: string, imgTile: string): string
  {
    DerivedFile(tilesImgDir, imgTile, "_segstats.json")
  }

  /** The stage-2 tile with the stage-1 borders masked out. */
  function MaskedTileFile(maskedDir: string, imgTile: string): string
  {
    DerivedFile(maskedDir, imgTile, "_masked.kea")
  }

  /** The boundary-clump mask exported for a segmented tile. */
  function BorderMaskFile(bordersDir: string, segTile: string): string
  {
    DerivedFile(bordersDir, segTile, "_segsborder.kea")
  }

  /** The temporary directory handed to the segmentation of one tile. */
  function SegTmpPath(tmpDir: string, name: string): string
  {
    Join(tmpDir, name + "_segstemp")
  }

  /** The names the stage-1 loop computes for one image tile. */
  datatype Stage1TileFiles = Stage1TileFiles(
    baseName: string,
    tileId: string,
    clumpsFile: string,
    statsJson: string,
    stretchStats: string,
    kCentres: string,
    tmpPath: string)

  /** The file names of one iteration of the stage-1 segmentation loop. The
      tile ID is the last '_' field of the tile's base name, and it can be
      read back from both statistics file names. The clumps and JSON files
      are named after the base name, the statistics files and the temporary
      directory after the tile ID. */
  function Stage1Files(imgTile: string, tilesImgDir: string, segsDir: string, tmpDir: string,
                       strchStatsBase: string, kCentresBase: string): (f: Stage1TileFiles)
    ensures f.baseName == Stem(imgTile)
    ensures f.tileId == TileId(Stem(imgTile))
    ensures f.kCentres == kCentresBase + "_" + f.tileId && TileId(f.kCentres) == f.tileId
    ensures f.stretchStats == strchStatsBase + "_" + f.tileId + ".txt"
    ensures TileId(f.stretchStats) == f.tileId + ".txt"
    ensures f.clumpsFile == Join(segsDir, f.baseName + "_segs.kea")
    ensures f.statsJson == Join(tilesImgDir, f.baseName + "_segstats.json")
    ensures f.tmpPath == Join(tmpDir, f.tileId + "_segstemp")
  {
    var baseName := Stem(imgTile);
    var tileId := TileId(baseName);
    TileIdOfStatsFiles(strchStatsBase, kCentresBase, tileId);
    Stage1TileFiles(
      baseName,
      tileId,
      ClumpsFile(segsDir, imgTile),
      SegStatsJsonFile(tilesImgDir, imgTile),
      StretchStatsFile(strchStatsBase, tileId),
      KCentresFile(kCentresBase, tileId),
      SegTmpPath(tmpDir, tileId))
  }

  /** The tile ID is recovered from the statistics file names built from it. */
  lemma TileIdOfStatsFiles(strchStatsBase: string, kCentresBase: string, tileId: string)
    requires '_' !in tileId
    ensures TileId(KCentresFile(kCentresBase, tileId)) == tileId
    ensures TileId(StretchStatsFile(strchStatsBase, tileId)) == tileId + ".txt"
  {
    assert KCentresFile(kCentresBase, tileId) == kCentresBase + ['_'] + tileId;
    LastFieldAfterSep(kCentresBase, '_', tileId);
    assert StretchStatsFile(strchStatsBase, tileId) == strchStatsBase + ['_'] + (tileId + ".txt");
    assert '_' !in tileId + ".txt" by {
      forall k | 0 <= k < |tileId + ".txt"| ensures (tileId + ".txt")[k] != '_' {
        if k < |tileId| { assert (tileId + ".txt")[k] == tileId[k]; }
      }
    }
    LastFieldAfterSep(strchStatsBase, '_', tileId + ".txt");
  }

  /** Two tiles share statistics files exactly when they share a tile ID. */
  lemma StatsFilesDistinguishTiles(strchStatsBase: string, kCentresBase: string, id1: string, id2: string)
    ensures StretchStatsFile(strchStatsBase, id1) == StretchStatsFile(strchStatsBase, id2) <==> id1 == id2
    ensures KCentresFile(kCentresBase, id1) == KCentresFile(kCentresBase, id2) <==> id1 == id2
  {
    if StretchStatsFile(strchStatsBase, id1) == StretchStatsFile(strchStatsBase, id2) {
      assert StretchStatsFile(strchStatsBase, id1) == (strchStatsBase + "_") + (id1 + ".txt");
      assert StretchStatsFile(strchStatsBase, id2) == (strchStatsBase + "_") + (id2 + ".txt");
      CancelPrefix(strchStatsBase + "_", id1 + ".txt", id2 + ".txt");
      CancelSuffix(id1, id2, ".txt");
    }
    if KCentresFile(kCentresBase, id1) == KCentresFile(kCentresBase, id2) {
      CancelPrefix(kCentresBase + "_", id1, id2);
    }
  }

  /** A file derived from `<srcDir>/<name>.<ext>` is `<dir>/<name><suffix>`. */
  lemma DerivedFileOfJoin(dir: string, srcDir: string, name: string, ext: string, suffix: string)
    requires '/' !in name && '/' !in ext && '.' !in ext && HasNonDot(name)
    ensures DerivedFile(dir, Join(srcDir, name + "." + ext), suffix) == Join(dir, name + suffix)
  {
    StemOfJoin(srcDir, name, ext);
  }

  /** The statistics JSON of a tile `<imgDir>/<name>.kea` is written beside
      it as `<imgDir>/<name>_segstats.json`, a name the tile glob
      `<tilesBase>*.kea` never matches. */
  lemma StatsJsonBesideTile(tilesBase: string, imgDir: string, name: string)
    requires '/' !in name && HasNonDot(name)
    ensures SegStatsJsonFile(imgDir, Join(imgDir, name + ".kea")) == Join(imgDir, name + "_segstats.json")
    ensures !GlobMatch(tilesBase, ".kea", name + "_segstats.json")
  {
    JsonSpelling(name);
    DerivedFileOfJoin(imgDir, imgDir, name, "kea", "_segstats.json");
    var n := name + "_segstats.json";
    assert n[|n| - 1] == 'n';
  }

  /** Proof helper with no counterpart in the source: the pieces of the
      statistics JSON name spelled out, kept apart so the solver meets each
      literal once. */
  lemma JsonSpelling(name: string)
    ensures '/' !in "kea" && '.' !in "kea"
    ensures name + "." + "kea" == name + ".kea"
    ensures |".kea"| == 4 && ".kea"[3] == 'a'
    ensures |"_segstats.json"| == 14 && "_segstats.json"[13] == 'n'
  {
  }

  /** A name that a glob `<prefix>*<suffix>` picked up still matches after
      its suffix is exchanged for another one. */
  lemma GlobMatchResuffix(prefix: string, name: string, suffix: string, suffix': string)
    requires |name| > 0
    requires GlobMatch(prefix, suffix, name + suffix)
    ensures GlobMatch(prefix, suffix', name + suffix')
  {
    assert (name + suffix)[..|prefix|] == name[..|prefix|] == (name + suffix')[..|prefix|];
    assert (name + suffix')[|name + suffix'| - |suffix'|..] == suffix';
    assert (name + suffix')[0] == name[0] == (name + suffix)[0];
  }

  /** Appending a tail without '/' to a file name keeps it a plain name. */
  lemma ExtendName(name: string, tail: string)
    requires '/' !in name && HasNonDot(name) && '/' !in tail
    ensures '/' !in name + tail && HasNonDot(name + tail)
  {
    var k :| 0 <= k < |name| && name[k] != '.';
    assert (name + tail)[k] == name[k];
    forall j | 0 <= j < |name + tail| ensures (name + tail)[j] != '/' {
      if j < |name| { assert (name + tail)[j] == name[j]; }
      else { assert (name + tail)[j] == tail[j - |name|]; }
    }
  }

  /** A glob match survives dropping the front of the suffix. */
  lemma GlobMatchShorterSuffix(prefix: string, name: string, front: string, suffix: string)
    requires GlobMatch(prefix, front + suffix, name)
    ensures GlobMatch(prefix, suffix, name)
  {
    assert name[|name| - |suffix|..] == name[|name| - |front + suffix|..][|front|..];
  }

  /** The name half of one derivation step: the `<tag>.kea` file derived in
      `dir` from `<srcDir>/<name>.kea` is `<dir>/<name><tag>.kea`. */
  lemma DeriveKeaName(dir: string, srcDir: string, name: string, tag: string)
    requires '/' !in name && HasNonDot(name)
    ensures DerivedFile(dir, Join(srcDir, name + ".kea"), tag + ".kea") == Join(dir, (name + tag) + ".kea")
  {
    assert name + "." + "kea" == name + ".kea";
    DerivedFileOfJoin(dir, srcDir, name, "kea", tag + ".kea");
    assert name + (tag + ".kea") == (name + tag) + ".kea";
  }

  /** The glob half of one derivation step: a glob `<prefix>*.kea` that found
      `<name>.kea` has a counterpart `<prefix>*<tag>.kea` that finds
      `<name><tag>.kea`, which `<prefix>*.kea` also matches. */
  lemma DeriveKeaGlob(prefix: string, name: string, tag: string)
    requires |name| > 0
    requires GlobMatch(prefix, ".kea", name + ".kea")
    ensures GlobMatch(prefix, tag + ".kea", (name + tag) + ".kea")
    ensures GlobMatch(prefix, ".kea", (name + tag) + ".kea")
  {
    GlobMatchResuffix(prefix, name, ".kea", tag + ".kea");
    assert name + (tag + ".kea") == (name + tag) + ".kea";
    GlobMatchShorterSuffix(prefix, (name + tag) + ".kea", tag, ".kea");
  }

  /** One derivation step: name and glob halves together. */
  lemma DeriveKeaStep(prefix: string, dir: string, srcDir: string, name: string, tag: string)
    requires '/' !in name && HasNonDot(name) && '/' !in tag
    requires GlobMatch(prefix, ".kea", name + ".kea")
    ensures DerivedFile(dir, Join(srcDir, name + ".kea"), tag + ".kea") == Join(dir, (name + tag) + ".kea")
    ensures GlobMatch(prefix, tag + ".kea", (name + tag) + ".kea")
    ensures GlobMatch(prefix, ".kea", (name + tag) + ".kea")
    ensures '/' !in name + tag && HasNonDot(name + tag)
  {
    DeriveKeaName(dir, srcDir, name, tag);
    DeriveKeaGlob(prefix, name, tag);
    ExtendName(name, tag);
  }

  /** Stage 1 (lines 160-243): an image tile `<name>.kea` found by the glob
      `<tilesBase>*.kea` is segmented into `<name>_segs.kea`, which the border
      and merge globs `<tilesBase>*_segs.kea` find; its border mask
      `<name>_segs_segsborder.kea` is found by the merge glob
      `<tilesBase>*_segsborder.kea`. */
  lemma Stage1FilesFlowThroughGlobs(tilesBase: string, imgDir: string, segsDir: string,
                                    bordersDir: string, name: string)
    requires '/' !in name && HasNonDot(name)
    requires GlobMatch(tilesBase, ".kea", name + ".kea")
    ensures ClumpsFile(segsDir, Join(imgDir, name + ".kea")) == Join(segsDir, name + "_segs.kea")
    ensures GlobMatch(tilesBase, "_segs.kea", name + "_segs.kea")
    ensures BorderMaskFile(bordersDir, Join(segsDir, name + "_segs.kea"))
            == Join(bordersDir, name + "_segs_segsborder.kea")
    ensures GlobMatch(tilesBase, "_segsborder.kea", name + "_segs_segsborder.kea")
  {
    Stage1Spelling(name);
    DeriveKeaStep(tilesBase, segsDir, imgDir, name, "_segs");
    DeriveKeaStep(tilesBase, bordersDir, segsDir, name + "_segs", "_segsborder");
  }

  /** Proof helper with no counterpart in the source: the stage-1 suffixes
      spelled out piece by piece. */
  lemma Stage1Spelling(name: string)
    ensures '/' !in "_segs" && '/' !in "_segsborder"
    ensures "_segs" + ".kea" == "_segs.kea"
    ensures "_segsborder" + ".kea" == "_segsborder.kea"
    ensures (name + "_segs") + ".kea" == name + "_segs.kea"
    ensures ((name + "_segs") + "_segsborder") + ".kea" == name + "_segs_segsborder.kea"
  {
    SuffixSpelling();
    BorderSuffixSpelling();
    assert (name + "_segs") + ".kea" == name + ("_segs" + ".kea");
    assert ((name + "_segs") + "_segsborder") + ".kea" == name + (("_segs" + "_segsborder") + ".kea");
  }

  /** Proof helper with no counterpart in the source: the single suffixes
      spelled out without a file name. */
  lemma SuffixSpelling()
    ensures '/' !in "_segs" && '/' !in "_segsborder" && '/' !in "_masked"
    ensures "_segs" + ".kea" == "_segs.kea"
    ensures "_segsborder" + ".kea" == "_segsborder.kea"
    ensures "_masked" + ".kea" == "_masked.kea"
  {
  }

  /** Proof helper with no counterpart in the source: the suffix of a border
      mask of a stage-1 segment file spelled out. */
  lemma BorderSuffixSpelling()
    ensures ("_segs" + "_segsborder") + ".kea" == "_segs_segsborder.kea"
  {
  }

  /** Proof helper with no counterpart in the source: the suffix of the
      segments of a masked tile spelled out. */
  lemma MaskedSegsSuffixSpelling()
    ensures ("_masked" + "_segs") + ".kea" == "_masked_segs.kea"
  {
  }

  /** Proof helper with no counterpart in the source: the suffix of a border
      mask of the segments of a masked tile spelled out. */
  lemma MaskedBorderSuffixSpelling()
    ensures (("_masked" + "_segs") + "_segsborder") + ".kea" == "_masked_segs_segsborder.kea"
  {
  }

  /** Stage 2 (lines 293-350): a tile `<name>.kea` found by the glob
      `<tilesBase>*.kea` is masked into `<name>_masked.kea`, found by the glob
      `<tilesBase>*_masked.kea`; that is segmented into
      `<name>_masked_segs.kea`, found by `<tilesBase>*_segs.kea`; its border
      mask `<name>_masked_segs_segsborder.kea` is found by the merge glob
      `<tilesBase>*_segsborder.kea`. */
  lemma Stage2FilesFlowThroughGlobs(tilesBase: string, imgDir: string, maskedDir: string,
                                    segsDir: string, bordersDir: string, name: string)
    requires '/' !in name && HasNonDot(name)
    requires GlobMatch(tilesBase, ".kea", name + ".kea")
    ensures MaskedTileFile(maskedDir, Join(imgDir, name + ".kea")) == Join(maskedDir, name + "_masked.kea")
    ensures GlobMatch(tilesBase, "_masked.kea", name + "_masked.kea")
    ensures ClumpsFile(segsDir, Join(maskedDir, name + "_masked.kea"))
            == Join(segsDir, name + "_masked_segs.kea")
    ensures GlobMatch(tilesBase, "_segs.kea", name + "_masked_segs.kea")
    ensures BorderMaskFile(bordersDir, Join(segsDir, name + "_masked_segs.kea"))
            == Join(bordersDir, name + "_masked_segs_segsborder.kea")
    ensures GlobMatch(tilesBase, "_segsborder.kea", name + "_masked_segs_segsborder.kea")
  {
    Stage2Spelling(name);
    DeriveKeaStep(tilesBase, maskedDir, imgDir, name, "_masked");
    DeriveKeaStep(tilesBase, segsDir, maskedDir, name + "_masked", "_segs");
    DeriveKeaStep(tilesBase, bordersDir, segsDir, (name + "_masked") + "_segs", "_segsborder");
  }

  /** Proof helper with no counterpart in the source: the stage-2 suffixes
      spelled out piece by piece. */
  lemma Stage2Spelling(name: string)
    ensures '/' !in "_masked" && '/' !in "_segs" && '/' !in "_segsborder"
    ensures "_masked" + ".kea" == "_masked.kea"
    ensures "_segs" + ".kea" == "_segs.kea"
    ensures "_segsborder" + ".kea" == "_segsborder.kea"
    ensures (name + "_masked") + ".kea" == name + "_masked.kea"
    ensures ((name + "_masked") + "_segs") + ".kea" == name + "_masked_segs.kea"
    ensures (((name + "_masked") + "_segs") + "_segsborder") + ".kea" == name + "_masked_segs_segsborder.kea"
  {
    SuffixSpelling();
    MaskedSegsSuffixSpelling();
    MaskedBorderSuffixSpelling();
    assert (name + "_masked") + ".kea" == name + ("_masked" + ".kea");
    assert ((name + "_masked") + "_segs") + ".kea" == name + (("_masked" + "_segs") + ".kea");
    assert (((name + "_masked") + "_segs") + "_segsborder") + ".kea"
        == name + ((("_masked" + "_segs") + "_segsborder") + ".kea");
  }
}
