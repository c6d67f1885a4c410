/** Stage 3 of the tiled segmentation: every clump of the stage-2 boundary
    image (`createStage3ImageSubsets`) is cut out of the input image and
    masked, and routed by its pixel count either to re-segmentation
    (`_masked` files) or to being burnt into the output unchanged (`_burn`
    files); `mergeStage3TilesToOutput` then merges both kinds into the
    output clumps image, burn tiles first. */
module Stage3 {
  import opened Text
  import opened PosixPath
  import opened TileNames

  /** The extent of one boundary clump, read from the table's `minXX`,
      `maxXX`, `minYY` and `maxYY` columns. */
  datatype BBox = BBox(minX: real, maxX: real, minY: real, maxY: real)

  /** What one row of the loop does: subset the input image to `bbox` into
      `subImage`, mask it with the stage-2 borders image into `maskedFile`
      and compute that file's statistics. */
  datatype SubsetJob = SubsetJob(row: nat, subImage: string, bbox: BBox, maskedFile: string)

  /** A clump with more pixels than `minSize` is segmented again; one with
      `minSize` pixels or fewer is burnt in as it is. */
  predicate IsLargeRegion(pixels: real, minSize: int)
  {
    pixels > minSize as real
  }

  /** `subImgBaseName + str(i) + suffix`. */
  function SubsetName(base: string, i: nat, suffix: string): string
  {
    base + Decimal(i) + suffix
  }

  /** The name of the image subset of row `i`. */
  function SubsetImageName(base: string, i: nat): string
  {
    SubsetName(base, i, ".kea")
  }

  /** The name of the masked subset of row `i`: `_masked.kea` for a large
      region, `_burn.kea` otherwise. */
  function RegionFileName(base: string, i: nat, large: bool): string
  {
    SubsetName(base, i, if large then "_masked.kea" else "_burn.kea")
  }

  /** The masked subset names of rows 1 to `|histogram| - 1`, in row order:
      what the loop leaves in the masked-subsets directory. */
  function RegionFileNames(base: string, histogram: seq<real>, minSize: int): (names: seq<string>)
    ensures |names| == if |histogram| == 0 then 0 else |histogram| - 1
    ensures forall k :: 0 <= k < |names| ==>
      names[k] == RegionFileName(base, k + 1, IsLargeRegion(histogram[k + 1], minSize))
  {
    if |histogram| == 0 then []
    else seq(|histogram| - 1, k requires 0 <= k < |histogram| - 1 =>
           RegionFileName(base, k + 1, IsLargeRegion(histogram[k + 1], minSize)))
  }

  /** The job row `i` of the table gives rise to. */
  ghost predicate IsJobFor(job: SubsetJob, i: nat, minX: seq<real>, maxX: seq<real>, minY: seq<real>,
                           maxY: seq<real>, histogram: seq<real>, minSize: int,
                           subsetDir: string, maskedDir: string, base: string)
    requires i < |minX| == |maxX| == |minY| == |maxY| == |histogram|
  {
    job.row == i &&
    job.bbox == BBox(minX[i], maxX[i], minY[i], maxY[i]) &&
    job.subImage == Join(subsetDir, SubsetImageName(base, i)) &&
    job.maskedFile == Join(maskedDir, RegionFileName(base, i, IsLargeRegion(histogram[i], minSize)))
  }

  /** The loop of `createStage3ImageSubsets` (lines 385-410) over the rows of
      the boundary-clump table, whose columns all have one entry per row.
      Row 0 is skipped; every other row yields one job, in row order. */
  method CreateStage3ImageSubsets(minX: seq<real>, maxX: seq<real>, minY: seq<real>, maxY: seq<real>,
                                  histogram: seq<real>, minSize: int,
                                  subsetDir: string, maskedDir: string, base: string)
    returns (jobs: seq<SubsetJob>)
    requires |maxX| == |minX| && |minY| == |minX| && |maxY| == |minX| && |histogram| == |minX|
    ensures |jobs| == if |minX| == 0 then 0 else |minX| - 1
    ensures forall k :: 0 <= k < |jobs| ==> jobs[k].row == k + 1
    ensures forall k :: 0 <= k < |jobs| ==>
      IsJobFor(jobs[k], k + 1, minX, maxX, minY, maxY, histogram, minSize, subsetDir, maskedDir, base)
    ensures |jobs| == |RegionFileNames(base, histogram, minSize)|
    ensures forall k :: 0 <= k < |jobs| ==>
      jobs[k].maskedFile == Join(maskedDir, RegionFileNames(base, histogram, minSize)[k])
  {
    jobs := [];
    for i := 0 to |minX|
      invariant |jobs| == if i == 0 then 0 else i - 1
      invariant forall k :: 0 <= k < |jobs| ==>
        IsJobFor(jobs[k], k + 1, minX, maxX, minY, maxY, histogram, minSize, subsetDir, maskedDir, base)
    {
      if i > 0 {
        var subImage := Join(subsetDir, SubsetImageName(base, i));
        var maskedFile;
        if histogram[i] > minSize as real {
          maskedFile := Join(maskedDir, SubsetName(base, i, "_masked.kea"));
        } else {
          maskedFile := Join(maskedDir, SubsetName(base, i, "_burn.kea"));
        }
        var job := SubsetJob(i, subImage, BBox(minX[i], maxX[i], minY[i], maxY[i]), maskedFile);
        assert IsJobFor(job, i, minX, maxX, minY, maxY, histogram, minSize, subsetDir, maskedDir, base);
        ghost var done := jobs;
        jobs := jobs + [job];
        forall k | 0 <= k < |jobs|
          ensures IsJobFor(jobs[k], k + 1, minX, maxX, minY, maxY, histogram, minSize, subsetDir, maskedDir, base)
        {
          if k < |done| { assert jobs[k] == done[k]; }
        }
      }
    }
  }

  /** Proof helper with no counterpart in the source: the two suffixes
      differ in the ninth character from the end. */
  lemma SuffixLengthSpelling()
    ensures |"_masked.kea"| == 11 && |"_burn.kea"| == 9
    ensures "_masked.kea"[2] == 'a' && "_burn.kea"[0] == '_'
  {
  }

  /** A name ending in `_burn.kea` does not end in `_masked.kea`, and the
      other way round. */
  lemma SuffixesExclusive(name: string)
    ensures |name| >= 9 && name[|name| - 9..] == "_burn.kea" ==>
      !(|name| >= 11 && name[|name| - 11..] == "_masked.kea")
    ensures |name| >= 11 && name[|name| - 11..] == "_masked.kea" ==>
      !(|name| >= 9 && name[|name| - 9..] == "_burn.kea")
  {
    SuffixLengthSpelling();
    if |name| >= 11 && name[|name| - 11..] == "_masked.kea" {
      assert name[|name| - 9] == 'a';
    }
    if |name| >= 9 && name[|name| - 9..] == "_burn.kea" {
      assert name[|name| - 9] == '_';
    }
  }

  /** A subset name is matched by the glob `<base>*<suffix>` for its own suffix. */
  lemma SubsetNameMatches(base: string, i: nat, suffix: string)
    ensures GlobMatch(base, suffix, SubsetName(base, i, suffix))
  {
    var n := SubsetName(base, i, suffix);
    assert n == base + (Decimal(i) + suffix);
    assert n[..|base|] == base;
    assert n[|n| - |suffix|..] == suffix;
    if base == [] {
      assert n[0] == Decimal(i)[0];
    }
  }

  /** The routing rule: the masked subset of a row is picked up by the
      segmentation glob `<base>*_masked.kea` exactly when the region is
      large, and by the burn glob `<base>*_burn.kea` exactly when it is not. */
  lemma RegionRouting(base: string, i: nat, large: bool)
    ensures GlobMatch(base, "_masked.kea", RegionFileName(base, i, large)) <==> large
    ensures GlobMatch(base, "_burn.kea", RegionFileName(base, i, large)) <==> !large
  {
    var n := RegionFileName(base, i, large);
    SuffixesExclusive(n);
    if large {
      SubsetNameMatches(base, i, "_masked.kea");
    } else {
      SubsetNameMatches(base, i, "_burn.kea");
    }
  }

  /** Different rows never share an image subset name. */
  lemma SubsetImageNameInjective(base: string, i: nat, j: nat)
    ensures SubsetImageName(base, i) == SubsetImageName(base, j) <==> i == j
  {
    if SubsetImageName(base, i) == SubsetImageName(base, j) {
      CancelSuffix(base + Decimal(i), base + Decimal(j), ".kea");
      CancelPrefix(base, Decimal(i), Decimal(j));
      DecimalInjective(i, j);
    }
  }

  /** Two masked subsets have the same name only when they come from the
      same row and the same routing. */
  lemma RegionFileNameInjective(base: string, i: nat, j: nat, large1: bool, large2: bool)
    ensures RegionFileName(base, i, large1) == RegionFileName(base, j, large2) <==> i == j && large1 == large2
  {
    if RegionFileName(base, i, large1) == RegionFileName(base, j, large2) {
      RegionRouting(base, i, large1);
      RegionRouting(base, j, large2);
      assert large1 == large2;
      var suffix := if large1 then "_masked.kea" else "_burn.kea";
      CancelSuffix(base + Decimal(i), base + Decimal(j), suffix);
      CancelPrefix(base, Decimal(i), Decimal(j));
      DecimalInjective(i, j);
    }
  }

  /** A subset name never starts with '/' when the base has no '/'. */
  lemma SubsetNameRelative(base: string, i: nat, suffix: string)
    requires '/' !in base
    ensures |SubsetName(base, i, suffix)| > 0 && SubsetName(base, i, suffix)[0] != '/'
  {
    var n := SubsetName(base, i, suffix);
    if base == [] {
      assert n[0] == Decimal(i)[0];
      assert IsDigit(Decimal(i)[0]);
    } else {
      assert n[0] == base[0];
    }
  }

  /** Joining relative names onto one directory keeps them apart. */
  lemma JoinInjective(dir: string, n1: string, n2: string)
    requires |n1| > 0 && n1[0] != '/' && |n2| > 0 && n2[0] != '/'
    ensures Join(dir, n1) == Join(dir, n2) <==> n1 == n2
  {
    if Join(dir, n1) == Join(dir, n2) {
      CancelPrefix(JoinPrefix(dir), n1, n2);
    }
  }

  /** With the masked-subsets directory holding what the loop wrote, each
      row's file is found by the segmentation glob exactly when its region
      is large, and by the burn glob exactly when it is not: every region
      other than row 0 is either segmented again or burnt in, never both. */
  lemma Stage3RoutesEveryRegion(maskedDir: string, base: string, histogram: seq<real>, minSize: int, i: nat)
    requires '/' !in base
    requires 0 < i < |histogram|
    ensures var listing := RegionFileNames(base, histogram, minSize);
      var file := Join(maskedDir, RegionFileName(base, i, IsLargeRegion(histogram[i], minSize)));
      (file in Glob(maskedDir, listing, base, "_masked.kea") <==> IsLargeRegion(histogram[i], minSize)) &&
      (file in Glob(maskedDir, listing, base, "_burn.kea") <==> !IsLargeRegion(histogram[i], minSize))
  {
    var listing := RegionFileNames(base, histogram, minSize);
    var large := IsLargeRegion(histogram[i], minSize);
    var name := RegionFileName(base, i, large);
    assert listing[i - 1] == name;
    RegionRouting(base, i, large);
    FoundOnlyByOwnName(maskedDir, base, histogram, minSize, i, "_masked.kea");
    FoundOnlyByOwnName(maskedDir, base, histogram, minSize, i, "_burn.kea");
  }

  /** A row's file is in a glob over the loop's output exactly when its own
      name matches the pattern. */
  lemma FoundOnlyByOwnName(maskedDir: string, base: string, histogram: seq<real>, minSize: int,
                           i: nat, suffix: string)
    requires '/' !in base
    requires 0 < i < |histogram|
    ensures var listing := RegionFileNames(base, histogram, minSize);
      var name := RegionFileName(base, i, IsLargeRegion(histogram[i], minSize));
      Join(maskedDir, name) in Glob(maskedDir, listing, base, suffix) <==> GlobMatch(base, suffix, name)
  {
    var listing := RegionFileNames(base, histogram, minSize);
    var name := RegionFileName(base, i, IsLargeRegion(histogram[i], minSize));
    assert listing[i - 1] == name;
    if Join(maskedDir, name) in Glob(maskedDir, listing, base, suffix) {
      var n :| n in listing && GlobMatch(base, suffix, n) && Join(maskedDir, name) == Join(maskedDir, n);
      var k :| 0 <= k < |listing| && listing[k] == n;
      SubsetNameRelative(base, i, if IsLargeRegion(histogram[i], minSize) then "_masked.kea" else "_burn.kea");
      SubsetNameRelative(base, k + 1, if IsLargeRegion(histogram[k + 1], minSize) then "_masked.kea" else "_burn.kea");
      JoinInjective(maskedDir, name, n);
    }
  }

  /** The burn glob over the loop's output finds something exactly when
      some row other than row 0 is a small region. */
  lemma BurnTilesIffSmallRegion(maskedDir: string, base: string, histogram: seq<real>, minSize: int)
    requires '/' !in base
    ensures |Glob(maskedDir, RegionFileNames(base, histogram, minSize), base, "_burn.kea")| > 0 <==>
      exists i :: 0 < i < |histogram| && !IsLargeRegion(histogram[i], minSize)
  {
    if |Glob(maskedDir, RegionFileNames(base, histogram, minSize), base, "_burn.kea")| > 0 {
      BurnTileIsSmallRegion(maskedDir, base, histogram, minSize);
    }
    if exists i :: 0 < i < |histogram| && !IsLargeRegion(histogram[i], minSize) {
      var i :| 0 < i < |histogram| && !IsLargeRegion(histogram[i], minSize);
      Stage3RoutesEveryRegion(maskedDir, base, histogram, minSize, i);
    }
  }

  /** The first burn tile found comes from a small region. */
  lemma BurnTileIsSmallRegion(maskedDir: string, base: string, histogram: seq<real>, minSize: int)
    requires |Glob(maskedDir, RegionFileNames(base, histogram, minSize), base, "_burn.kea")| > 0
    ensures exists i :: 0 < i < |histogram| && !IsLargeRegion(histogram[i], minSize)
  {
    var listing := RegionFileNames(base, histogram, minSize);
    var burn := Glob(maskedDir, listing, base, "_burn.kea");
    assert burn[0] in burn;
    var n :| n in listing && GlobMatch(base, "_burn.kea", n) && burn[0] == Join(maskedDir, n);
    var k :| 0 <= k < |listing| && listing[k] == n;
    RegionRouting(base, k + 1, IsLargeRegion(histogram[k + 1], minSize));
    assert !IsLargeRegion(histogram[k + 1], minSize);
  }

  /** A large region's masked subset is segmented (lines 424-448) into a
      `_masked_segs.kea` file that the merge glob `<base>*_segs.kea` finds. */
  lemma Stage3SegmentsReachMerge(maskedDir: string, segsDir: string, base: string, i: nat)
    requires '/' !in base
    ensures ClumpsFile(segsDir, Join(maskedDir, RegionFileName(base, i, true)))
            == Join(segsDir, base + Decimal(i) + "_masked_segs.kea")
    ensures GlobMatch(base, "_segs.kea", base + Decimal(i) + "_masked_segs.kea")
  {
    var stem := base + Decimal(i);
    assert RegionFileName(base, i, true) == stem + "_masked.kea";
    assert SubsetName(base, i, ".kea") == stem + ".kea";
    SubsetNameMatches(base, i, ".kea");
    NoSlashInDecimal(base, i);
    MaskedSegmentsName(maskedDir, segsDir, stem);
    MaskedSegmentsGlob(base, stem);
  }

  /** The name half of `Stage3SegmentsReachMerge`, for a subset stem `<base><i>`. */
  lemma MaskedSegmentsName(maskedDir: string, segsDir: string, stem: string)
    requires '/' !in stem && HasNonDot(stem)
    ensures ClumpsFile(segsDir, Join(maskedDir, stem + "_masked.kea")) == Join(segsDir, stem + "_masked_segs.kea")
  {
    var masked := stem + "_masked";
    var src := Join(maskedDir, masked + ".kea");
    Stage3Spelling(stem);
    ExtendName(stem, "_masked");
    DeriveKeaName(segsDir, maskedDir, masked, "_segs");
    assert src == Join(maskedDir, stem + "_masked.kea");
    assert ClumpsFile(segsDir, src) == DerivedFile(segsDir, src, "_segs" + ".kea");
    assert (masked + "_segs") + ".kea" == stem + "_masked_segs.kea";
  }

  /** The glob half of `Stage3SegmentsReachMerge`: a stem the glob `<base>*.kea`
      matches with `.kea` added is matched by `<base>*_segs.kea` with
      `_masked_segs.kea` added. */
  lemma MaskedSegmentsGlob(base: string, stem: string)
    requires |stem| > 0
    requires GlobMatch(base, ".kea", stem + ".kea")
    ensures GlobMatch(base, "_segs.kea", stem + "_masked_segs.kea")
  {
    var masked := stem + "_masked";
    Stage3Spelling(stem);
    DeriveKeaGlob(base, stem, "_masked");
    DeriveKeaGlob(base, masked, "_segs");
    assert (masked + "_segs") + ".kea" == stem + "_masked_segs.kea";
  }

  /** The row number text adds no '/' and is not made of dots. */
  lemma NoSlashInDecimal(base: string, i: nat)
    requires '/' !in base
    ensures '/' !in base + Decimal(i) && HasNonDot(base + Decimal(i))
  {
    var n := base + Decimal(i);
    assert n[|base|] == Decimal(i)[0];
    assert IsDigit(Decimal(i)[0]);
    forall j | 0 <= j < |n| ensures n[j] != '/' {
      if j < |base| { assert n[j] == base[j]; }
      else { assert n[j] == Decimal(i)[j - |base|]; assert IsDigit(n[j]); }
    }
  }

  /** Proof helper with no counterpart in the source: the stage-3 suffixes
      spelled out piece by piece. */
  lemma Stage3Spelling(stem: string)
    ensures '/' !in "_masked" && '/' !in "_segs"
    ensures "_segs" + ".kea" == "_segs.kea"
    ensures stem + "_masked.kea" == (stem + "_masked") + ".kea"
    ensures ((stem + "_masked") + "_segs") + ".kea" == stem + "_masked_segs.kea"
  {
  }

  /** The operations the merge appends to the log. */
  datatype Operation =
    | MergeClumps(tiles: seq<string>, output: string)
    | PopulateStats(image: string)

  /** `mergeStage3TilesToOutput` (lines 450-461), appending its operations
      to `log`: the burn tiles found in the masked-subsets directory are
      merged into the output only if there are any, then the segment tiles
      found in the segments directory are merged, and finally the output's
      statistics are populated. The directory listings stand for what
      `glob` sees. */
  method MergeStage3TilesToOutput(log: seq<Operation>, clumpsImage: string, segsDir: string,
                                  maskedDir: string, base: string,
                                  maskedListing: seq<string>, segsListing: seq<string>)
    returns (log': seq<Operation>)
    ensures var burn := Glob(maskedDir, maskedListing, base, "_burn.kea");
      |log'| == |log| + (if |burn| > 0 then 3 else 2) &&
      log'[..|log|] == log &&
      (|burn| > 0 ==> log'[|log|] == MergeClumps(burn, clumpsImage))
    ensures log'[|log'| - 2] == MergeClumps(Glob(segsDir, segsListing, base, "_segs.kea"), clumpsImage)
    ensures log'[|log'| - 1] == PopulateStats(clumpsImage)
  {
    log' := log;
    var burnTiles := Glob(maskedDir, maskedListing, base, "_burn.kea");
    if |burnTiles| > 0 {
      log' := log' + [MergeClumps(burnTiles, clumpsImage)];
    }
    var segTiles := Glob(segsDir, segsListing, base, "_segs.kea");
    log' := log' + [MergeClumps(segTiles, clumpsImage)];
    log' := log' + [PopulateStats(clumpsImage)];
  }

  /** After stage 3 over the table's rows, the `_burn` file of every small
      region other than row 0 is among the tiles of the first merge the
      merge step appends. That only small regions are burnt is
      `Stage3RoutesEveryRegion`; that the burn merge precedes the segment
      merge is `MergeStage3TilesToOutput`. */
  lemma MergeBurnsSmallRegions(log: seq<Operation>, clumpsImage: string, segsDir: string,
                               maskedDir: string, base: string, histogram: seq<real>, minSize: int,
                               segsListing: seq<string>, log': seq<Operation>, i: nat)
    requires '/' !in base
    requires 0 < i < |histogram| && !IsLargeRegion(histogram[i], minSize)
    requires var burn := Glob(maskedDir, RegionFileNames(base, histogram, minSize), base, "_burn.kea");
      |log'| == |log| + (if |burn| > 0 then 3 else 2) &&
      (|burn| > 0 ==> log'[|log|] == MergeClumps(burn, clumpsImage))
    ensures |log'| == |log| + 3
    ensures log'[|log|].MergeClumps? &&
      Join(maskedDir, RegionFileName(base, i, false)) in log'[|log|].tiles
  {
    Stage3RoutesEveryRegion(maskedDir, base, histogram, minSize, i);
    BurnTilesIffSmallRegion(maskedDir, base, histogram, minSize);
  }
}
