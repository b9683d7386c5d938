/** Ranking engine (main.py): the reference mask built from a parcel
    polygon, the standard branch of run_comparison (one result row per
    comparison raster that loads, stably sorted by IoU descending then
    Hausdorff distance ascending), and the advanced branch's attachment of
    a sub-village to each embedding-ranked image. Directory listing, file
    existence and all printing are outside the model: each sub-village
    arrives with its already listed files. */
module Ranking {
  import opened Common
  import opened GeometryUtils
  import opened StableSort
  import opened MaskUtils
  import opened ComparisonUtils
  import opened AdvancedComparison

  /** The configuration entries the ranking reads. */
  datatype Config = Config(imageSize: nat, paddingRatio: real, iouTolerance: real, hausdorffTolerance: real)

  /** The values setup_config assigns. */
  const DefaultConfig := Config(500, 0.05, 0.01, 2.0)

  /** With the default padding ratio every padded vertex of the unit
      square keeps a 5% border on each side. */
  lemma DefaultPaddingLeavesBorder(ps: seq<Point>, i: nat)
    requires InUnitSquare(ps) && i < |ps|
    ensures var q := Pad(Some(ps), DefaultConfig.paddingRatio).value[i];
      0.05 <= q.0 <= 0.95 && 0.05 <= q.1 <= 0.95
  {
    PadLeavesBorder(ps, DefaultConfig.paddingRatio, i);
  }

  /** generate_references: normalise, pad and rasterise the parcel's
      vertices (`None`: they could not be extracted); a step that fails or
      an all-zero raster gives no reference mask. */
  function ReferenceMask(vision: Vision, coords: Option<seq<Point>>, cfg: Config): (m: Option<Grid>)
    ensures m.Some? ==> IsRect(m.value, cfg.imageSize, cfg.imageSize) && IsBinary(m.value) && !AllZero(m.value)
    ensures coords.None? || |coords.value| < 3 ==> m.None?
    ensures m.Some? ==> m.value == CreateMaskFromCoords(vision, Pad(Normalize(coords), cfg.paddingRatio), cfg.imageSize)
    ensures m.Some? <==>
      (coords.Some? && |coords.value| > 0
       && !AllZero(CreateMaskFromCoords(vision, Pad(Normalize(coords), cfg.paddingRatio), cfg.imageSize)))
  {
    var shapeNorm := Normalize(coords);
    if shapeNorm.None? then None
    else
      var shapeNormPadded := Pad(shapeNorm, cfg.paddingRatio);
      if shapeNormPadded.None? then None
      else
        var referenceMask := CreateMaskFromCoords(vision, shapeNormPadded, cfg.imageSize);
        if AllZero(referenceMask) then None else Some(referenceMask)
  }

  /** One `.dat` file of a sub-village: its name and what np.loadtxt reads
      from it (`None` when reading raises). */
  datatype DatFile = DatFile(filename: string, contents: Option<Grid>)

  /** A sub-village with the `.dat` files listed in its folder (none when
      the folder is missing or unreadable). */
  datatype SubVillage = SubVillage(name: string, datFiles: seq<DatFile>)

  /** One standard-comparison result. */
  datatype Row = Row(filename: string, subVillage: string,
                     iou: real, iouTransform: Option<Transform>,
                     hausdorff: Ext, hausdorffTransform: Option<Transform>)

  /** The best-match summary: "" in the source when nothing matched. The
      formatted text (three decimals) is not modelled, only its values. */
  datatype ScoreInfo = NoInfo | IouInfo(iou: real, subVillage: string) | SimilarityInfo(similarity: real, subVillage: string)

  /** The row one file contributes: none when its raster does not load,
      otherwise the four scores of compare_masks against the reference. */
  function RowFor(vision: Vision, reference: Grid, subVillage: string, f: DatFile, cfg: Config): (r: Option<Row>)
    ensures r.None? <==> LoadDatAsMask(vision, f.contents, cfg.imageSize).None?
    ensures r.Some? ==> r.value.filename == f.filename && r.value.subVillage == subVillage
  {
    var comparisonMask := LoadDatAsMask(vision, f.contents, cfg.imageSize);
    if comparisonMask.None? then None
    else
      var result := Compare(vision, Some(reference), comparisonMask, cfg.iouTolerance, cfg.hausdorffTolerance);
      Some(Row(f.filename, subVillage, result.bestIou, result.bestIouTransform, result.bestHausdorff, result.bestHausdorffTransform))
  }

  /** A file that loads is scored against the reference: its row carries
      the best IoU (in [0, 1]) with the transform reaching it, and the best
      Hausdorff distance with its transform (none exactly when the distance
      is Inf), as compare_masks reports them. */
  lemma RowForCopiesScores(vision: Vision, reference: Grid, subVillage: string, f: DatFile, cfg: Config)
    requires LoadDatAsMask(vision, f.contents, cfg.imageSize).Some?
    ensures var c := Compare(vision, Some(reference), LoadDatAsMask(vision, f.contents, cfg.imageSize), cfg.iouTolerance, cfg.hausdorffTolerance);
      var r := RowFor(vision, reference, subVillage, f, cfg).value;
      && c.Scored?
      && r == Row(f.filename, subVillage, c.bestIou, c.bestIouTransform, c.bestHausdorff, c.bestHausdorffTransform)
      && 0.0 <= r.iou <= 1.0 && r.iouTransform.Some?
      && (r.hausdorffTransform.None? <==> r.hausdorff == Inf)
  {
  }

  /** The values `f` gives for the elements of `s`, in order, skipping the
      elements on which it gives none. */
  function FilterMap<A, B>(f: A -> Option<B>, s: seq<A>): seq<B>
  {
    if s == [] then []
    else
      var last := f(s[|s| - 1]);
      FilterMap(f, s[..|s| - 1]) + (if last.Some? then [last.value] else [])
  }

  /** The elements of `s` on which `f` gives a value, in order. */
  function Kept<A(!new), B>(f: A -> Option<B>, s: seq<A>): (ok: seq<A>)
    ensures |ok| <= |s|
    ensures forall d :: d in ok <==> d in s && f(d).Some?
  {
    if s == [] then []
    else
      var last := s[|s| - 1];
      var prefix := s[..|s| - 1];
      assert s == prefix + [last];
      Kept(f, prefix) + (if f(last).Some? then [last] else [])
  }

  lemma FilterMapStep<A, B>(f: A -> Option<B>, s: seq<A>, i: nat)
    requires i < |s|
    ensures FilterMap(f, s[..i + 1]) == FilterMap(f, s[..i]) + (if f(s[i]).Some? then [f(s[i]).value] else [])
  {
    assert s[..i + 1][..i] == s[..i];
  }

  /** FilterMap yields exactly one value per kept element, in order. */
  lemma {:induction false} FilterMapMatchesKept<A(!new), B>(f: A -> Option<B>, s: seq<A>)
    ensures |FilterMap(f, s)| == |Kept(f, s)|
    ensures forall k :: 0 <= k < |FilterMap(f, s)| ==> f(Kept(f, s)[k]) == Some(FilterMap(f, s)[k])
    decreases |s|
  {
    if s != [] {
      FilterMapMatchesKept(f, s[..|s| - 1]);
    }
  }

  /** Two functions defined on the same elements keep the same ones. */
  lemma {:induction false} KeptAgree<A(!new), B, C>(f: A -> Option<B>, g: A -> Option<C>, s: seq<A>)
    requires forall d :: d in s ==> (f(d).Some? <==> g(d).Some?)
    ensures Kept(f, s) == Kept(g, s)
    decreases |s|
  {
    if s != [] {
      KeptAgree(f, g, s[..|s| - 1]);
    }
  }

  /** The rows of one sub-village's files, in listing order. */
  function RowsOf(vision: Vision, reference: Grid, subVillage: string, files: seq<DatFile>, cfg: Config): seq<Row>
  {
    FilterMap((f: DatFile) => RowFor(vision, reference, subVillage, f, cfg), files)
  }

  /** The rows of all sub-villages, in encounter order, before sorting. */
  function CollectRows(vision: Vision, reference: Grid, subVillages: seq<SubVillage>, cfg: Config): seq<Row>
  {
    if subVillages == [] then []
    else
      var last := subVillages[|subVillages| - 1];
      CollectRows(vision, reference, subVillages[..|subVillages| - 1], cfg) + RowsOf(vision, reference, last.name, last.datFiles, cfg)
  }

  lemma CollectRowsStep(vision: Vision, reference: Grid, subVillages: seq<SubVillage>, s: nat, cfg: Config)
    requires s < |subVillages|
    ensures CollectRows(vision, reference, subVillages[..s + 1], cfg)
      == CollectRows(vision, reference, subVillages[..s], cfg)
        + RowsOf(vision, reference, subVillages[s].name, subVillages[s].datFiles, cfg)
  {
    assert subVillages[..s + 1][..s] == subVillages[..s];
  }

  /** The files whose raster loads, in listing order. */
  function Loaded(vision: Vision, files: seq<DatFile>, size: nat): (ok: seq<DatFile>)
    ensures |ok| <= |files|
    ensures forall d :: d in ok <==> d in files && LoadDatAsMask(vision, d.contents, size).Some?
  {
    Kept((f: DatFile) => LoadDatAsMask(vision, f.contents, size), files)
  }

  /** A sub-village contributes exactly one row per file that loads, in
      listing order, each copying that file's compare_masks result. */
  lemma RowsOfMatchesLoads(vision: Vision, reference: Grid, subVillage: string, files: seq<DatFile>, cfg: Config)
    ensures |RowsOf(vision, reference, subVillage, files, cfg)| == |Loaded(vision, files, cfg.imageSize)|
    ensures var rows := RowsOf(vision, reference, subVillage, files, cfg);
      var ok := Loaded(vision, files, cfg.imageSize);
      forall k :: 0 <= k < |rows| && k < |ok| ==> RowFor(vision, reference, subVillage, ok[k], cfg) == Some(rows[k])
  {
    var score := (f: DatFile) => RowFor(vision, reference, subVillage, f, cfg);
    var load := (f: DatFile) => LoadDatAsMask(vision, f.contents, cfg.imageSize);
    FilterMapMatchesKept(score, files);
    KeptAgree(score, load, files);
  }

  /** The number of files that load, over all sub-villages. */
  function TotalLoaded(vision: Vision, subVillages: seq<SubVillage>, size: nat): nat
  {
    if subVillages == [] then 0
    else
      TotalLoaded(vision, subVillages[..|subVillages| - 1], size)
        + |Loaded(vision, subVillages[|subVillages| - 1].datFiles, size)|
  }

  /** The standard comparison produces as many rows as there are files
      whose raster loads; the others are skipped. */
  lemma {:induction false} RowCountIsLoadCount(vision: Vision, reference: Grid, subVillages: seq<SubVillage>, cfg: Config)
    ensures |CollectRows(vision, reference, subVillages, cfg)| == TotalLoaded(vision, subVillages, cfg.imageSize)
    decreases |subVillages|
  {
    if subVillages != [] {
      var last := subVillages[|subVillages| - 1];
      RowCountIsLoadCount(vision, reference, subVillages[..|subVillages| - 1], cfg);
      RowsOfMatchesLoads(vision, reference, last.name, last.datFiles, cfg);
    }
  }

  /** The sort key `(iou, -hausdorff)`. */
  function RankKey(r: Row): (real, Ext)
  {
    (r.iou, r.hausdorff)
  }

  /** Key a comes ahead of key b under `reverse=True`: a larger IoU, or an
      equal IoU and a smaller distance (Inf, i.e. a key of -inf, last). */
  predicate RankBefore(a: (real, Ext), b: (real, Ext))
  {
    a.0 > b.0 || (a.0 == b.0 && ExtLess(a.1, b.1))
  }

  lemma RankBeforeIsStrictTotal()
    ensures StrictTotalOrder(RankBefore)
  {
    forall a: (real, Ext) ensures !RankBefore(a, a) {
      ExtLessIsStrictTotal(a.1, a.1, a.1);
    }
    forall a: (real, Ext), b: (real, Ext), c: (real, Ext) | RankBefore(a, b) && RankBefore(b, c)
      ensures RankBefore(a, c)
    {
      ExtLessIsStrictTotal(a.1, b.1, c.1);
    }
    forall a: (real, Ext), b: (real, Ext) | a != b ensures RankBefore(a, b) || RankBefore(b, a) {
      ExtLessIsStrictTotal(a.1, b.1, b.1);
    }
  }

  /** The ranked list is a permutation of the rows with IoU never
      increasing, and within equal IoU the distance never decreasing (so an
      Inf distance is followed only by Inf); rows equal on both keys keep
      encounter order; and the head has the largest IoU and, among those,
      the smallest distance. */
  lemma RankingOrder(rows: seq<Row>)
    ensures var r := Sort(rows, RankKey, RankBefore);
      && multiset(r) == multiset(rows)
      && (forall i, j :: 0 <= i < j < |r| ==> r[i].iou >= r[j].iou)
      && (forall i, j :: 0 <= i < j < |r| && r[i].iou == r[j].iou ==> !ExtLess(r[j].hausdorff, r[i].hausdorff))
      && (forall i, j :: 0 <= i < j < |r| && r[i].iou == r[j].iou && r[i].hausdorff == Inf ==> r[j].hausdorff == Inf)
      && KeepsOrderPerKey(r, rows, RankKey)
      && (r != [] ==> forall x :: x in rows ==> x.iou <= r[0].iou && (x.iou == r[0].iou ==> !ExtLess(x.hausdorff, r[0].hausdorff)))
  {
    var r := Sort(rows, RankKey, RankBefore);
    RankBeforeIsStrictTotal();
    SortPermutes(rows, RankKey, RankBefore);
    SortSorted(rows, RankKey, RankBefore);
    SortKeepsOrderPerKey(rows, RankKey, RankBefore);
    forall i, j | 0 <= i < j < |r| ensures r[i].iou >= r[j].iou && (r[i].iou == r[j].iou ==> !ExtLess(r[j].hausdorff, r[i].hausdorff)) {
      assert !RankBefore(RankKey(r[j]), RankKey(r[i]));
    }
    if r != [] {
      forall x | x in rows ensures x.iou <= r[0].iou && (x.iou == r[0].iou ==> !ExtLess(x.hausdorff, r[0].hausdorff)) {
        assert x in multiset(rows);
        assert x in r;
        var m :| 0 <= m < |r| && r[m] == x;
        if m > 0 {
          assert !RankBefore(RankKey(r[m]), RankKey(r[0]));
        }
      }
    }
  }

  /** Two rows of equal IoU where the second has the smaller distance are
      swapped; a row of lower IoU stays last whatever its distance. */
  lemma RankingExample(c1: Row, c2: Row, c3: Row)
    requires c1.iou == 0.9 && c1.hausdorff == Finite(5.0)
    requires c2.iou == 0.9 && c2.hausdorff == Finite(3.0)
    requires c3.iou == 0.7 && c3.hausdorff == Finite(1.0)
    ensures Sort([c1, c2, c3], RankKey, RankBefore) == [c2, c1, c3]
  {
    assert [c1, c2, c3][1..] == [c2, c3] && [c2, c3][1..] == [c3];
    assert Sort([c3], RankKey, RankBefore) == [c3];
    assert Insert(c2, [c3], RankKey, RankBefore) == [c2, c3];
    assert Insert(c1, [c3], RankKey, RankBefore) == [c1, c3];
    assert Insert(c1, [c2, c3], RankKey, RankBefore) == [c2] + Insert(c1, [c3], RankKey, RankBefore);
  }

  /** Index of the last occurrence of c in s, or -1. */
  function LastIndexOf(s: string, c: char): (i: int)
    ensures -1 <= i < |s|
    ensures i >= 0 ==> s[i] == c
    ensures forall k :: i < k < |s| ==> s[k] != c
  {
    if s == [] then -1
    else if s[|s| - 1] == c then |s| - 1
    else LastIndexOf(s[..|s| - 1], c)
  }

  /** os.path.basename: what follows the last '/'. */
  function Basename(p: string): (b: string)
    ensures |b| <= |p| && b == p[|p| - |b|..]
    ensures forall k :: 0 <= k < |b| ==> b[k] != '/'
    ensures (forall k :: 0 <= k < |p| ==> p[k] != '/') ==> b == p
    ensures |b| == |p| || p[|p| - |b| - 1] == '/'
  {
    p[LastIndexOf(p, '/') + 1..]
  }

  /** os.path.splitext(p)[0] on POSIX: the extension starts at the last
      '.', provided that dot lies in the last path component and some
      character of that component before it is not a dot. */
  function SplitExtRoot(p: string): (root: string)
    ensures |root| <= |p| && root == p[..|root|]
  {
    var sepIndex := LastIndexOf(p, '/');
    var dotIndex := LastIndexOf(p, '.');
    if dotIndex > sepIndex && exists k :: sepIndex < k < dotIndex && p[k] != '.' then p[..dotIndex]
    else p
  }

  /** p[d] is the dot that starts p's extension: the last dot, in the last
      path component, preceded in that component by a character other than
      a dot. */
  predicate ExtensionAt(p: string, d: int)
  {
    && 0 <= d < |p| && p[d] == '.'
    && (forall k :: d < k < |p| ==> p[k] != '.' && p[k] != '/')
    && exists k :: 0 <= k < d && p[k] != '.' && p[k] != '/' && forall m :: k < m < d ==> p[m] != '/'
  }

  /** splitext removes exactly the extension: when p has an extension
      starting at d the root is p[..d], and when it has none the root is
      p itself (so ".dat", "a." stripped to "a", and "dir.v/name" behave
      as Python's). */
  lemma SplitExtRootStripsExtension(p: string)
    ensures forall d :: ExtensionAt(p, d) ==> SplitExtRoot(p) == p[..d]
    ensures (forall d :: !ExtensionAt(p, d)) ==> SplitExtRoot(p) == p
  {
    var sepIndex := LastIndexOf(p, '/');
    var dotIndex := LastIndexOf(p, '.');
    forall d | ExtensionAt(p, d) ensures SplitExtRoot(p) == p[..d] {
      assert dotIndex == d;
      assert sepIndex < d;
      var k :| 0 <= k < d && p[k] != '.' && p[k] != '/' && forall m :: k < m < d ==> p[m] != '/';
      assert sepIndex < k;
    }
    if SplitExtRoot(p) != p {
      var k :| sepIndex < k < dotIndex && p[k] != '.';
      assert ExtensionAt(p, dotIndex);
    }
  }

  /** The inner loop of the standard branch, over one sub-village's
      files: a file whose raster does not load is skipped, every other one
      is compared with the reference and gives one row. */
  method CompareSubVillage(vision: Vision, reference: Grid, subVillage: SubVillage, cfg: Config)
    returns (rows: seq<Row>)
    ensures rows == RowsOf(vision, reference, subVillage.name, subVillage.datFiles, cfg)
  {
    var files := subVillage.datFiles;
    rows := [];
    for f := 0 to |files|
      invariant rows == RowsOf(vision, reference, subVillage.name, files[..f], cfg)
    {
      var datFile := files[f];
      FilterMapStep((f: DatFile) => RowFor(vision, reference, subVillage.name, f, cfg), files, f);
      var comparisonMask := LoadDatAsMask(vision, datFile.contents, cfg.imageSize);
      if comparisonMask.None? {
        continue;
      }
      var result := CompareMasks(vision, Some(reference), comparisonMask, cfg.iouTolerance, cfg.hausdorffTolerance);
      RowForCopiesScores(vision, reference, subVillage.name, datFile, cfg);
      rows := rows + [Row(datFile.filename, subVillage.name, result.bestIou, result.bestIouTransform,
                          result.bestHausdorff, result.bestHausdorffTransform)];
    }
    PrefixAll(files);
  }

  /** The standard branch of run_comparison: for every sub-village and
      every listed file, load the raster (skip the file when that fails),
      compare it with the reference and append a row; then sort the rows
      and report the head as best match. */
  method RunStandardComparison(vision: Vision, reference: Grid, subVillages: seq<SubVillage>, cfg: Config)
    returns (results: seq<Row>, found: bool, baseName: Option<string>, info: ScoreInfo)
    ensures results == Sort(CollectRows(vision, reference, subVillages, cfg), RankKey, RankBefore)
    ensures found <==> results != []
    ensures found ==> baseName == Some(SplitExtRoot(results[0].filename)) && info == IouInfo(results[0].iou, results[0].subVillage)
    ensures !found ==> baseName.None? && info == NoInfo
  {
    results, found, baseName, info := [], false, None, NoInfo;
    var tempResults: seq<Row> := [];
    for s := 0 to |subVillages|
      invariant tempResults == CollectRows(vision, reference, subVillages[..s], cfg)
    {
      var rows := CompareSubVillage(vision, reference, subVillages[s], cfg);
      CollectRowsStep(vision, reference, subVillages, s, cfg);
      tempResults := tempResults + rows;
    }
    PrefixAll(subVillages);

    if tempResults != [] {
      SortPermutes(tempResults, RankKey, RankBefore);
      results := Sort(tempResults, RankKey, RankBefore);
      assert |results| == |multiset(results)| == |multiset(tempResults)| > 0;
      found := true;
      baseName := Some(SplitExtRoot(results[0].filename));
      info := IouInfo(results[0].iou, results[0].subVillage);
    }
  }

  /** A folder of original images of one sub-village, as listed. */
  datatype ImageFolder = ImageFolder(name: string, imagePaths: seq<string>)

  /** One advanced-comparison result. */
  datatype AdvancedRow = AdvancedRow(imgPath: string, similarity: real, subVillage: string)

  /** The (path, sub-village) pairs of one folder. */
  function Tagged(folder: ImageFolder): (t: seq<(string, string)>)
    ensures |t| == |folder.imagePaths| && forall i :: 0 <= i < |t| ==> t[i] == (folder.imagePaths[i], folder.name)
  {
    seq(|folder.imagePaths|, i requires 0 <= i < |folder.imagePaths| => (folder.imagePaths[i], folder.name))
  }

  /** All collected (path, sub-village) pairs, folder by folder. */
  function Collected(folders: seq<ImageFolder>): seq<(string, string)>
  {
    if folders == [] then [] else Collected(folders[..|folders| - 1]) + Tagged(folders[|folders| - 1])
  }

  /** The sub-village of the first collected pair carrying the path. */
  function FirstGroup(collected: seq<(string, string)>, path: string): (g: Option<string>)
    ensures g.None? <==> forall i :: 0 <= i < |collected| ==> collected[i].0 != path
  {
    if collected == [] then None
    else if collected[0].0 == path then Some(collected[0].1)
    else FirstGroup(collected[1..], path)
  }

  lemma {:induction false} FirstGroupIsFirstMatch(collected: seq<(string, string)>, path: string, j: nat)
    requires j < |collected| && collected[j].0 == path
    requires forall k :: 0 <= k < j ==> collected[k].0 != path
    ensures FirstGroup(collected, path) == Some(collected[j].1)
    decreases j
  {
    if j > 0 {
      FirstGroupIsFirstMatch(collected[1..], path, j - 1);
    }
  }

  /** `sub_village_for_path or 'unknown'`: a missing or empty name is
      "unknown". */
  function GroupOrUnknown(g: Option<string>): (name: string)
    ensures name != ""
    ensures g.None? || g.value == "" ==> name == "unknown"
    ensures g.Some? && g.value != "" ==> name == g.value
  {
    if g.None? || g.value == "" then "unknown" else g.value
  }

  /** The advanced branch's lookup: for each ranked (path, similarity) the
      first collected pair with that path names the sub-village. */
  method AttachSubVillages(ranked: seq<(string, real)>, collected: seq<(string, string)>)
    returns (rows: seq<AdvancedRow>)
    ensures |rows| == |ranked|
    ensures forall i :: 0 <= i < |ranked| ==>
      rows[i] == AdvancedRow(ranked[i].0, ranked[i].1, GroupOrUnknown(FirstGroup(collected, ranked[i].0)))
  {
    rows := [];
    for i := 0 to |ranked|
      invariant |rows| == i
      invariant forall n :: 0 <= n < i ==>
        rows[n] == AdvancedRow(ranked[n].0, ranked[n].1, GroupOrUnknown(FirstGroup(collected, ranked[n].0)))
    {
      var (imgPath, similarity) := ranked[i];
      var subVillageForPath: Option<string> := None;
      for j := 0 to |collected|
        invariant subVillageForPath.None?
        invariant forall k :: 0 <= k < j ==> collected[k].0 != imgPath
      {
        if collected[j].0 == imgPath {
          FirstGroupIsFirstMatch(collected, imgPath, j);
          subVillageForPath := Some(collected[j].1);
          break;
        }
      }
      assert subVillageForPath == FirstGroup(collected, imgPath);
      rows := rows + [AdvancedRow(imgPath, similarity, GroupOrUnknown(subVillageForPath))];
    }
  }

  /** The advanced branch of run_comparison. `referenceImage` is the saved
      reference image path, `None` when there is none or it does not
      exist. */
  method RunAdvancedComparison(e: Embedder, referenceImage: Option<string>, folders: seq<ImageFolder>)
    returns (results: seq<AdvancedRow>, found: bool, baseName: Option<string>, info: ScoreInfo)
    ensures referenceImage.None? ==> results == [] && !found && baseName.None? && info == NoInfo
    ensures referenceImage.Some? ==>
      var collected := Collected(folders);
      var ranked := if collected == [] then [] else VggResult(e, referenceImage.value, Firsts(collected));
      && |results| == |ranked|
      && (forall i :: 0 <= i < |ranked| ==>
           results[i] == AdvancedRow(ranked[i].0, ranked[i].1, GroupOrUnknown(FirstGroup(collected, ranked[i].0))))
    ensures found <==> results != []
    ensures found ==>
      && baseName == Some(SplitExtRoot(Basename(results[0].imgPath)))
      && info == SimilarityInfo(results[0].similarity, results[0].subVillage)
    ensures !found ==> baseName.None? && info == NoInfo
  {
    results, found, baseName, info := [], false, None, NoInfo;
    if referenceImage.None? {
      return;
    }
    var totalComparisonFiles: seq<(string, string)> := [];
    for s := 0 to |folders|
      invariant totalComparisonFiles == Collected(folders[..s])
    {
      assert folders[..s + 1][..s] == folders[..s];
      var folder := folders[s];
      for n := 0 to |folder.imagePaths|
        invariant totalComparisonFiles == Collected(folders[..s]) + Tagged(folder)[..n]
      {
        assert Tagged(folder)[..n + 1] == Tagged(folder)[..n] + [(folder.imagePaths[n], folder.name)];
        totalComparisonFiles := totalComparisonFiles + [(folder.imagePaths[n], folder.name)];
      }
      assert Tagged(folder)[..|folder.imagePaths|] == Tagged(folder);
    }
    assert folders[..|folders|] == folders;
    if totalComparisonFiles == [] {
      return;
    }
    var imagePathsOnly := Firsts(totalComparisonFiles);
    var advancedResultsTuples := RunVgg16Comparison(e, referenceImage.value, imagePathsOnly);
    if advancedResultsTuples != [] {
      results := AttachSubVillages(advancedResultsTuples, totalComparisonFiles);
      found := true;
      baseName := Some(SplitExtRoot(Basename(results[0].imgPath)));
      info := SimilarityInfo(results[0].similarity, results[0].subVillage);
    }
  }

  /** Every image the advanced branch ranks was collected, so the lookup
      always finds its sub-village: a result is "unknown" only when that
      folder name is empty. */
  lemma AdvancedRowsHaveGroups(e: Embedder, referencePath: string, folders: seq<ImageFolder>)
    ensures var collected := Collected(folders);
      var ranked := VggResult(e, referencePath, Firsts(collected));
      forall i :: 0 <= i < |ranked| ==> FirstGroup(collected, ranked[i].0).Some?
  {
    var collected := Collected(folders);
    var paths := Firsts(collected);
    var ranked := VggResult(e, referencePath, paths);
    VggResultProperties(e, referencePath, paths);
    forall i | 0 <= i < |ranked| ensures FirstGroup(collected, ranked[i].0).Some? {
      FirstsAt(ranked, i);
      assert ranked[i].0 in multiset(Firsts(ranked));
      assert ranked[i].0 in paths;
      var m :| 0 <= m < |paths| && paths[m] == ranked[i].0;
      FirstsAt(collected, m);
    }
  }
}
