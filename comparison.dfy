/** Similarity scorer (comparison_utils.py): IoU and symmetric Hausdorff
    distance between a reference mask and the four flip variants of a
    candidate mask, the raw best of each metric, and the rule that reports
    "Flipped Vertically" whenever its score is within a tolerance of the
    best. */
module ComparisonUtils {
  import opened Common
  import opened GeometryUtils
  import opened Selection
  import opened MaskUtils

  /** The four candidate variants. */
  datatype Transform = Original | FlippedHorizontally | FlippedVertically | FlippedBoth

  /** The order compare_masks visits the variants in (dict insertion order). */
  const Order: seq<Transform> := [Original, FlippedHorizontally, FlippedVertically, FlippedBoth]

  function Position(t: Transform): (k: nat)
    ensures k < 4 && Order[k] == t
  {
    match t
    case Original => 0
    case FlippedHorizontally => 1
    case FlippedVertically => 2
    case FlippedBoth => 3
  }

  /** The transform names of the result dictionary; `None` is "N/A". */
  function Label(t: Option<Transform>): (s: string)
    ensures t.None? <==> s == "N/A"
  {
    match t
    case None => "N/A"
    case Some(Original) => "Original"
    case Some(FlippedHorizontally) => "Flipped Horizontally"
    case Some(FlippedVertically) => "Flipped Vertically"
    case Some(FlippedBoth) => "Flipped Both"
  }

  /** Distinct transforms have distinct names, so comparing names (as the
      source does) is comparing transforms. */
  lemma LabelInjective(a: Option<Transform>, b: Option<Transform>)
    ensures Label(a) == Label(b) ==> a == b
  {
  }

  function Reverse(row: seq<int>): (r: seq<int>)
    ensures |r| == |row| && forall j :: 0 <= j < |row| ==> r[j] == row[|row| - 1 - j]
  {
    seq(|row|, j requires 0 <= j < |row| => row[|row| - 1 - j])
  }

  /** cv2.flip(m, 0): the rows in reverse order. */
  function FlipRows(g: Grid): (r: Grid)
    ensures |r| == |g| && forall i :: 0 <= i < |g| ==> r[i] == g[|g| - 1 - i]
  {
    seq(|g|, i requires 0 <= i < |g| => g[|g| - 1 - i])
  }

  /** cv2.flip(m, 1): every row reversed. */
  function FlipCols(g: Grid): (r: Grid)
    ensures |r| == |g| && forall i :: 0 <= i < |g| ==> r[i] == Reverse(g[i])
  {
    seq(|g|, i requires 0 <= i < |g| => Reverse(g[i]))
  }

  predicate FlipsRows(t: Transform)
  {
    t == FlippedVertically || t == FlippedBoth
  }

  predicate FlipsCols(t: Transform)
  {
    t == FlippedHorizontally || t == FlippedBoth
  }

  /** The variant of a mask; "Flipped Both" is cv2.flip(m, -1). */
  function Apply(t: Transform, g: Grid): Grid
  {
    match t
    case Original => g
    case FlippedHorizontally => FlipCols(g)
    case FlippedVertically => FlipRows(g)
    case FlippedBoth => FlipRows(FlipCols(g))
  }

  /** A variant of an h x w mask is an h x w mask whose cell (i, j) is the
      original cell with the row index mirrored when the transform flips
      rows and the column index mirrored when it flips columns. */
  lemma ApplyCells(t: Transform, g: Grid, h: nat, w: nat)
    requires IsRect(g, h, w)
    ensures var r := Apply(t, g);
      && IsRect(r, h, w)
      && forall i, j :: 0 <= i < h && 0 <= j < w ==>
           r[i][j] == g[if FlipsRows(t) then h - 1 - i else i][if FlipsCols(t) then w - 1 - j else j]
  {
    var r := Apply(t, g);
    match t
    case Original =>
    case FlippedHorizontally =>
      forall i, j | 0 <= i < h && 0 <= j < w ensures r[i][j] == g[i][w - 1 - j] {
        assert r[i] == Reverse(g[i]);
      }
    case FlippedVertically =>
      forall i, j | 0 <= i < h && 0 <= j < w ensures r[i][j] == g[h - 1 - i][j] {
        assert r[i] == g[h - 1 - i];
      }
    case FlippedBoth =>
      var fc := FlipCols(g);
      forall i, j | 0 <= i < h && 0 <= j < w ensures r[i][j] == g[h - 1 - i][w - 1 - j] {
        assert r[i] == fc[h - 1 - i] == Reverse(g[h - 1 - i]);
      }
  }

  /** Every variant is its own inverse. */
  lemma ApplyInvolution(t: Transform, g: Grid)
    ensures Apply(t, Apply(t, g)) == g
  {
    forall row: seq<int> ensures Reverse(Reverse(row)) == row {
      assert forall j :: 0 <= j < |row| ==> Reverse(Reverse(row))[j] == row[j];
    }
    assert FlipRows(FlipRows(g)) == g;
    assert FlipCols(FlipCols(g)) == g;
    if t == FlippedBoth {
      var fc := FlipCols(g);
      assert FlipCols(FlipRows(fc)) == FlipRows(FlipCols(fc));
      calc {
        Apply(t, Apply(t, g));
        FlipRows(FlipCols(FlipRows(fc)));
        FlipRows(FlipRows(FlipCols(fc)));
        FlipCols(fc);
      }
    }
  }

  /** Number of positions of two rows where both cells are non-zero
      (`np.logical_and(...).sum()` on one row). */
  function RowAnd(r: seq<int>, s: seq<int>): nat
  {
    if r == [] || s == [] then 0
    else (if r[0] != 0 && s[0] != 0 then 1 else 0) + RowAnd(r[1..], s[1..])
  }

  /** Number of positions where at least one cell is non-zero. */
  function RowOr(r: seq<int>, s: seq<int>): nat
  {
    if r == [] || s == [] then 0
    else (if r[0] != 0 || s[0] != 0 then 1 else 0) + RowOr(r[1..], s[1..])
  }

  /** |A and B|: cells non-zero in both masks. */
  function GridAnd(a: Grid, b: Grid): nat
  {
    if a == [] || b == [] then 0 else RowAnd(a[0], b[0]) + GridAnd(a[1..], b[1..])
  }

  /** |A or B|: cells non-zero in at least one mask. */
  function GridOr(a: Grid, b: Grid): nat
  {
    if a == [] || b == [] then 0 else RowOr(a[0], b[0]) + GridOr(a[1..], b[1..])
  }

  /** The two masks mark exactly the same cells. */
  predicate SameSupport(a: Grid, b: Grid)
    requires |a| == |b| && forall i :: 0 <= i < |a| ==> |a[i]| == |b[i]|
  {
    forall i, j :: 0 <= i < |a| && 0 <= j < |a[i]| ==> (a[i][j] != 0 <==> b[i][j] != 0)
  }

  lemma {:induction false} RowCounts(r: seq<int>, s: seq<int>)
    ensures RowAnd(r, s) <= RowOr(r, s)
    ensures RowAnd(r, s) == RowAnd(s, r) && RowOr(r, s) == RowOr(s, r)
    ensures |r| == |s| ==>
      (RowAnd(r, s) == RowOr(r, s) <==> forall j :: 0 <= j < |r| ==> (r[j] != 0 <==> s[j] != 0))
    decreases |r|
  {
    if r != [] && s != [] {
      RowCounts(r[1..], s[1..]);
      if |r| == |s| {
        if RowAnd(r, s) == RowOr(r, s) {
          forall j | 0 <= j < |r| ensures r[j] != 0 <==> s[j] != 0 {
            if j > 0 {
              assert r[j] == r[1..][j - 1] && s[j] == s[1..][j - 1];
            }
          }
        }
        if forall j :: 0 <= j < |r| ==> (r[j] != 0 <==> s[j] != 0) {
          forall j | 0 <= j < |r[1..]| ensures r[1..][j] != 0 <==> s[1..][j] != 0 {
            assert r[1..][j] == r[j + 1] && s[1..][j] == s[j + 1];
          }
        }
      }
    }
  }

  lemma {:induction false} GridCounts(a: Grid, b: Grid)
    ensures GridAnd(a, b) <= GridOr(a, b)
    ensures GridAnd(a, b) == GridAnd(b, a) && GridOr(a, b) == GridOr(b, a)
    decreases |a|
  {
    if a != [] && b != [] {
      RowCounts(a[0], b[0]);
      GridCounts(a[1..], b[1..]);
    }
  }

  /** On two h x w masks the intersection count equals the union count
      exactly when the masks mark the same cells. */
  lemma {:induction false} GridAndEqualsOr(a: Grid, b: Grid, h: nat, w: nat)
    requires IsRect(a, h, w) && IsRect(b, h, w)
    ensures GridAnd(a, b) == GridOr(a, b) <==> SameSupport(a, b)
    decreases h
  {
    if h > 0 {
      RowCounts(a[0], b[0]);
      GridCounts(a[1..], b[1..]);
      GridAndEqualsOr(a[1..], b[1..], h - 1, w);
      if GridAnd(a, b) == GridOr(a, b) {
        forall i, j | 0 <= i < h && 0 <= j < w ensures a[i][j] != 0 <==> b[i][j] != 0 {
          if i > 0 {
            assert a[i] == a[1..][i - 1] && b[i] == b[1..][i - 1];
          }
        }
      }
      if SameSupport(a, b) {
        forall i, j | 0 <= i < h - 1 && 0 <= j < w ensures a[1..][i][j] != 0 <==> b[1..][i][j] != 0 {
          assert a[1..][i] == a[i + 1] && b[1..][i] == b[i + 1];
        }
      }
    }
  }

  /** The ratio of a count to a larger positive count lies in [0, 1] and
      multiplies back to the count. */
  lemma Ratio(n: nat, u: nat)
    requires 0 < u && n <= u
    ensures 0.0 <= n as real / u as real <= 1.0
    ensures (n as real / u as real) * u as real == n as real
  {
    QuotientInUnit(n as real, u as real);
  }

  /** calculate_iou: 0.0 for a missing mask or different shapes; for equal
      shapes with an empty union 1.0; otherwise |A and B| / |A or B|. */
  function CalculateIou(m1: Option<Grid>, m2: Option<Grid>): (r: real)
    ensures 0.0 <= r <= 1.0
    ensures m1.None? || m2.None? || Shape(m1.value) != Shape(m2.value) ==> r == 0.0
    ensures m1.Some? && m2.Some? && Shape(m1.value) == Shape(m2.value) && GridOr(m1.value, m2.value) == 0 ==> r == 1.0
  {
    if m1.None? || m2.None? || Shape(m1.value) != Shape(m2.value) then 0.0
    else
      var intersection := GridAnd(m1.value, m2.value);
      var union := GridOr(m1.value, m2.value);
      GridCounts(m1.value, m2.value);
      if union == 0 then (if intersection == 0 then 1.0 else 0.0)
      else
        Ratio(intersection, union);
        intersection as real / union as real
  }

  /** For equal shapes with a non-empty union, IoU is |A and B| / |A or B|. */
  lemma IouIsRatio(a: Grid, b: Grid)
    requires Shape(a) == Shape(b) && GridOr(a, b) > 0
    ensures CalculateIou(Some(a), Some(b)) == GridAnd(a, b) as real / GridOr(a, b) as real
  {
  }

  /** IoU does not depend on the order of its arguments. */
  lemma IouSymmetric(m1: Option<Grid>, m2: Option<Grid>)
    ensures CalculateIou(m1, m2) == CalculateIou(m2, m1)
  {
    if m1.Some? && m2.Some? {
      GridCounts(m1.value, m2.value);
    }
  }

  /** Two h x w masks have IoU 1 exactly when they mark the same cells; in
      particular IoU(A, A) == 1 for every mask A, empty or not. */
  lemma IouOneIffSameSupport(a: Grid, b: Grid, h: nat, w: nat)
    requires IsRect(a, h, w) && IsRect(b, h, w)
    ensures CalculateIou(Some(a), Some(b)) == 1.0 <==> SameSupport(a, b)
  {
    GridCounts(a, b);
    GridAndEqualsOr(a, b, h, w);
    var u := GridOr(a, b);
    var n := GridAnd(a, b);
    assert Shape(a) == Shape(b);
    if u > 0 {
      var r := CalculateIou(Some(a), Some(b));
      IouIsRatio(a, b);
      Ratio(n, u);
      if n == u {
        DivSelf(u as real);
        assert r == u as real / u as real;
      }
    }
  }

  /** calculate_hausdorff: Inf when either contour list is empty or its
      first contour has no points, or when a directed distance cannot be
      computed; otherwise the larger of the two directed distances. */
  function CalculateHausdorff(vision: Vision, c1: seq<Contour>, c2: seq<Contour>): (d: Ext)
    ensures c1 == [] || c2 == [] ==> d == Inf
    ensures d.Finite? <==>
      && c1 != [] && c2 != [] && |c1[0]| > 0 && |c2[0]| > 0
      && vision.directedHausdorff(c1[0], c2[0]).Some? && vision.directedHausdorff(c2[0], c1[0]).Some?
    ensures d.Finite? ==>
      var d12 := vision.directedHausdorff(c1[0], c2[0]).value;
      var d21 := vision.directedHausdorff(c2[0], c1[0]).value;
      d.r >= d12 && d.r >= d21 && (d.r == d12 || d.r == d21)
  {
    if c1 == [] || c2 == [] then Inf
    else
      var points1, points2 := c1[0], c2[0];
      if |points1| == 0 || |points2| == 0 then Inf
      else
        match (vision.directedHausdorff(points1, points2), vision.directedHausdorff(points2, points1))
        case (Some(dist12), Some(dist21)) => Finite(if dist21 > dist12 then dist21 else dist12)
        case _ => Inf
  }

  /** The symmetric Hausdorff distance does not depend on argument order. */
  lemma HausdorffSymmetric(vision: Vision, c1: seq<Contour>, c2: seq<Contour>)
    ensures CalculateHausdorff(vision, c1, c2) == CalculateHausdorff(vision, c2, c1)
  {
  }

  function VariantIou(ref: Grid, comp: Grid, t: Transform): real
  {
    CalculateIou(Some(ref), Some(Apply(t, comp)))
  }

  function VariantHausdorff(vision: Vision, refContours: seq<Contour>, comp: Grid, t: Transform): Ext
  {
    CalculateHausdorff(vision, refContours, FindContoursFromMask(vision, Some(Apply(t, comp))))
  }

  /** The IoU of each variant, in visiting order. */
  function IouScores(ref: Grid, comp: Grid): (s: seq<real>)
    ensures |s| == 4 && forall k :: 0 <= k < 4 ==> s[k] == VariantIou(ref, comp, Order[k]) && 0.0 <= s[k] <= 1.0
  {
    seq(4, k requires 0 <= k < 4 => VariantIou(ref, comp, Order[k]))
  }

  /** The Hausdorff distance of each variant, against the reference's
      contours (traced once). */
  function HausScores(vision: Vision, refContours: seq<Contour>, comp: Grid): (s: seq<Ext>)
    ensures |s| == 4 && forall k :: 0 <= k < 4 ==> s[k] == VariantHausdorff(vision, refContours, comp, Order[k])
  {
    seq(4, k requires 0 <= k < 4 => VariantHausdorff(vision, refContours, comp, Order[k]))
  }

  function Max0(x: real): real
  {
    if x > 0.0 then x else 0.0
  }

  /** The IoU choice: the first variant of maximal IoU, replaced by
      "Flipped Vertically" and its IoU when the maximum exceeds the
      vertical-flip IoU by at most the tolerance. */
  function PickIou(s: seq<real>, tol: real): (p: (real, Option<Transform>))
    requires |s| == 4
    ensures p.1.Some? && p.0 == s[Position(p.1.value)]
    ensures p.1 == Some(FlippedVertically) <==>
      (forall j :: 0 <= j < 4 ==> s[j] - s[2] <= tol) || IsFirstMax(s, 2)
    ensures p.1 != Some(FlippedVertically) ==> IsFirstMax(s, Position(p.1.value))
    ensures forall j :: 0 <= j < 4 ==> s[j] <= p.0 + Max0(tol)
  {
    var k := FirstMaxIndex(s);
    assert IsFirstMax(s, 2) ==> k == 2 by {
      if IsFirstMax(s, 2) { FirstMaxUnique(s, 2, k); }
    }
    if s[k] - s[2] <= tol then (s[2], Some(FlippedVertically)) else (s[k], Some(Order[k]))
  }

  /** The Hausdorff choice: the first variant of least finite distance
      ("N/A" with Inf when every distance is Inf), replaced by "Flipped
      Vertically" when its distance is finite and at most the best plus the
      tolerance. */
  function PickHausdorff(h: seq<Ext>, tol: real): (p: (Ext, Option<Transform>))
    requires |h| == 4
    ensures p.1.None? <==> forall j :: 0 <= j < 4 ==> h[j] == Inf
    ensures p.1.None? ==> p.0 == Inf
    ensures p.1.Some? ==> p.0.Finite? && p.0 == h[Position(p.1.value)]
    ensures p.1 == Some(FlippedVertically) <==>
      h[2].Finite? && ((forall j :: 0 <= j < 4 && h[j].Finite? ==> h[2].r <= h[j].r + tol) || IsFirstMin(h, 2))
    ensures p.1.Some? && p.1 != Some(FlippedVertically) ==> IsFirstMin(h, Position(p.1.value))
    ensures p.1.Some? ==> forall j :: 0 <= j < 4 && h[j].Finite? ==> p.0.r <= h[j].r + Max0(tol)
  {
    var k := FirstMinIndex(h);
    assert IsFirstMin(h, 2) ==> k == 2 by {
      if IsFirstMin(h, 2) { FirstMinUnique(h, 2, k); }
    }
    if h[2].Finite? && h[k].Finite? && h[2].r <= h[k].r + tol then (h[2], Some(FlippedVertically))
    else if h[k] == Inf then (Inf, None)
    else (h[k], Some(Order[k]))
  }

  /** Every variant scoring the same IoU (and, for a non-negative tolerance,
      every variant at the same finite distance) reports "Flipped
      Vertically". */
  lemma TiesReportVertical(s: seq<real>, h: seq<Ext>, iouTol: real, hausTol: real)
    requires |s| == 4 && |h| == 4
    requires forall j :: 0 <= j < 4 ==> s[j] == s[0] && h[j] == h[0]
    ensures iouTol >= 0.0 ==> PickIou(s, iouTol).1 == Some(FlippedVertically)
    ensures hausTol >= 0.0 && h[0].Finite? ==> PickHausdorff(h, hausTol).1 == Some(FlippedVertically)
    ensures h[0] == Inf ==> PickHausdorff(h, hausTol) == (Inf, None)
  {
  }

  /** The result of compare_masks. `Neutral` is the dictionary returned for
      a missing mask, whose single transform key is `best_transform`;
      `Scored` carries the four per-metric keys. */
  datatype Comparison =
    | Neutral(iou: real, hausdorff: Ext, transform: Option<Transform>)
    | Scored(bestIou: real, bestIouTransform: Option<Transform>,
             bestHausdorff: Ext, bestHausdorffTransform: Option<Transform>)

  /** What compare_masks computes: the two metric choices, made
      independently of each other over the four variants. */
  function Compare(vision: Vision, ref: Option<Grid>, comp: Option<Grid>, iouTol: real, hausTol: real): (c: Comparison)
    ensures c.Neutral? <==> ref.None? || comp.None?
    ensures c.Neutral? ==> c == Neutral(0.0, Inf, None)
    ensures c.Scored? ==> 0.0 <= c.bestIou <= 1.0 && c.bestIouTransform.Some?
    ensures c.Scored? ==> (c.bestHausdorffTransform.None? <==> c.bestHausdorff == Inf)
  {
    if ref.None? || comp.None? then Neutral(0.0, Inf, None)
    else
      var iou := PickIou(IouScores(ref.value, comp.value), iouTol);
      var haus := PickHausdorff(HausScores(vision, FindContoursFromMask(vision, Some(ref.value)), comp.value), hausTol);
      Scored(iou.0, iou.1, haus.0, haus.1)
  }

  /** A candidate mask symmetric under both flips has four identical
      variants, so a non-negative tolerance reports "Flipped Vertically"
      for IoU, and for Hausdorff whenever the distance is finite. */
  lemma SymmetricCandidateReportsVertical(vision: Vision, ref: Grid, comp: Grid, iouTol: real, hausTol: real)
    requires FlipRows(comp) == comp && FlipCols(comp) == comp
    requires iouTol >= 0.0 && hausTol >= 0.0
    ensures var c := Compare(vision, Some(ref), Some(comp), iouTol, hausTol);
      && c.bestIouTransform == Some(FlippedVertically)
      && (c.bestHausdorff != Inf ==> c.bestHausdorffTransform == Some(FlippedVertically))
  {
    var refContours := FindContoursFromMask(vision, Some(ref));
    var s := IouScores(ref, comp);
    var h := HausScores(vision, refContours, comp);
    forall j | 0 <= j < 4 ensures s[j] == s[0] && h[j] == h[0] {
      assert Apply(Order[j], comp) == comp;
      assert Apply(Order[0], comp) == comp;
    }
    TiesReportVertical(s, h, iouTol, hausTol);
    assert Compare(vision, Some(ref), Some(comp), iouTol, hausTol)
      == Scored(PickIou(s, iouTol).0, PickIou(s, iouTol).1, PickHausdorff(h, hausTol).0, PickHausdorff(h, hausTol).1);
  }

  /** The running best IoU after the scores seen so far, as the scan keeps
      it: -1 and "N/A" before the first variant, then the first maximum. */
  predicate IouScanState(seen: seq<real>, best: real, bestT: Option<Transform>)
  {
    if seen == [] then best == -1.0 && bestT.None?
    else |seen| <= 4 && var k := FirstMaxIndex(seen); best == seen[k] && bestT == Some(Order[k])
  }

  /** One step of the IoU scan (`if current > best`), for a score that is
      never negative. */
  lemma IouScanStep(seen: seq<real>, x: real, best: real, bestT: Option<Transform>)
    requires |seen| < 4 && x >= 0.0
    requires IouScanState(seen, best, bestT)
    ensures if x > best then IouScanState(seen + [x], x, Some(Order[|seen|]))
      else IouScanState(seen + [x], best, bestT)
  {
    if seen != [] {
      var s := seen + [x];
      assert s[..|seen|] == seen;
      FirstMaxStep(s, |seen|);
    }
  }

  /** The running best Hausdorff distance after the distances seen so far:
      Inf and "N/A" until a finite distance is seen, then the first
      minimum. */
  predicate HausdorffScanState(seen: seq<Ext>, best: Ext, bestT: Option<Transform>)
  {
    if seen == [] then best == Inf && bestT.None?
    else
      |seen| <= 4 &&
      var k := FirstMinIndex(seen);
      best == seen[k] && bestT == (if seen[k] == Inf then None else Some(Order[k]))
  }

  /** One step of the Hausdorff scan (`if current < best`). */
  lemma HausdorffScanStep(seen: seq<Ext>, x: Ext, best: Ext, bestT: Option<Transform>)
    requires |seen| < 4
    requires HausdorffScanState(seen, best, bestT)
    ensures if ExtLess(x, best) then HausdorffScanState(seen + [x], x, Some(Order[|seen|]))
      else HausdorffScanState(seen + [x], best, bestT)
  {
    if seen != [] {
      var s := seen + [x];
      assert s[..|seen|] == seen;
      FirstMinStep(s, |seen|);
    }
  }

  /** After the scan, the source's IoU promotion guard, including its
      redundant parts (`abs_best_iou >= 0` and the inner `or`), decides
      exactly as PickIou does. */
  lemma IouPromotionAsWritten(s: seq<real>, best: real, bestT: Option<Transform>, tol: real)
    requires |s| == 4 && forall j :: 0 <= j < 4 ==> s[j] >= 0.0
    requires IouScanState(s, best, bestT)
    ensures var promote := best >= 0.0 && best - s[2] <= tol && (s[2] >= best || bestT != Some(FlippedVertically));
      (if promote then (s[2], Some(FlippedVertically)) else (best, bestT)) == PickIou(s, tol)
  {
  }

  /** After the scan, the source's Hausdorff promotion guard decides
      exactly as PickHausdorff does. */
  lemma HausdorffPromotionAsWritten(h: seq<Ext>, best: Ext, bestT: Option<Transform>, tol: real)
    requires |h| == 4
    requires HausdorffScanState(h, best, bestT)
    ensures var promote := h[2] != Inf && best != Inf && h[2].r <= best.r + tol
        && (h[2].r <= best.r || bestT != Some(FlippedVertically));
      (if promote then (h[2], Some(FlippedVertically)) else (best, bestT)) == PickHausdorff(h, tol)
  {
  }

  /** After both scans over the four variants, the promotion guards as
      written give exactly what Compare reports. */
  lemma CompareFromScans(vision: Vision, ref: Grid, comp: Grid, iouTol: real, hausTol: real,
                         bestIou: real, bestIouT: Option<Transform>, bestH: Ext, bestHT: Option<Transform>)
    requires IouScanState(IouScores(ref, comp), bestIou, bestIouT)
    requires HausdorffScanState(HausScores(vision, FindContoursFromMask(vision, Some(ref)), comp), bestH, bestHT)
    ensures var s := IouScores(ref, comp);
      var h := HausScores(vision, FindContoursFromMask(vision, Some(ref)), comp);
      var promoteIou := bestIou >= 0.0 && bestIou - s[2] <= iouTol && (s[2] >= bestIou || bestIouT != Some(FlippedVertically));
      var promoteH := h[2] != Inf && bestH != Inf && h[2].r <= bestH.r + hausTol
        && (h[2].r <= bestH.r || bestHT != Some(FlippedVertically));
      Compare(vision, Some(ref), Some(comp), iouTol, hausTol)
        == Scored(if promoteIou then s[2] else bestIou, if promoteIou then Some(FlippedVertically) else bestIouT,
                  if promoteH then h[2] else bestH, if promoteH then Some(FlippedVertically) else bestHT)
  {
    var s := IouScores(ref, comp);
    var h := HausScores(vision, FindContoursFromMask(vision, Some(ref)), comp);
    IouPromotionAsWritten(s, bestIou, bestIouT, iouTol);
    HausdorffPromotionAsWritten(h, bestH, bestHT, hausTol);
  }

  lemma PrefixStep<T>(s: seq<T>, i: nat)
    requires i < |s|
    ensures s[..i + 1] == s[..i] + [s[i]]
  {
  }

  lemma PrefixAll<T>(s: seq<T>)
    ensures s[..|s|] == s
  {
  }

  /** compare_masks: visits the variants once, keeping the running best
      IoU (replaced only on a strict increase, from -1) and the running
      best Hausdorff distance (replaced only on a strict decrease, from
      Inf), records the vertical-flip scores, then applies the two
      promotion rules with the source's guards. */
  method CompareMasks(vision: Vision, refMask: Option<Grid>, compMask: Option<Grid>, iouTol: real, hausTol: real)
    returns (res: Comparison)
    ensures res == Compare(vision, refMask, compMask, iouTol, hausTol)
  {
    if refMask.None? || compMask.None? {
      return Neutral(0.0, Inf, None);
    }
    var ref, comp := refMask.value, compMask.value;
    var absBestIou := -1.0;
    var absBestIouTransform: Option<Transform> := None;
    var absBestHausdorff := Inf;
    var absBestHausdorffTransform: Option<Transform> := None;
    var vertFlipIou: Option<real> := None;
    var vertFlipHausdorff: Option<Ext> := None;
    var refContours := FindContoursFromMask(vision, Some(ref));
    ghost var allIous := IouScores(ref, comp);
    ghost var allHs := HausScores(vision, refContours, comp);

    var i := 0;
    while i < 4
      invariant 0 <= i <= 4
      invariant IouScanState(allIous[..i], absBestIou, absBestIouTransform)
      invariant HausdorffScanState(allHs[..i], absBestHausdorff, absBestHausdorffTransform)
      invariant vertFlipIou == (if i > 2 then Some(allIous[2]) else None)
      invariant vertFlipHausdorff == (if i > 2 then Some(allHs[2]) else None)
    {
      var name := Order[i];
      var transformedMask := Apply(name, comp);
      var currentIou := CalculateIou(Some(ref), Some(transformedMask));
      PrefixStep(allIous, i);
      PrefixStep(allHs, i);
      IouScanStep(allIous[..i], currentIou, absBestIou, absBestIouTransform);
      if currentIou > absBestIou {
        absBestIou := currentIou;
        absBestIouTransform := Some(name);
      }
      if name == FlippedVertically {
        vertFlipIou := Some(currentIou);
      }
      var compContours := FindContoursFromMask(vision, Some(transformedMask));
      var currentHausdorff := CalculateHausdorff(vision, refContours, compContours);
      HausdorffScanStep(allHs[..i], currentHausdorff, absBestHausdorff, absBestHausdorffTransform);
      if ExtLess(currentHausdorff, absBestHausdorff) {
        absBestHausdorff := currentHausdorff;
        absBestHausdorffTransform := Some(name);
      }
      if name == FlippedVertically {
        vertFlipHausdorff := Some(currentHausdorff);
      }
      i := i + 1;
    }
    PrefixAll(allIous);
    PrefixAll(allHs);
    CompareFromScans(vision, ref, comp, iouTol, hausTol, absBestIou, absBestIouTransform, absBestHausdorff, absBestHausdorffTransform);

    var finalIou, finalIouTransform := absBestIou, absBestIouTransform;
    var finalHausdorff, finalHausdorffTransform := absBestHausdorff, absBestHausdorffTransform;
    if vertFlipIou.Some? && absBestIou >= 0.0 && absBestIou - vertFlipIou.value <= iouTol {
      if vertFlipIou.value >= absBestIou || absBestIouTransform != Some(FlippedVertically) {
        finalIou, finalIouTransform := vertFlipIou.value, Some(FlippedVertically);
      }
    }
    if vertFlipHausdorff.Some? && vertFlipHausdorff.value != Inf && absBestHausdorff != Inf {
      if vertFlipHausdorff.value.r <= absBestHausdorff.r + hausTol {
        if vertFlipHausdorff.value.r <= absBestHausdorff.r || absBestHausdorffTransform != Some(FlippedVertically) {
          finalHausdorff, finalHausdorffTransform := vertFlipHausdorff.value, Some(FlippedVertically);
        }
      }
    }
    res := Scored(finalIou, finalIouTransform, finalHausdorff, finalHausdorffTransform);
  }
}
