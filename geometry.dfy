/** Coordinate normaliser and padder (geometry_utils.py): min-max
    normalisation of polygon vertices into the unit square, with the
    degenerate cases centred, then a shrink toward the centre. Arithmetic is
    exact (`real`), not floating point. */
module GeometryUtils {
  import opened Common

  type Point = (real, real)

  predicate InUnit(v: real)
  {
    0.0 <= v <= 1.0
  }

  predicate InUnitSquare(ps: seq<Point>)
  {
    forall i :: 0 <= i < |ps| ==> InUnit(ps[i].0) && InUnit(ps[i].1)
  }

  function Xs(ps: seq<Point>): (xs: seq<real>)
    ensures |xs| == |ps| && forall i :: 0 <= i < |ps| ==> xs[i] == ps[i].0
  {
    seq(|ps|, i requires 0 <= i < |ps| => ps[i].0)
  }

  function Ys(ps: seq<Point>): (ys: seq<real>)
    ensures |ys| == |ps| && forall i :: 0 <= i < |ps| ==> ys[i] == ps[i].1
  {
    seq(|ps|, i requires 0 <= i < |ps| => ps[i].1)
  }

  /** numpy `min(axis=0)` on one axis. */
  function MinOf(s: seq<real>): (m: real)
    requires |s| > 0
    ensures m in s && forall i :: 0 <= i < |s| ==> m <= s[i]
  {
    if |s| == 1 then s[0]
    else
      var m := MinOf(s[1..]);
      if s[0] <= m then s[0] else m
  }

  /** numpy `max(axis=0)` on one axis. */
  function MaxOf(s: seq<real>): (m: real)
    requires |s| > 0
    ensures m in s && forall i :: 0 <= i < |s| ==> s[i] <= m
  {
    if |s| == 1 then s[0]
    else
      var m := MaxOf(s[1..]);
      if s[0] >= m then s[0] else m
  }

  /** One axis of the normalisation: `(v - lo) / range`, where a zero range
      is first replaced by 1, and the whole axis is then overwritten with
      0.5 when its range was zero. */
  function NormalizeAxis(v: real, lo: real, hi: real): real
  {
    var range := if hi - lo == 0.0 then 1.0 else hi - lo;
    var normalized := (v - lo) / range;
    if hi - lo == 0.0 then 0.5 else normalized
  }

  lemma MulNonneg(a: real, b: real)
    requires a >= 0.0 && b >= 0.0
    ensures a * b >= 0.0
  {
  }

  lemma MulShrink(a: real, s: real)
    requires a >= 0.0 && 0.0 <= s <= 1.0
    ensures 0.0 <= a * s <= a
  {
    MulNonneg(a, 1.0 - s);
    MulNonneg(a, s);
    assert a * (1.0 - s) == a - a * s;
  }

  lemma QuotientInUnit(a: real, b: real)
    requires 0.0 <= a <= b && b > 0.0
    ensures InUnit(a / b)
  {
    var q := a / b;
    assert q * b == a;
    if q > 1.0 { MulNonneg(q - 1.0, b); assert false; }
    if q < 0.0 { MulNonneg(-q, b); assert false; }
  }

  lemma DivSelf(x: real)
    requires x != 0.0
    ensures x / x == 1.0
  {
  }

  lemma NormalizeAxisInUnit(v: real, lo: real, hi: real)
    requires lo <= v <= hi
    ensures InUnit(NormalizeAxis(v, lo, hi))
    ensures hi > lo && v == lo ==> NormalizeAxis(v, lo, hi) == 0.0
    ensures hi > lo && v == hi ==> NormalizeAxis(v, lo, hi) == 1.0
  {
    if hi > lo {
      QuotientInUnit(v - lo, hi - lo);
      DivSelf(hi - lo);
    }
  }

  /** normalize_coordinates: None for a missing or empty vertex list, the
      centre for a single vertex, otherwise per-axis min-max scaling with a
      zero-range axis mapped to 0.5. */
  function Normalize(coords: Option<seq<Point>>): (r: Option<seq<Point>>)
    ensures r.None? <==> coords.None? || |coords.value| == 0
    ensures r.Some? ==> |r.value| == |coords.value| && InUnitSquare(r.value)
    ensures coords.Some? && |coords.value| == 1 ==> r == Some([(0.5, 0.5)])
  {
    if coords.None? || |coords.value| < 1 then None
    else
      var ps := coords.value;
      var xs, ys := Xs(ps), Ys(ps);
      var loX, hiX, loY, hiY := MinOf(xs), MaxOf(xs), MinOf(ys), MaxOf(ys);
      if |ps| == 1 then Some([(0.5, 0.5)])
      else
        var out := seq(|ps|, i requires 0 <= i < |ps| =>
          (NormalizeAxis(ps[i].0, loX, hiX), NormalizeAxis(ps[i].1, loY, hiY)));
        assert InUnitSquare(out) by {
          forall i | 0 <= i < |ps| ensures InUnit(out[i].0) && InUnit(out[i].1) {
            NormalizeAxisInUnit(ps[i].0, loX, hiX);
            NormalizeAxisInUnit(ps[i].1, loY, hiY);
          }
        }
        Some(out)
  }

  predicate IsLeast(vs: seq<real>, i: nat)
    requires i < |vs|
  {
    forall j :: 0 <= j < |vs| ==> vs[i] <= vs[j]
  }

  predicate IsGreatest(vs: seq<real>, i: nat)
    requires i < |vs|
  {
    forall j :: 0 <= j < |vs| ==> vs[j] <= vs[i]
  }

  predicate AllEqual(vs: seq<real>)
  {
    forall j :: 0 <= j < |vs| ==> vs[j] == vs[0]
  }

  /** On one axis: when the values are not all equal, a least value maps
      to 0 and a greatest to 1; when they are all equal, everything maps to
      0.5. */
  lemma NormalizeAxisExtremes(vs: seq<real>, i: nat)
    requires i < |vs|
    ensures var r := NormalizeAxis(vs[i], MinOf(vs), MaxOf(vs));
      && (IsLeast(vs, i) && !AllEqual(vs) ==> r == 0.0)
      && (IsGreatest(vs, i) && !AllEqual(vs) ==> r == 1.0)
      && (AllEqual(vs) ==> r == 0.5)
  {
    var lo, hi := MinOf(vs), MaxOf(vs);
    NormalizeAxisInUnit(vs[i], lo, hi);
    var a :| 0 <= a < |vs| && vs[a] == lo;
    var b :| 0 <= b < |vs| && vs[b] == hi;
    if AllEqual(vs) {
      assert lo == vs[0] == hi;
    } else {
      var j :| 0 <= j < |vs| && vs[j] != vs[0];
      assert lo < hi;
    }
  }

  /** On an axis whose values are not all equal, a vertex with the least
      value maps to 0 and one with the greatest maps to 1; on an axis whose
      values are all equal, every vertex maps to 0.5 on that axis. */
  lemma NormalizeExtremes(ps: seq<Point>, i: nat)
    requires 2 <= |ps| && i < |ps|
    ensures var r := Normalize(Some(ps)).value;
      && (IsLeast(Xs(ps), i) && !AllEqual(Xs(ps)) ==> r[i].0 == 0.0)
      && (IsGreatest(Xs(ps), i) && !AllEqual(Xs(ps)) ==> r[i].0 == 1.0)
      && (AllEqual(Xs(ps)) ==> r[i].0 == 0.5)
      && (IsLeast(Ys(ps), i) && !AllEqual(Ys(ps)) ==> r[i].1 == 0.0)
      && (IsGreatest(Ys(ps), i) && !AllEqual(Ys(ps)) ==> r[i].1 == 1.0)
      && (AllEqual(Ys(ps)) ==> r[i].1 == 0.5)
  {
    var xs, ys := Xs(ps), Ys(ps);
    NormalizeAxisExtremes(xs, i);
    NormalizeAxisExtremes(ys, i);
    assert Normalize(Some(ps)).value[i] == (NormalizeAxis(xs[i], MinOf(xs), MaxOf(xs)), NormalizeAxis(ys[i], MinOf(ys), MaxOf(ys)));
  }

  /** max(0, 1 - 2 * padding_ratio). */
  function ScaleFactor(ratio: real): (s: real)
    ensures s >= 0.0
    ensures ratio >= 0.5 ==> s == 0.0
    ensures ratio <= 0.5 ==> s == 1.0 - 2.0 * ratio
  {
    var s := 1.0 - 2.0 * ratio;
    if s < 0.0 then 0.0 else s
  }

  /** numpy clip to [0, 1]. */
  function Clip(v: real): (c: real)
    ensures InUnit(c)
    ensures InUnit(v) ==> c == v
  {
    if v < 0.0 then 0.0 else if v > 1.0 then 1.0 else v
  }

  function PadAxis(v: real, s: real): real
  {
    Clip(0.5 + (v - 0.5) * s)
  }

  /** pad_normalized_coordinates: None for a missing or empty list,
      otherwise every vertex moved toward (0.5, 0.5) by the scale factor and
      clamped into the unit square. */
  function Pad(norm: Option<seq<Point>>, ratio: real): (r: Option<seq<Point>>)
    ensures r.None? <==> norm.None? || |norm.value| == 0
    ensures r.Some? ==> |r.value| == |norm.value| && InUnitSquare(r.value)
  {
    if norm.None? || |norm.value| == 0 then None
    else
      var s := ScaleFactor(ratio);
      var ps := norm.value;
      Some(seq(|ps|, i requires 0 <= i < |ps| => (PadAxis(ps[i].0, s), PadAxis(ps[i].1, s))))
  }

  /** With ratio 0 padding leaves points of the unit square unchanged. */
  lemma PadZeroIsIdentity(ps: seq<Point>)
    requires |ps| > 0 && InUnitSquare(ps)
    ensures Pad(Some(ps), 0.0) == Some(ps)
  {
    var r := Pad(Some(ps), 0.0).value;
    assert ScaleFactor(0.0) == 1.0;
    forall i | 0 <= i < |ps| ensures r[i] == ps[i] {
      assert r[i] == (Clip(0.5 + (ps[i].0 - 0.5) * 1.0), Clip(0.5 + (ps[i].1 - 0.5) * 1.0));
    }
    assert r == ps;
  }

  /** With ratio at least 0.5 every point collapses onto the centre. */
  lemma PadCollapses(ps: seq<Point>, ratio: real)
    requires |ps| > 0 && ratio >= 0.5
    ensures var r := Pad(Some(ps), ratio).value;
      forall i :: 0 <= i < |r| ==> r[i] == (0.5, 0.5)
  {
    var r := Pad(Some(ps), ratio).value;
    forall i | 0 <= i < |r| ensures r[i] == (0.5, 0.5) {
      assert (ps[i].0 - 0.5) * 0.0 == 0.0 && (ps[i].1 - 0.5) * 0.0 == 0.0;
    }
  }

  /** The centre (0.5, 0.5) is a fixed point of padding, for every ratio. */
  lemma PadFixesCentre(ps: seq<Point>, ratio: real, i: nat)
    requires i < |ps| && ps[i] == (0.5, 0.5)
    ensures Pad(Some(ps), ratio).value[i] == (0.5, 0.5)
  {
    var s := ScaleFactor(ratio);
    assert (ps[i].0 - 0.5) * s == 0.0;
  }

  lemma ShrinkStaysInUnit(v: real, s: real)
    requires InUnit(v) && 0.0 <= s <= 1.0
    ensures InUnit(0.5 + (v - 0.5) * s)
  {
    if v >= 0.5 {
      MulShrink(v - 0.5, s);
    } else {
      MulShrink(0.5 - v, s);
      assert (0.5 - v) * s == -((v - 0.5) * s);
    }
  }

  /** For a non-negative ratio the clamp never changes a point of the unit
      square: padding is exactly the homothety of ratio max(0, 1 - 2 ratio)
      about the centre, so it keeps the aspect ratio. */
  lemma PadIsHomothety(ps: seq<Point>, ratio: real, i: nat)
    requires InUnitSquare(ps) && ratio >= 0.0 && i < |ps|
    ensures var s := ScaleFactor(ratio);
      Pad(Some(ps), ratio).value[i] == (0.5 + (ps[i].0 - 0.5) * s, 0.5 + (ps[i].1 - 0.5) * s)
  {
    var s := ScaleFactor(ratio);
    assert s <= 1.0;
    ShrinkStaysInUnit(ps[i].0, s);
    ShrinkStaysInUnit(ps[i].1, s);
    assert PadAxis(ps[i].0, s) == 0.5 + (ps[i].0 - 0.5) * s;
    assert PadAxis(ps[i].1, s) == 0.5 + (ps[i].1 - 0.5) * s;
    assert Pad(Some(ps), ratio).value[i] == (PadAxis(ps[i].0, s), PadAxis(ps[i].1, s));
  }

  /** Shrinking toward 0.5 by the factor of a ratio up to 0.5 keeps a unit
      value at least `ratio` away from both 0 and 1. */
  lemma ShrinkLeavesBorder(v: real, ratio: real)
    requires InUnit(v) && 0.0 <= ratio <= 0.5
    ensures ratio <= 0.5 + (v - 0.5) * ScaleFactor(ratio) <= 1.0 - ratio
  {
    var s := ScaleFactor(ratio);
    var t := s * v;
    MulShrink(s, v);
    calc {
      0.5 + (v - 0.5) * s;
      0.5 + v * s - 0.5 * s;
      ratio + t;
    }
  }

  /** The border the padding adds: for a ratio up to 0.5 every padded point
      of the unit square lies in [ratio, 1 - ratio] on both axes. */
  lemma PadLeavesBorder(ps: seq<Point>, ratio: real, i: nat)
    requires InUnitSquare(ps) && 0.0 <= ratio <= 0.5 && i < |ps|
    ensures var q := Pad(Some(ps), ratio).value[i];
      ratio <= q.0 <= 1.0 - ratio && ratio <= q.1 <= 1.0 - ratio
  {
    PadIsHomothety(ps, ratio, i);
    ShrinkLeavesBorder(ps[i].0, ratio);
    ShrinkLeavesBorder(ps[i].1, ratio);
  }
}
