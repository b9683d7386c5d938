/** Mask helpers (mask_utils.py): rasterising a normalised polygon onto a
    size x size grid, loading a stored raster as a strict 0/1 mask, and
    picking the largest contour of a mask. The scanline fill, the resize and
    the contour tracing are library operations (`Vision`). */
module MaskUtils {
  import opened Common
  import opened GeometryUtils
  import opened StableSort
  import opened Selection

  /** numpy `astype(np.int32)` on a float: truncation toward zero. */
  function Trunc(x: real): (n: int)
    ensures x >= 0.0 ==> n as real <= x < n as real + 1.0
    ensures x < 0.0 ==> n as real - 1.0 < x <= n as real
  {
    if x >= 0.0 then x.Floor else -((-x).Floor)
  }

  /** One vertex of `(coords * (image_size - 1)).astype(np.int32)`. */
  function ScaleVertex(c: Point, size: nat): Pixel
  {
    var f := (size as int - 1) as real;
    (Trunc(c.0 * f), Trunc(c.1 * f))
  }

  function ScaleToGrid(coords: seq<Point>, size: nat): (pts: seq<Pixel>)
    ensures |pts| == |coords| && forall i :: 0 <= i < |coords| ==> pts[i] == ScaleVertex(coords[i], size)
  {
    seq(|coords|, i requires 0 <= i < |coords| => ScaleVertex(coords[i], size))
  }

  lemma TruncScaledInRange(c: real, m: nat)
    requires InUnit(c)
    ensures var n := Trunc(c * m as real);
      0 <= n <= m && n as real <= c * m as real < n as real + 1.0
  {
    var f := m as real;
    MulShrink(f, c);
    assert c * f == f * c;
    var n := Trunc(c * f);
    assert n as real <= f;
  }

  /** For coordinates of the unit square every grid index lies in
      0 .. size - 1, and it is the scaled value rounded DOWN, never up. */
  lemma ScaledIndicesInRange(coords: seq<Point>, size: nat, i: nat)
    requires InUnitSquare(coords) && size >= 1 && i < |coords|
    ensures var p := ScaleToGrid(coords, size)[i];
      var f := (size - 1) as real;
      && 0 <= p.0 <= size - 1 && 0 <= p.1 <= size - 1
      && p.0 as real <= coords[i].0 * f < p.0 as real + 1.0
      && p.1 as real <= coords[i].1 * f < p.1 as real + 1.0
  {
    var m: nat := size - 1;
    assert ScaleToGrid(coords, size)[i] == ScaleVertex(coords[i], size);
    assert (size as int - 1) as real == m as real;
    TruncScaledInRange(coords[i].0, m);
    TruncScaledInRange(coords[i].1, m);
  }

  /** A size x size raster holding 1 at the given pixels and 0 elsewhere. */
  function Paint(size: nat, cells: set<Pixel>): (g: Grid)
    ensures IsRect(g, size, size) && IsBinary(g)
    ensures forall i, j :: 0 <= i < size && 0 <= j < size ==> (g[i][j] == 1 <==> (i, j) in cells)
  {
    seq(size, i => seq(size, j => if (i, j) in cells then 1 else 0))
  }

  /** create_mask_from_coords: fewer than three vertices give the all-zero
      mask; otherwise the vertices are scaled and truncated onto the grid and
      filled, a fill failure again giving the all-zero mask. The input
      coordinates are a value and are never altered. */
  function CreateMaskFromCoords(vision: Vision, coords: Option<seq<Point>>, size: nat): (m: Grid)
    ensures IsRect(m, size, size) && IsBinary(m)
    ensures coords.None? || |coords.value| < 3 ==> m == Zeros(size)
    ensures coords.Some? && |coords.value| >= 3 ==>
      match vision.fillPoly(ScaleToGrid(coords.value, size), size)
      case None => m == Zeros(size)
      case Some(cells) => forall i, j :: 0 <= i < size && 0 <= j < size ==> (m[i][j] == 1 <==> (i, j) in cells)
  {
    if coords.None? || |coords.value| < 3 then Zeros(size)
    else
      var coordsInt := ScaleToGrid(coords.value, size);
      match vision.fillPoly(coordsInt, size)
      case None => Zeros(size)
      case Some(cells) => Paint(size, cells)
  }

  /** `(data > 0).astype(np.uint8)`. */
  function Binarize(g: Grid): (r: Grid)
    ensures |r| == |g| && IsBinary(r)
    ensures forall i :: 0 <= i < |g| ==> |r[i]| == |g[i]|
    ensures forall i, j :: 0 <= i < |g| && 0 <= j < |g[i]| ==> (r[i][j] == 1 <==> g[i][j] > 0)
  {
    seq(|g|, i requires 0 <= i < |g| => seq(|g[i]|, j requires 0 <= j < |g[i]| => if g[i][j] > 0 then 1 else 0))
  }

  /** load_dat_as_mask on the loader's result (`None`: np.loadtxt raised):
      resized only when its shape is not size x size, then forced to 0/1; any
      failure yields `None`. */
  function LoadDatAsMask(vision: Vision, data: Option<Grid>, size: nat): (r: Option<Grid>)
    ensures data.None? ==> r.None?
    ensures r.Some? ==> IsBinary(r.value)
    ensures data.Some? && Shape(data.value) == (size, size) ==> r == Some(Binarize(data.value))
    ensures data.Some? && Shape(data.value) != (size, size) ==>
      (vision.resize(data.value, size).None? <==> r.None?)
    ensures data.Some? && IsRect(data.value, size, size) ==> r.Some? && IsRect(r.value, size, size)
    ensures ResizesToTarget(vision) && data.Some? && IsArray(data.value) && r.Some? ==> IsRect(r.value, size, size)
  {
    if data.None? then None
    else
      var resized := if Shape(data.value) != (size, size) then vision.resize(data.value, size) else Some(data.value);
      if resized.None? then None else Some(Binarize(resized.value))
  }

  /** The order `contours.sort(key=cv2.contourArea, reverse=True)` sorts by. */
  predicate Greater(a: real, b: real)
  {
    a > b
  }

  lemma GreaterIsStrictTotal()
    ensures StrictTotalOrder(Greater)
  {
  }

  function Areas(vision: Vision, cs: seq<Contour>): (a: seq<real>)
    ensures |a| == |cs| && forall i :: 0 <= i < |cs| ==> a[i] == vision.contourArea(cs[i])
  {
    seq(|cs|, i requires 0 <= i < |cs| => vision.contourArea(cs[i]))
  }

  /** After the stable descending sort by area, the head is the FIRST
      contour (in tracing order) of maximal area. */
  lemma LargestContourIsFirstMax(vision: Vision, cs: seq<Contour>)
    requires |cs| > 0
    ensures var sorted := Sort(cs, vision.contourArea, Greater);
      |sorted| == |cs| && sorted[0] == cs[FirstMaxIndex(Areas(vision, cs))]
  {
    GreaterIsStrictTotal();
    SortHead(cs, vision.contourArea, Greater);
    var h := Sort(cs, vision.contourArea, Greater)[0];
    var i := IndexOfKey(cs, vision.contourArea, vision.contourArea(h));
    var areas := Areas(vision, cs);
    assert IsFirstMax(areas, i);
    FirstMaxUnique(areas, i, FirstMaxIndex(areas));
  }

  /** find_contours_from_mask: no contour for a missing or all-zero mask or
      a tracing failure; otherwise the single contour of largest area, the
      first traced one among equals. */
  function FindContoursFromMask(vision: Vision, mask: Option<Grid>): (r: seq<Contour>)
    ensures |r| <= 1
    ensures mask.None? || AllZero(mask.value) ==> r == []
    ensures r != [] ==> mask.Some? && vision.findContours(mask.value).Some?
    ensures mask.Some? && !AllZero(mask.value) ==>
      match vision.findContours(mask.value)
      case None => r == []
      case Some(cs) => (cs == [] ==> r == []) && (cs != [] ==> r == [cs[FirstMaxIndex(Areas(vision, cs))]])
  {
    if mask.None? || AllZero(mask.value) then []
    else
      match vision.findContours(mask.value)
      case None => []
      case Some(contours) =>
        if |contours| > 0 then
          LargestContourIsFirstMax(vision, contours);
          [Sort(contours, vision.contourArea, Greater)[0]]
        else []
  }
}
