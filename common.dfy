/** Types shared by the shape-matching core: optional values, extended
    distances, binary rasters, and the image-library operations the core
    calls but does not implement. */
module Common {

  datatype Option<T> = None | Some(value: T)

  /** A Hausdorff distance: a finite real, or positive infinity when two
      boundaries cannot be compared. */
  datatype Ext = Finite(r: real) | Inf

  /** The float order `<` restricted to finite values and +infinity. */
  predicate ExtLess(a: Ext, b: Ext)
  {
    match (a, b)
    case (Finite(x), Finite(y)) => x < y
    case (Finite(_), Inf) => true
    case (Inf, _) => false
  }

  /** ExtLess is a strict total order. */
  lemma ExtLessIsStrictTotal(a: Ext, b: Ext, c: Ext)
    ensures !ExtLess(a, a)
    ensures ExtLess(a, b) && ExtLess(b, c) ==> ExtLess(a, c)
    ensures a != b ==> ExtLess(a, b) || ExtLess(b, a)
  {
  }

  /** A raster as a sequence of rows; pixel (i, j) is row i, column j. */
  type Grid = seq<seq<int>>

  /** A pair of grid integers. Two conventions use it: a raster cell is
      (row, column), while a polygon vertex or contour point is (x, y) as
      OpenCV takes it, that is (column, row). */
  type Pixel = (int, int)

  /** A boundary contour: an ordered sequence of integer points. */
  type Contour = seq<Pixel>

  /** The grid is h rows of w cells each. */
  predicate IsRect(g: Grid, h: nat, w: nat)
  {
    |g| == h && forall i :: 0 <= i < |g| ==> |g[i]| == w
  }

  /** Every numpy array is rectangular: all rows as long as the first. */
  predicate IsArray(g: Grid)
  {
    forall i :: 0 <= i < |g| ==> |g[i]| == |g[0]|
  }

  /** The numpy `shape` of a rectangular grid. */
  function Shape(g: Grid): (nat, nat)
  {
    (|g|, if |g| == 0 then 0 else |g[0]|)
  }

  predicate AllZero(g: Grid)
  {
    forall i, j :: 0 <= i < |g| && 0 <= j < |g[i]| ==> g[i][j] == 0
  }

  predicate IsBinary(g: Grid)
  {
    forall i, j :: 0 <= i < |g| && 0 <= j < |g[i]| ==> g[i][j] == 0 || g[i][j] == 1
  }

  /** The all-zero size x size mask. */
  function Zeros(size: nat): (g: Grid)
    ensures IsRect(g, size, size) && AllZero(g) && IsBinary(g)
  {
    seq(size, _ => seq(size, _ => 0))
  }

  /** The operations of the image libraries the core calls. Each is total;
      a `None` result stands for the library raising an exception. */
  datatype Vision = Vision(
    /** cv2.fillPoly on a zero size x size raster. The vertices are (x, y),
        i.e. (column, row); the result is the set of cells it sets, each
        as (row, column). */
    fillPoly: (seq<Pixel>, nat) -> Option<set<Pixel>>,
    /** cv2.resize with nearest-neighbour interpolation to size x size;
        `ResizesToTarget` states that a result has that shape. */
    resize: (Grid, nat) -> Option<Grid>,
    /** cv2.findContours (external boundaries) followed by imutils.grab_contours. */
    findContours: Grid -> Option<seq<Contour>>,
    /** cv2.contourArea. */
    contourArea: Contour -> real,
    /** scipy directed_hausdorff(u, v)[0]. */
    directedHausdorff: (Contour, Contour) -> Option<real>
  )

  /** cv2.resize(g, (n, n)) returns an n x n raster whenever it succeeds. */
  ghost predicate ResizesToTarget(vision: Vision)
  {
    forall g, n :: vision.resize(g, n).Some? ==> IsRect(vision.resize(g, n).value, n, n)
  }
}
