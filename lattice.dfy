/** The regular longitude/latitude lattice: snapping an interval to cell
    centres (`_minmaxcoord`), numpy's `arange` in exact arithmetic, the
    meshgrid-and-flatten layout of a regular grid and the four predefined
    global grids. */
module Lattice {
  import opened Common

  /** Python's `int(math.ceil(x))`. */
  function Ceil(x: real): (c: int)
    ensures c as real - 1.0 < x <= c as real
  {
    -((-x).Floor)
  }

  /** Python's `int(math.floor(x))`. */
  function Floor(x: real): (f: int)
    ensures f as real <= x < f as real + 1.0
  {
    x.Floor
  }

  /** The centre of cell `k` of the zero-anchored lattice with spacing `res`. */
  function Centre(k: int, res: real): real {
    (k as real + 0.5) * res
  }

  /** `v` is a cell centre: `v / res - 1/2` is an integer. */
  predicate IsCentre(v: real, res: real)
    requires res > 0.0
  {
    (v / res - 0.5).Floor as real == v / res - 0.5
  }

  /** The index of the cell whose centre is `v`. */
  function CentreIndex(v: real, res: real): (k: int)
    requires res > 0.0 && IsCentre(v, res)
    ensures Centre(k, res) == v
  {
    var k := (v / res - 0.5).Floor;
    DivMulCancel(v, res);
    k
  }

  lemma CentreIsCentre(k: int, res: real)
    requires res > 0.0
    ensures IsCentre(Centre(k, res), res)
  {
    var x := k as real + 0.5;
    MulDivCancel(x, res);
    assert Centre(k, res) == x * res;
    assert Centre(k, res) / res == x;
    assert Centre(k, res) / res - 0.5 == k as real;
    assert (k as real).Floor == k;
  }

  /** Consecutive cell centres are one spacing apart, and a cell edge is
      half a spacing from the neighbouring centres. */
  lemma CentreShift(c: int, res: real)
    ensures Centre(c, res) == c as real * res + res / 2.0
    ensures Centre(c - 1, res) == c as real * res - res / 2.0
  {
  }

  /** Centres are ordered like their indices, at least one spacing apart. */
  lemma CentreStep(k: int, m: int, res: real)
    requires res > 0.0 && k < m
    ensures Centre(k, res) + res <= Centre(m, res)
  {
    ScaleLe(k as real + 1.5, m as real + 0.5, res);
    assert (k as real + 1.5) * res == Centre(k, res) + res;
  }

  lemma MulDivCancel(x: real, res: real)
    requires res > 0.0
    ensures (x * res) / res == x
  {
  }

  lemma DivMulCancel(x: real, res: real)
    requires res > 0.0
    ensures (x / res) * res == x
  {
  }

  /** Multiplying both sides of `a < b` by a positive spacing. */
  lemma ScaleLess(a: real, b: real, res: real)
    requires res > 0.0 && a < b
    ensures a * res < b * res
  {
    assert (b - a) * res > 0.0;
  }

  /** Multiplying both sides of `a <= b` by a positive spacing. */
  lemma ScaleLe(a: real, b: real, res: real)
    requires res > 0.0 && a <= b
    ensures a * res <= b * res
  {
    assert (b - a) * res >= 0.0;
  }

  /** The four ways of moving a comparison with `t / res` back to `t`. */
  lemma QuotLe(t: real, res: real, c: real)
    requires res > 0.0 && t / res <= c
    ensures t <= c * res
  {
    DivMulCancel(t, res);
    ScaleLe(t / res, c, res);
  }

  lemma QuotGe(t: real, res: real, c: real)
    requires res > 0.0 && c <= t / res
    ensures c * res <= t
  {
    DivMulCancel(t, res);
    ScaleLe(c, t / res, res);
  }

  lemma QuotLess(t: real, res: real, c: real)
    requires res > 0.0 && t / res < c
    ensures t < c * res
  {
    DivMulCancel(t, res);
    ScaleLess(t / res, c, res);
  }

  lemma QuotGreater(t: real, res: real, c: real)
    requires res > 0.0 && c < t / res
    ensures c * res < t
  {
    DivMulCancel(t, res);
    ScaleLess(c, t / res, res);
  }

  /** `_minmaxcoord`: the first and last cell centre of the lattice with
      spacing `res` that lie within `[minThreshold, maxThreshold]`, found by
      rounding to a cell edge and then moving half a cell. */
  function MinMaxCoord(minThreshold: real, maxThreshold: real, res: real): (r: (real, real))
    requires res > 0.0
    ensures IsCentre(r.0, res) && minThreshold <= r.0 < minThreshold + res
    ensures IsCentre(r.1, res) && maxThreshold - res < r.1 <= maxThreshold
  {
    (LowerCentre(minThreshold, res), UpperCentre(maxThreshold, res))
  }

  /** The lower half of `_minmaxcoord`: round `minThreshold / res` up to a
      cell edge, then step half a cell up, or down when that centre is
      still at or above the threshold. */
  function LowerCentre(minThreshold: real, res: real): (c: real)
    requires res > 0.0
    ensures IsCentre(c, res) && minThreshold <= c < minThreshold + res
  {
    var cmin := Ceil(minThreshold / res);
    var minval := cmin as real * res;
    QuotLe(minThreshold, res, cmin as real);
    QuotGreater(minThreshold, res, cmin as real - 1.0);
    CentreShift(cmin, res);
    if minval - res / 2.0 < minThreshold then
      CentreIsCentre(cmin, res);
      minval + res / 2.0
    else
      CentreIsCentre(cmin - 1, res);
      minval - res / 2.0
  }

  /** The upper half of `_minmaxcoord`: round `maxThreshold / res` down to a
      cell edge, then step half a cell down, or up when that centre is
      still at or below the threshold. */
  function UpperCentre(maxThreshold: real, res: real): (c: real)
    requires res > 0.0
    ensures IsCentre(c, res) && maxThreshold - res < c <= maxThreshold
  {
    var cmax := Floor(maxThreshold / res);
    var maxval := cmax as real * res;
    QuotGe(maxThreshold, res, cmax as real);
    QuotLess(maxThreshold, res, cmax as real + 1.0);
    CentreShift(cmax, res);
    if maxval + res / 2.0 > maxThreshold then
      CentreIsCentre(cmax - 1, res);
      maxval - res / 2.0
    else
      CentreIsCentre(cmax, res);
      maxval + res / 2.0
  }

  /** The lower end is the least cell centre at or above `minThreshold`. */
  lemma MinCoordIsLeast(minThreshold: real, maxThreshold: real, res: real, k: int)
    requires res > 0.0 && minThreshold <= Centre(k, res)
    ensures MinMaxCoord(minThreshold, maxThreshold, res).0 <= Centre(k, res)
  {
    var lo := MinMaxCoord(minThreshold, maxThreshold, res).0;
    var m := CentreIndex(lo, res);
    if k < m {
      CentreStep(k, m, res);
    } else if m < k {
      CentreStep(m, k, res);
    }
  }

  /** The upper end is the greatest cell centre at or below `maxThreshold`. */
  lemma MaxCoordIsGreatest(minThreshold: real, maxThreshold: real, res: real, k: int)
    requires res > 0.0 && Centre(k, res) <= maxThreshold
    ensures Centre(k, res) <= MinMaxCoord(minThreshold, maxThreshold, res).1
  {
    var hi := MinMaxCoord(minThreshold, maxThreshold, res).1;
    var m := CentreIndex(hi, res);
    if k < m {
      CentreStep(k, m, res);
    } else if m < k {
      CentreStep(m, k, res);
    }
  }

  /** An interval at least one cell wide yields a non-empty range. */
  lemma MinMaxCoordOrdered(minThreshold: real, maxThreshold: real, res: real)
    requires res > 0.0 && maxThreshold - minThreshold >= res
    ensures MinMaxCoord(minThreshold, maxThreshold, res).0 <= MinMaxCoord(minThreshold, maxThreshold, res).1
  {
    var r := MinMaxCoord(minThreshold, maxThreshold, res);
    MaxCoordIsGreatest(minThreshold, maxThreshold, res, CentreIndex(r.0, res));
  }

  /** Nothing prevents a narrow interval from producing a reversed range. */
  lemma MinMaxCoordCanReverse()
    ensures MinMaxCoord(0.1, 0.2, 1.0) == (0.5, -0.5)
  {
  }

  /** Point `i` of an arithmetic progression. */
  function ArangePoint(start: real, step: real, i: int): real {
    start + i as real * step
  }

  /** numpy's `arange(start, stop, step)` for a positive step, read in exact
      arithmetic: the points `start, start + step, ...` that lie below `stop`. */
  function Arange(start: real, stop: real, step: real): (r: seq<real>)
    requires step > 0.0
    ensures forall i :: 0 <= i < |r| ==> r[i] == ArangePoint(start, step, i)
    ensures forall i :: 0 <= i < |r| ==> r[i] < stop
    ensures ArangePoint(start, step, |r|) >= stop
  {
    var n := Ceil((stop - start) / step);
    var len: nat := if n < 0 then 0 else n;
    ArangeBounds(start, stop, step, len);
    seq(len, i requires 0 <= i < len => ArangePoint(start, step, i))
  }

  lemma ArangeBounds(start: real, stop: real, step: real, len: nat)
    requires step > 0.0
    requires var n := Ceil((stop - start) / step); len == if n < 0 then 0 else n
    ensures forall i :: 0 <= i < len ==> ArangePoint(start, step, i) < stop
    ensures ArangePoint(start, step, len) >= stop
  {
    var q := (stop - start) / step;
    DivMulCancel(stop - start, step);
    forall i | 0 <= i < len
      ensures ArangePoint(start, step, i) < stop
    {
      ScaleLess(i as real, q, step);
    }
    ScaleLe(q, len as real, step);
  }

  /** A point of the progression below `stop` is on the range. */
  lemma ArangeHas(start: real, stop: real, step: real, i: int)
    requires step > 0.0 && 0 <= i && ArangePoint(start, step, i) < stop
    ensures i < |Arange(start, stop, step)|
  {
    var n := |Arange(start, stop, step)|;
    if n <= i {
      ScaleLe(n as real, i as real, step);
    }
  }

  lemma ArangeIncreasing(start: real, stop: real, step: real)
    requires step > 0.0
    ensures StrictlyIncreasing(Arange(start, stop, step))
  {
    var r := Arange(start, stop, step);
    forall i, j | 0 <= i < j < |r|
      ensures r[i] < r[j]
    {
      ArangePointLess(start, step, i, j);
    }
  }

  /** Later points of the progression are larger. */
  lemma ArangePointLess(start: real, step: real, i: int, j: int)
    requires step > 0.0 && i < j
    ensures ArangePoint(start, step, i) < ArangePoint(start, step, j)
  {
    ScaleLess(i as real, j as real, step);
  }

  /** `meshgrid(londim, latdim)`, first output: row `i` repeats `londim`. */
  function MeshLon(londim: seq<real>, latdim: seq<real>): (m: Matrix<real>)
    ensures IsMatrix(m, |latdim|, |londim|)
    ensures forall i, j :: 0 <= i < |latdim| && 0 <= j < |londim| ==> m[i][j] == londim[j]
  {
    seq(|latdim|, i => londim)
  }

  /** `meshgrid(londim, latdim)`, second output: row `i` is constant `latdim[i]`. */
  function MeshLat(londim: seq<real>, latdim: seq<real>): (m: Matrix<real>)
    ensures IsMatrix(m, |latdim|, |londim|)
    ensures forall i, j :: 0 <= i < |latdim| && 0 <= j < |londim| ==> m[i][j] == latdim[i]
  {
    seq(|latdim|, i requires 0 <= i < |latdim| => seq(|londim|, j => latdim[i]))
  }

  /** numpy's row-major `flatten`: the rows one after the other. */
  function Flatten<T>(m: Matrix<T>): seq<T> {
    if m == [] then [] else m[0] + Flatten(m[1..])
  }

  lemma {:induction false} FlattenLength<T>(m: Matrix<T>, rows: nat, cols: nat)
    requires IsMatrix(m, rows, cols)
    ensures |Flatten(m)| == rows * cols
  {
    if rows > 0 {
      FlattenLength(m[1..], rows - 1, cols);
    }
  }

  /** Entry `(i, j)` of a `rows x cols` array lands at position `i * cols + j`. */
  lemma {:induction false} FlattenRowCol<T>(m: Matrix<T>, rows: nat, cols: nat, i: nat, j: nat)
    requires IsMatrix(m, rows, cols) && i < rows && j < cols
    ensures i * cols + j < |Flatten(m)| && Flatten(m)[i * cols + j] == m[i][j]
  {
    FlattenLength(m, rows, cols);
    if i > 0 {
      var tail := m[1..];
      FlattenRowCol(tail, rows - 1, cols, i - 1, j);
      FlattenLength(tail, rows - 1, cols);
      assert i * cols + j == cols + ((i - 1) * cols + j);
      assert Flatten(m) == m[0] + Flatten(tail);
    }
  }

  lemma MulLess(a: int, b: int, n: int)
    requires n > 0 && a * n < b * n
    ensures a < b
  {
  }

  /** A position below `rows * cols` splits into a row and a column. */
  lemma RowOf(k: int, rows: nat, cols: nat)
    requires 0 <= k < rows * cols
    ensures cols > 0 && 0 <= k / cols < rows && 0 <= k % cols < cols
    ensures k == (k / cols) * cols + k % cols
  {
    assert cols > 0;
    assert (k / cols) * cols <= k;
    MulLess(k / cols, rows, cols);
  }

  /** A regular grid as pytesmo's BasicGrid holds it: the flattened
      longitude and latitude of every point (the gpi is the position) and
      the shape `(rows, cols) = (len(latdim), len(londim))`. */
  datatype Grid = Grid(arrlon: seq<real>, arrlat: seq<real>, rows: nat, cols: nat)

  /** The grid made of the points `(londim[j], latdim[i])`: one point per
      pair of axis entries. */
  function RegularGrid(londim: seq<real>, latdim: seq<real>): (g: Grid)
    ensures g.rows == |latdim| && g.cols == |londim|
    ensures |g.arrlon| == |g.arrlat| == |latdim| * |londim|
  {
    var lon2 := MeshLon(londim, latdim);
    var lat2 := MeshLat(londim, latdim);
    FlattenLength(lon2, |latdim|, |londim|);
    FlattenLength(lat2, |latdim|, |londim|);
    Grid(Flatten(lon2), Flatten(lat2), |latdim|, |londim|)
  }

  /** Flattened point `k` of a regular grid is
      `(londim[k mod nlon], latdim[k div nlon])`. */
  lemma RegularGridPoint(londim: seq<real>, latdim: seq<real>, k: int)
    requires 0 <= k < |latdim| * |londim|
    ensures 0 <= k / |londim| < |latdim| && 0 <= k % |londim| < |londim|
    ensures RegularGrid(londim, latdim).arrlon[k] == londim[k % |londim|]
    ensures RegularGrid(londim, latdim).arrlat[k] == latdim[k / |londim|]
  {
    RowOf(k, |latdim|, |londim|);
    RegularGridRowColumn(londim, latdim, k / |londim|, k % |londim|);
  }

  /** The gpi of the point in row `i`, column `j` is `i * nlon + j`. */
  lemma RegularGridRowColumn(londim: seq<real>, latdim: seq<real>, i: nat, j: nat)
    requires i < |latdim| && j < |londim|
    ensures i * |londim| + j < |latdim| * |londim|
    ensures RegularGrid(londim, latdim).arrlon[i * |londim| + j] == londim[j]
    ensures RegularGrid(londim, latdim).arrlat[i * |londim| + j] == latdim[i]
  {
    var lon2 := MeshLon(londim, latdim);
    var lat2 := MeshLat(londim, latdim);
    FlattenRowCol(lon2, |latdim|, |londim|, i, j);
    FlattenRowCol(lat2, |latdim|, |londim|, i, j);
    FlattenLength(lon2, |latdim|, |londim|);
    assert RegularGrid(londim, latdim).arrlon == Flatten(lon2);
    assert RegularGrid(londim, latdim).arrlat == Flatten(lat2);
  }

  /** The four predefined global grids. */
  datatype GridKind = HundredthDeg | TenthDeg | QuarterDeg | OneDeg

  /** The nominal spacing of each predefined grid, in degrees. */
  function Spacing(kind: GridKind): real {
    match kind
    case HundredthDeg => 0.01
    case TenthDeg => 0.1
    case QuarterDeg => 0.25
    case OneDeg => 1.0
  }

  /** The longitude axis: centres from `-180 + res/2` up to 180. */
  function GlobalLonAxis(kind: GridKind): seq<real> {
    var res := Spacing(kind);
    Arange(-180.0 + res / 2.0, 180.0, res)
  }

  /** The latitude axis: centres from `-90 + res/2` up to 90. */
  function GlobalLatAxis(kind: GridKind): seq<real> {
    var res := Spacing(kind);
    Arange(-90.0 + res / 2.0, 90.0, res)
  }

  /** `HundredthDegGrid`, `TenthDegGrid`, `QuarterDegGrid`, `OneDegGrid`. */
  function GlobalGrid(kind: GridKind): Grid {
    RegularGrid(GlobalLonAxis(kind), GlobalLatAxis(kind))
  }

  /** Each global grid has `360 / res` longitudes and `180 / res` latitudes,
      starting at the south-western cell centre. */
  lemma GlobalGridShape(kind: GridKind)
    ensures var g := GlobalGrid(kind); var res := Spacing(kind);
      && g.cols as real == 360.0 / res && g.rows as real == 180.0 / res
      && |g.arrlon| == g.rows * g.cols
      && GlobalLonAxis(kind)[0] == -180.0 + res / 2.0
      && GlobalLatAxis(kind)[0] == -90.0 + res / 2.0
  {
    var res := Spacing(kind);
    var lonLen := |GlobalLonAxis(kind)|;
    var latLen := |GlobalLatAxis(kind)|;
    match kind
    case HundredthDeg =>
      assert lonLen == 36000 && latLen == 18000;
    case TenthDeg =>
      assert lonLen == 3600 && latLen == 1800;
    case QuarterDeg =>
      assert lonLen == 1440 && latLen == 720;
    case OneDeg =>
      assert lonLen == 360 && latLen == 180;
  }
}
