/** `CountryGrid`: the regular lattice clipped to one country. The shape
    of the country is its bounding box and the polygon test, given as
    inputs. */
module CountryGrids {
  import opened Common
  import opened Lattice
  import opened Trimming
  import TrimmingProperties

  /** `shp.bbox`: `(lon_min, lat_min, lon_max, lat_max)`. */
  datatype BBox = BBox(lonMin: real, latMin: real, lonMax: real, latMax: real)

  /** A country shape: its bounding box and the relation "the point
      `(lon, lat)` lies within the polygon" (which is also what
      `poly.contains(Point(lon, lat))` tests). */
  datatype Shape = Shape(bbox: BBox, within: (real, real) -> bool)

  /** A country grid: the country code, its shape and the clipped lattice. */
  datatype CountryGrid = CountryGrid(country: string, shp: Shape, grid: Grid)

  /** `arange(minval, maxval + res, res)` with `(minval, maxval)` from
      `_minmaxcoord`: the candidate axis along one direction. */
  function CandidateAxis(minThreshold: real, maxThreshold: real, res: real): seq<real>
    requires res > 0.0
  {
    var r := MinMaxCoord(minThreshold, maxThreshold, res);
    Arange(r.0, r.1 + res, res)
  }

  /** Moving `i` cells along the lattice from centre `p`. */
  lemma CentreOffset(p: int, i: int, res: real)
    ensures Centre(p + i, res) == Centre(p, res) + i as real * res
  {
    assert (p + i) as real + 0.5 == (p as real + 0.5) + i as real;
  }

  /** Centres are ordered as their indices. */
  lemma CentreMonotone(k: int, m: int, res: real)
    requires res > 0.0 && k <= m
    ensures Centre(k, res) <= Centre(m, res)
  {
    if k < m {
      CentreStep(k, m, res);
    }
  }

  /** Entry `i` of the candidate axis is the centre `i` cells above the
      first one. */
  lemma CandidateAxisAt(minThreshold: real, maxThreshold: real, res: real, i: int)
    requires res > 0.0 && 0 <= i < |CandidateAxis(minThreshold, maxThreshold, res)|
    ensures var p := CentreIndex(MinMaxCoord(minThreshold, maxThreshold, res).0, res);
      CandidateAxis(minThreshold, maxThreshold, res)[i] == Centre(p + i, res)
  {
    var r := MinMaxCoord(minThreshold, maxThreshold, res);
    var p := CentreIndex(r.0, res);
    CentreOffset(p, i, res);
  }

  /** The candidate axis holds cell centres inside `[minThreshold,
      maxThreshold]`, in increasing order. */
  lemma CandidateAxisWithin(minThreshold: real, maxThreshold: real, res: real)
    requires res > 0.0
    ensures var a := CandidateAxis(minThreshold, maxThreshold, res);
      && StrictlyIncreasing(a)
      && forall i :: 0 <= i < |a| ==> IsCentre(a[i], res) && minThreshold <= a[i] <= maxThreshold
  {
    var r := MinMaxCoord(minThreshold, maxThreshold, res);
    var a := CandidateAxis(minThreshold, maxThreshold, res);
    ArangeIncreasing(r.0, r.1 + res, res);
    var p := CentreIndex(r.0, res);
    var q := CentreIndex(r.1, res);
    forall i | 0 <= i < |a|
      ensures IsCentre(a[i], res) && minThreshold <= a[i] <= maxThreshold
    {
      CandidateAxisAt(minThreshold, maxThreshold, res, i);
      CentreIsCentre(p + i, res);
      CentreMonotone(p, p + i, res);
      if q < p + i {
        CentreStep(q, p + i, res);
      }
      CentreMonotone(p + i, q, res);
    }
  }

  /** Every cell centre inside `[minThreshold, maxThreshold]` is on the
      candidate axis, at its offset from the first one. */
  lemma CandidateAxisCovers(minThreshold: real, maxThreshold: real, res: real, k: int)
    requires res > 0.0 && minThreshold <= Centre(k, res) <= maxThreshold
    ensures var a := CandidateAxis(minThreshold, maxThreshold, res);
      var p := CentreIndex(MinMaxCoord(minThreshold, maxThreshold, res).0, res);
      0 <= k - p < |a| && a[k - p] == Centre(k, res)
  {
    var r := MinMaxCoord(minThreshold, maxThreshold, res);
    var p := CentreIndex(r.0, res);
    MinCoordIsLeast(minThreshold, maxThreshold, res, k);
    MaxCoordIsGreatest(minThreshold, maxThreshold, res, k);
    if k < p {
      CentreStep(k, p, res);
    }
    CentreOffset(p, k - p, res);
    assert ArangePoint(r.0, res, k - p) == Centre(k, res);
    ArangeHas(r.0, r.1 + res, res, k - p);
  }

  /** The lattice `CountryGrid.__init__` builds: both candidate axes with
      their blank frames removed, then meshed and flattened. */
  function CountryLattice(shp: Shape, res: real): Grid
    requires res > 0.0
  {
    RegularGrid(CountryLonAxis(shp, res), CountryLatAxis(shp, res))
  }

  /** `lon_new`: the candidate longitudes without their blank frame. */
  function CountryLonAxis(shp: Shape, res: real): seq<real>
    requires res > 0.0
  {
    var lons := CandidateAxis(shp.bbox.lonMin, shp.bbox.lonMax, res);
    var lats := CandidateAxis(shp.bbox.latMin, shp.bbox.latMax, res);
    TrimAxis(lons, lats, shp.within)
  }

  /** `lat_new`: the candidate latitudes without their blank frame. */
  function CountryLatAxis(shp: Shape, res: real): seq<real>
    requires res > 0.0
  {
    var lons := CandidateAxis(shp.bbox.lonMin, shp.bbox.lonMax, res);
    var lats := CandidateAxis(shp.bbox.latMin, shp.bbox.latMax, res);
    TrimAxis(lats, lons, Transposed(shp.within))
  }

  /** Both axes of the country grid increase strictly, as the candidate
      axes do: trimming keeps a contiguous run of them. */
  lemma CountryAxesIncreasing(shp: Shape, res: real)
    requires res > 0.0
    ensures StrictlyIncreasing(CountryLonAxis(shp, res)) && StrictlyIncreasing(CountryLatAxis(shp, res))
  {
    CandidateAxisWithin(shp.bbox.lonMin, shp.bbox.lonMax, res);
    CandidateAxisWithin(shp.bbox.latMin, shp.bbox.latMax, res);
  }

  /** `CountryGrid(country)`. The spacing is the global setting `res`: the
      constructor's own `resolution` argument is not consulted. */
  method NewCountryGrid(country: string, shp: Shape, res: real) returns (cg: CountryGrid)
    requires res > 0.0
    ensures cg.country == country && cg.shp == shp
    ensures cg.grid == CountryLattice(shp, res)
  {
    var lons := CandidateAxis(shp.bbox.lonMin, shp.bbox.lonMax, res);
    var lats := CandidateAxis(shp.bbox.latMin, shp.bbox.latMax, res);
    CandidateAxisDistinct(shp.bbox.lonMin, shp.bbox.lonMax, res);
    CandidateAxisDistinct(shp.bbox.latMin, shp.bbox.latMax, res);
    var lonNew, latNew := RemoveBlankFrame(lons, lats, shp.within);
    cg := CountryGrid(country, shp, RegularGrid(lonNew, latNew));
  }

  lemma CandidateAxisDistinct(minThreshold: real, maxThreshold: real, res: real)
    requires res > 0.0
    ensures Distinct(CandidateAxis(minThreshold, maxThreshold, res))
  {
    var r := MinMaxCoord(minThreshold, maxThreshold, res);
    ArangeIncreasing(r.0, r.1 + res, res);
    StrictlyIncreasingIsDistinct(CandidateAxis(minThreshold, maxThreshold, res));
  }

  /** A trimmed axis keeps the cell centres of the candidate axis. */
  lemma TrimmedAxisWithin(minThreshold: real, maxThreshold: real, res: real, other: seq<real>,
                           inside: (real, real) -> bool, j: int)
    requires res > 0.0
    requires 0 <= j < |TrimAxis(CandidateAxis(minThreshold, maxThreshold, res), other, inside)|
    ensures var v := TrimAxis(CandidateAxis(minThreshold, maxThreshold, res), other, inside)[j];
      IsCentre(v, res) && minThreshold <= v <= maxThreshold
  {
    var a := CandidateAxis(minThreshold, maxThreshold, res);
    CandidateAxisWithin(minThreshold, maxThreshold, res);
    assert TrimAxis(a, other, inside)[j] == a[LowTrim(a, other, inside) + j];
  }

  /** Every point of the country grid is a lattice cell centre inside the
      bounding box. */
  lemma CountryLatticeInBox(shp: Shape, res: real, k: int)
    requires res > 0.0 && 0 <= k < |CountryLattice(shp, res).arrlon|
    ensures var g := CountryLattice(shp, res);
      && IsCentre(g.arrlon[k], res) && shp.bbox.lonMin <= g.arrlon[k] <= shp.bbox.lonMax
      && IsCentre(g.arrlat[k], res) && shp.bbox.latMin <= g.arrlat[k] <= shp.bbox.latMax
  {
    var lonNew := CountryLonAxis(shp, res);
    var latNew := CountryLatAxis(shp, res);
    RegularGridPoint(lonNew, latNew, k);
    var lons := CandidateAxis(shp.bbox.lonMin, shp.bbox.lonMax, res);
    var lats := CandidateAxis(shp.bbox.latMin, shp.bbox.latMax, res);
    TrimmedAxisWithin(shp.bbox.lonMin, shp.bbox.lonMax, res, lats, shp.within, k % |lonNew|);
    TrimmedAxisWithin(shp.bbox.latMin, shp.bbox.latMax, res, lons, Transposed(shp.within), k / |lonNew|);
  }

  /** A point `(lons[i], lats[j])` inside the polygon is a point of the
      grid meshed from the two trimmed axes. */
  lemma TrimmedGridKeepsPoint(lons: seq<real>, lats: seq<real>, within: (real, real) -> bool, i: int, j: int)
    requires 0 <= i < |lons| && 0 <= j < |lats| && within(lons[i], lats[j])
    ensures var g := RegularGrid(TrimAxis(lons, lats, within), TrimAxis(lats, lons, Transposed(within)));
      exists k :: 0 <= k < |g.arrlon| && g.arrlon[k] == lons[i] && g.arrlat[k] == lats[j]
  {
    TrimmingProperties.InsideLineSurvives(lons, lats, within, i, j);
    assert Transposed(within)(lats[j], lons[i]);
    TrimmingProperties.InsideLineSurvives(lats, lons, Transposed(within), j, i);
    var lonNew := TrimAxis(lons, lats, within);
    var latNew := TrimAxis(lats, lons, Transposed(within));
    var col := i - LowTrim(lons, lats, within);
    var row := j - LowTrim(lats, lons, Transposed(within));
    GridHasPoint(lonNew, latNew, row, col);
    var g := RegularGrid(lonNew, latNew);
    var k :| 0 <= k < |g.arrlon| && g.arrlon[k] == lonNew[col] && g.arrlat[k] == latNew[row];
    assert g.arrlon[k] == lons[i] && g.arrlat[k] == lats[j];
  }

  /** The point `(londim[col], latdim[row])` is a point of the grid. */
  lemma GridHasPoint(londim: seq<real>, latdim: seq<real>, row: nat, col: nat)
    requires row < |latdim| && col < |londim|
    ensures var g := RegularGrid(londim, latdim);
      exists k :: 0 <= k < |g.arrlon| && g.arrlon[k] == londim[col] && g.arrlat[k] == latdim[row]
  {
    RegularGridRowColumn(londim, latdim, row, col);
    var k := row * |londim| + col;
    assert RegularGrid(londim, latdim).arrlon[k] == londim[col];
  }

  /** No lattice point inside the polygon and the bounding box is lost:
      each is a point of the country grid. */
  lemma CountryLatticeKeepsInside(shp: Shape, res: real, kLon: int, kLat: int)
    requires res > 0.0
    requires shp.bbox.lonMin <= Centre(kLon, res) <= shp.bbox.lonMax
    requires shp.bbox.latMin <= Centre(kLat, res) <= shp.bbox.latMax
    requires shp.within(Centre(kLon, res), Centre(kLat, res))
    ensures exists k :: (0 <= k < |CountryLattice(shp, res).arrlon|
      && CountryLattice(shp, res).arrlon[k] == Centre(kLon, res)
      && CountryLattice(shp, res).arrlat[k] == Centre(kLat, res))
  {
    var lons := CandidateAxis(shp.bbox.lonMin, shp.bbox.lonMax, res);
    var lats := CandidateAxis(shp.bbox.latMin, shp.bbox.latMax, res);
    CandidateAxisCovers(shp.bbox.lonMin, shp.bbox.lonMax, res, kLon);
    CandidateAxisCovers(shp.bbox.latMin, shp.bbox.latMax, res, kLat);
    var i := kLon - CentreIndex(MinMaxCoord(shp.bbox.lonMin, shp.bbox.lonMax, res).0, res);
    var j := kLat - CentreIndex(MinMaxCoord(shp.bbox.latMin, shp.bbox.latMax, res).0, res);
    TrimmedGridKeepsPoint(lons, lats, shp.within, i, j);
    var g := RegularGrid(TrimAxis(lons, lats, shp.within), TrimAxis(lats, lons, Transposed(shp.within)));
    var k :| 0 <= k < |g.arrlon| && g.arrlon[k] == lons[i] && g.arrlat[k] == lats[j];
    assert CountryLattice(shp, res) == g;
  }

  /** The gpis of `box`, in order, whose point the polygon contains. */
  function InsidePoints(box: seq<nat>, g: Grid, contains: (real, real) -> bool): (r: seq<nat>)
    requires forall t :: 0 <= t < |box| ==> box[t] < |g.arrlon| && box[t] < |g.arrlat|
    ensures forall t :: 0 <= t < |r| ==> r[t] < |g.arrlon| && r[t] < |g.arrlat|
  {
    if box == [] then []
    else
      var last := box[|box| - 1];
      InsidePoints(box[..|box| - 1], g, contains)
        + (if contains(g.arrlon[last], g.arrlat[last]) then [last] else [])
  }

  /** `a` is `b` with some entries dropped, the rest kept in order. */
  predicate IsSubsequence(a: seq<nat>, b: seq<nat>)
    decreases |b|
  {
    if a == [] then true
    else if b == [] then false
    else if a[|a| - 1] == b[|b| - 1] then IsSubsequence(a[..|a| - 1], b[..|b| - 1])
    else IsSubsequence(a, b[..|b| - 1])
  }

  /** A gpi is returned exactly when it is in the box and its point is
      contained in the polygon. */
  lemma {:induction false} InsidePointsMembers(box: seq<nat>, g: Grid, contains: (real, real) -> bool, gpi: nat)
    requires forall t :: 0 <= t < |box| ==> box[t] < |g.arrlon| && box[t] < |g.arrlat|
    ensures gpi in InsidePoints(box, g, contains) <==>
      gpi in box && gpi < |g.arrlon| && gpi < |g.arrlat| && contains(g.arrlon[gpi], g.arrlat[gpi])
  {
    if box != [] {
      var init := box[..|box| - 1];
      InsidePointsMembers(init, g, contains, gpi);
      assert box == init + [box[|box| - 1]];
    }
  }

  /** The returned gpis keep the order (and repetitions) of the box. */
  lemma {:induction false} InsidePointsInBoxOrder(box: seq<nat>, g: Grid, contains: (real, real) -> bool)
    requires forall t :: 0 <= t < |box| ==> box[t] < |g.arrlon| && box[t] < |g.arrlat|
    ensures IsSubsequence(InsidePoints(box, g, contains), box)
  {
    if box != [] {
      var init := box[..|box| - 1];
      var last := box[|box| - 1];
      InsidePointsInBoxOrder(init, g, contains);
      var rest := InsidePoints(init, g, contains);
      assert init + [last] == box;
      if contains(g.arrlon[last], g.arrlat[last]) {
        var r := rest + [last];
        assert InsidePoints(box, g, contains) == r;
        assert r[..|r| - 1] == rest && r[|r| - 1] == box[|box| - 1];
        assert IsSubsequence(r[..|r| - 1], box[..|box| - 1]);
      } else {
        assert InsidePoints(box, g, contains) == rest;
        SubsequenceExtend(rest, init, last);
      }
    }
  }

  /** Appending to `b` keeps `a` a subsequence of it. */
  lemma {:induction false} SubsequenceExtend(a: seq<nat>, b: seq<nat>, x: nat)
    requires IsSubsequence(a, b)
    ensures IsSubsequence(a, b + [x])
    decreases |b|, 1
  {
    assert (b + [x])[..|b|] == b;
    if a != [] && a[|a| - 1] == x {
      SubsequenceDropLast(a, b);
    }
  }

  /** Dropping the last entry of `a` keeps it a subsequence. */
  lemma {:induction false} SubsequenceDropLast(a: seq<nat>, b: seq<nat>)
    requires a != [] && IsSubsequence(a, b)
    ensures IsSubsequence(a[..|a| - 1], b)
    decreases |b|, 0
  {
    var a' := a[..|a| - 1];
    var b' := b[..|b| - 1];
    if a[|a| - 1] != b[|b| - 1] {
      SubsequenceDropLast(a, b');
    }
    SubsequenceExtend(a', b', b[|b| - 1]);
    assert b' + [b[|b| - 1]] == b;
  }

  /** `get_country_gridpoints`: walk the gpis of the bounding-box query and
      keep those whose point the polygon contains, with their coordinates
      (`gpi2lonlat` reads the point's entries of the flattened arrays). */
  method GetCountryGridpoints(cg: CountryGrid, box: seq<nat>)
    returns (pts: seq<nat>, lons: seq<real>, lats: seq<real>)
    requires forall t :: 0 <= t < |box| ==> box[t] < |cg.grid.arrlon| && box[t] < |cg.grid.arrlat|
    ensures pts == InsidePoints(box, cg.grid, cg.shp.within)
    ensures |lons| == |pts| && |lats| == |pts|
    ensures forall t :: 0 <= t < |pts| ==> lons[t] == cg.grid.arrlon[pts[t]] && lats[t] == cg.grid.arrlat[pts[t]]
  {
    var g := cg.grid;
    pts, lons, lats := [], [], [];
    for t := 0 to |box|
      invariant pts == InsidePoints(box[..t], g, cg.shp.within)
      invariant |lons| == |pts| && |lats| == |pts|
      invariant forall u :: 0 <= u < |pts| ==> pts[u] < |g.arrlon| && pts[u] < |g.arrlat|
      invariant forall u :: 0 <= u < |pts| ==> lons[u] == g.arrlon[pts[u]] && lats[u] == g.arrlat[pts[u]]
    {
      assert box[..t + 1][..t] == box[..t];
      var gpi := box[t];
      var lon, lat := g.arrlon[gpi], g.arrlat[gpi];
      if cg.shp.within(lon, lat) {
        pts := pts + [gpi];
        lons := lons + [lon];
        lats := lats + [lat];
      }
    }
    assert box[..|box|] == box;
  }
}
