/** `_create_grid` and the post-processing of `resample_to_shape`: the
    destination lattice, the country mask, the fill of masked cells and the
    renaming of the variables. The resampling itself is an input. */
module Resampling {
  import opened Common
  import opened Lattice
  import opened Trimming
  import opened CountryGrids

  // ---------------------------------------------------------------------
  // Resolution dispatch

  /** `_create_grid` as written: the global grid chosen for the spatial
      resolution `spRes`, or `None` when no branch applies (the function
      then fails on `return grid`). */
  function CreateGrid(spRes: real): (r: Option<GridKind>)
    ensures r.Some? <==> spRes == 0.01 || spRes == 0.1 || spRes == 0.25 || spRes == 1.0
    ensures r.Some? && spRes != 0.25 ==> Spacing(r.value) == spRes
  {
    if spRes == 0.01 then Some(HundredthDeg)
    else if spRes == 0.1 then Some(TenthDeg)
    else if spRes == 0.25 then Some(TenthDeg)
    else if spRes == 1.0 then Some(OneDeg)
    else None
  }

  /** At 0.25 degrees the dispatch yields the 0.1 degree grid, whose
      spacing and point count disagree with the resolution asked for. */
  lemma CreateGridQuarterIsTenth()
    ensures CreateGrid(0.25) == Some(TenthDeg)
    ensures Spacing(CreateGrid(0.25).value) != 0.25
    ensures |GlobalGrid(CreateGrid(0.25).value).arrlon| == 3600 * 1800
  {
    GlobalGridShape(TenthDeg);
    var g := GlobalGrid(TenthDeg);
    assert g.cols == 3600 && g.rows == 1800;
  }

  /** The dispatch with the 0.25 branch choosing `QuarterDegGrid`. */
  function CreateGridIntended(spRes: real): (r: Option<GridKind>)
    ensures r.Some? <==> spRes == 0.01 || spRes == 0.1 || spRes == 0.25 || spRes == 1.0
    ensures r.Some? ==> Spacing(r.value) == spRes
  {
    if spRes == 0.01 then Some(HundredthDeg)
    else if spRes == 0.1 then Some(TenthDeg)
    else if spRes == 0.25 then Some(QuarterDeg)
    else if spRes == 1.0 then Some(OneDeg)
    else None
  }

  /** The grid the corrected dispatch returns has the requested spacing:
      `360 / spRes` longitudes and `180 / spRes` latitudes. */
  lemma CreateGridIntendedShape(spRes: real)
    requires CreateGridIntended(spRes).Some?
    ensures var g := GlobalGrid(CreateGridIntended(spRes).value);
      g.cols as real == 360.0 / spRes && g.rows as real == 180.0 / spRes
  {
    GlobalGridShape(CreateGridIntended(spRes).value);
  }

  /** The two dispatches differ at 0.25 only. */
  lemma CreateGridAgreesElsewhere(spRes: real)
    requires spRes != 0.25
    ensures CreateGrid(spRes) == CreateGridIntended(spRes)
  {
  }

  // ---------------------------------------------------------------------
  // np.unique

  /** Insert `x` into the strictly increasing `s`, unless it is there. */
  function Insert(s: seq<real>, x: real): (r: seq<real>)
    requires StrictlyIncreasing(s)
    ensures StrictlyIncreasing(r)
    ensures forall y :: y in r <==> y in s || y == x
  {
    if s == [] then [x]
    else if x < s[0] then [x] + s
    else if x == s[0] then s
    else
      var rest := Insert(s[1..], x);
      assert forall j :: 0 <= j < |rest| ==> rest[j] in rest;
      [s[0]] + rest
  }

  /** `np.unique`: the distinct values of `s` in increasing order. */
  function SortedUnique(s: seq<real>): (r: seq<real>)
    ensures StrictlyIncreasing(r)
    ensures forall y :: y in r <==> y in s
  {
    if s == [] then []
    else Insert(SortedUnique(s[..|s| - 1]), s[|s| - 1])
  }

  /** A strictly increasing sequence is determined by its values. */
  lemma {:induction false} IncreasingByValues(a: seq<real>, b: seq<real>)
    requires StrictlyIncreasing(a) && StrictlyIncreasing(b)
    requires forall y :: y in a <==> y in b
    ensures a == b
  {
    if a != [] {
      assert a[0] in a;
    }
    if b != [] {
      assert b[0] in b;
    }
    if a != [] && b != [] {
      assert a[0] in b && b[0] in a;
      assert a[0] == b[0];
      forall y
        ensures y in a[1..] <==> y in b[1..]
      {
        assert y in a[1..] <==> y in a && y != a[0];
        assert y in b[1..] <==> y in b && y != b[0];
      }
      IncreasingByValues(a[1..], b[1..]);
      assert a == [a[0]] + a[1..] && b == [b[0]] + b[1..];
    }
  }

  /** Applied to an axis that already increases strictly, `np.unique` gives
      it back. */
  lemma UniqueOfIncreasing(s: seq<real>)
    requires StrictlyIncreasing(s)
    ensures SortedUnique(s) == s
  {
    IncreasingByValues(SortedUnique(s), s);
  }

  // ---------------------------------------------------------------------
  // Destination lattice

  /** `meshgrid(unique(arrlon), unique(arrlat)[::-1])`. */
  function DestinationMesh(g: Grid): (Matrix<real>, Matrix<real>) {
    var lonAxis := SortedUnique(g.arrlon);
    var latAxis := Reversed(SortedUnique(g.arrlat));
    (MeshLon(lonAxis, latAxis), MeshLat(lonAxis, latAxis))
  }

  /** The longitudes of a regular grid with at least one row are its
      longitude axis. */
  lemma GridLongitudes(londim: seq<real>, latdim: seq<real>)
    requires |latdim| > 0
    ensures forall y :: y in RegularGrid(londim, latdim).arrlon <==> y in londim
  {
    var g := RegularGrid(londim, latdim);
    forall y
      ensures y in g.arrlon <==> y in londim
    {
      if y in g.arrlon {
        var k :| 0 <= k < |g.arrlon| && g.arrlon[k] == y;
        RegularGridPoint(londim, latdim, k);
      }
      if y in londim {
        var j :| 0 <= j < |londim| && londim[j] == y;
        RegularGridRowColumn(londim, latdim, 0, j);
      }
    }
  }

  /** The latitudes of a regular grid with at least one column are its
      latitude axis. */
  lemma GridLatitudes(londim: seq<real>, latdim: seq<real>)
    requires |londim| > 0
    ensures forall y :: y in RegularGrid(londim, latdim).arrlat <==> y in latdim
  {
    var g := RegularGrid(londim, latdim);
    forall y
      ensures y in g.arrlat <==> y in latdim
    {
      if y in g.arrlat {
        var k :| 0 <= k < |g.arrlat| && g.arrlat[k] == y;
        RegularGridPoint(londim, latdim, k);
      }
      if y in latdim {
        var i :| 0 <= i < |latdim| && latdim[i] == y;
        RegularGridRowColumn(londim, latdim, i, 0);
      }
    }
  }

  /** For a grid on strictly increasing axes, both nonempty, the destination
      lattice has the grid's shape; column `j` is longitude `londim[j]` and
      row `i` is latitude `latdim[rows - 1 - i]`, so rows run from north to
      south. */
  lemma DestinationMeshLayout(londim: seq<real>, latdim: seq<real>)
    requires StrictlyIncreasing(londim) && StrictlyIncreasing(latdim)
    requires |londim| > 0 && |latdim| > 0
    ensures var m := DestinationMesh(RegularGrid(londim, latdim));
      && IsMatrix(m.0, |latdim|, |londim|) && IsMatrix(m.1, |latdim|, |londim|)
      && (forall i, j :: 0 <= i < |latdim| && 0 <= j < |londim| ==>
            m.0[i][j] == londim[j] && m.1[i][j] == latdim[|latdim| - 1 - i])
      && (forall i, i', j :: 0 <= i < i' < |latdim| && 0 <= j < |londim| ==> m.1[i'][j] < m.1[i][j])
  {
    var g := RegularGrid(londim, latdim);
    GridLongitudes(londim, latdim);
    GridLatitudes(londim, latdim);
    IncreasingByValues(SortedUnique(g.arrlon), londim);
    IncreasingByValues(SortedUnique(g.arrlat), latdim);
  }

  // ---------------------------------------------------------------------
  // Masked fields

  /** A resampled variable: values and the resampler's mask. */
  datatype MaskedField = MaskedField(data: Matrix<real>, mask: Matrix<bool>)

  /** The value written into every masked cell. */
  const FillValue: real := -99.0

  predicate IsField(f: MaskedField, rows: nat, cols: nat) {
    IsMatrix(f.data, rows, cols) && IsMatrix(f.mask, rows, cols)
  }

  /** The country mask: cell `(i, j)` is set when the destination point
      is not within the polygon, or the first variable is masked there. */
  function CountryMask(destLon: Matrix<real>, destLat: Matrix<real>, within: (real, real) -> bool,
                       first: Matrix<bool>, rows: nat, cols: nat): (m: Matrix<bool>)
    requires rows > 0 && cols > 0 ==>
      IsMatrix(destLon, rows, cols) && IsMatrix(destLat, rows, cols) && IsMatrix(first, rows, cols)
    ensures IsMatrix(m, rows, cols)
  {
    seq(rows, i requires 0 <= i < rows =>
      seq(cols, j requires 0 <= j < cols => !within(destLon[i][j], destLat[i][j]) || first[i][j]))
  }

  /** The country mask over a `rows x cols` destination lattice. */
  method BuildMask(destLon: Matrix<real>, destLat: Matrix<real>, within: (real, real) -> bool,
                   first: Matrix<bool>, rows: nat, cols: nat)
    returns (mask: array2<bool>)
    requires rows > 0 && cols > 0 ==>
      IsMatrix(destLon, rows, cols) && IsMatrix(destLat, rows, cols) && IsMatrix(first, rows, cols)
    ensures fresh(mask) && mask.Length0 == rows && mask.Length1 == cols
    ensures forall i, j :: 0 <= i < rows && 0 <= j < cols ==>
      mask[i, j] == (!within(destLon[i][j], destLat[i][j]) || first[i][j])
  {
    mask := new bool[rows, cols]((i, j) => false);
    for i := 0 to rows
      invariant forall i', j :: 0 <= i' < i && 0 <= j < cols ==>
        mask[i', j] == (!within(destLon[i'][j], destLat[i'][j]) || first[i'][j])
      invariant forall i', j :: i <= i' < rows && 0 <= j < cols ==> !mask[i', j]
    {
      for j := 0 to cols
        invariant forall i', j' :: 0 <= i' < i && 0 <= j' < cols ==>
          mask[i', j'] == (!within(destLon[i'][j'], destLat[i'][j']) || first[i'][j'])
        invariant forall j' :: 0 <= j' < j ==>
          mask[i, j'] == (!within(destLon[i][j'], destLat[i][j']) || first[i][j'])
        invariant forall i', j' :: i < i' < rows && 0 <= j' < cols ==> !mask[i', j']
        invariant forall j' :: j <= j' < cols ==> !mask[i, j']
      {
        if !within(destLon[i][j], destLat[i][j]) {
          mask[i, j] := true;
        }
        if first[i][j] {
          mask[i, j] := true;
        }
      }
    }
  }

  /** The array read back as rows. */
  function Cells(a: array2<bool>): (m: Matrix<bool>)
    reads a
    ensures IsMatrix(m, a.Length0, a.Length1)
    ensures forall i, j :: 0 <= i < a.Length0 && 0 <= j < a.Length1 ==> m[i][j] == a[i, j]
  {
    seq(a.Length0, i reads a requires 0 <= i < a.Length0 =>
      seq(a.Length1, j reads a requires 0 <= j < a.Length1 => a[i, j]))
  }

  /** The array `BuildMask` fills, read back as rows, is `CountryMask`. */
  lemma BuiltMaskIsCountryMask(mask: array2<bool>, destLon: Matrix<real>, destLat: Matrix<real>,
                               within: (real, real) -> bool, first: Matrix<bool>, rows: nat, cols: nat)
    requires rows > 0 && cols > 0 ==>
      IsMatrix(destLon, rows, cols) && IsMatrix(destLat, rows, cols) && IsMatrix(first, rows, cols)
    requires mask.Length0 == rows && mask.Length1 == cols
    requires forall i, j :: 0 <= i < rows && 0 <= j < cols ==>
      mask[i, j] == (!within(destLon[i][j], destLat[i][j]) || first[i][j])
    ensures Cells(mask) == CountryMask(destLon, destLat, within, first, rows, cols)
  {
    var cells := Cells(mask);
    var m := CountryMask(destLon, destLat, within, first, rows, cols);
    forall i | 0 <= i < rows
      ensures cells[i] == m[i]
    {
    }
  }

  /** `np.ma.masked_array(x, mask=mask)` with the default `keep_mask`: the
      new mask is the given one or the variable's own. */
  function WithMask(f: MaskedField, mask: Matrix<bool>, rows: nat, cols: nat): MaskedField
    requires IsField(f, rows, cols) && IsMatrix(mask, rows, cols)
  {
    MaskedField(f.data, seq(rows, i requires 0 <= i < rows =>
      seq(cols, j requires 0 <= j < cols => mask[i][j] || f.mask[i][j])))
  }

  /** `dat[flags == True] = -99` on a copy of the values. */
  function FillMasked(data: Matrix<real>, flags: Matrix<bool>, rows: nat, cols: nat): Matrix<real>
    requires IsMatrix(data, rows, cols) && IsMatrix(flags, rows, cols)
  {
    seq(rows, i requires 0 <= i < rows =>
      seq(cols, j requires 0 <= j < cols => if flags[i][j] then FillValue else data[i][j]))
  }

  /** One pass of the renaming loop over a variable: mask with `mask`,
      fill, and mask the filled copy with `mask` alone. */
  function Processed(f: MaskedField, mask: Matrix<bool>, rows: nat, cols: nat): (r: MaskedField)
    requires IsField(f, rows, cols) && IsMatrix(mask, rows, cols)
    ensures IsField(r, rows, cols)
  {
    var masked := WithMask(f, mask, rows, cols);
    MaskedField(FillMasked(masked.data, masked.mask, rows, cols), mask)
  }

  /** What each output cell holds: the fill value wherever the country mask
      or the variable's own mask is set, the resampled value elsewhere; the
      output mask is the country mask. */
  lemma ProcessedCells(f: MaskedField, mask: Matrix<bool>, rows: nat, cols: nat, i: nat, j: nat)
    requires IsField(f, rows, cols) && IsMatrix(mask, rows, cols) && i < rows && j < cols
    ensures var out := Processed(f, mask, rows, cols);
      && IsField(out, rows, cols)
      && out.mask == mask
      && (mask[i][j] || f.mask[i][j] ==> out.data[i][j] == FillValue)
      && (!mask[i][j] && !f.mask[i][j] ==> out.data[i][j] == f.data[i][j])
  {
  }

  // ---------------------------------------------------------------------
  // Renaming

  /** `prefix + '_' + key`. */
  function Prefixed(prefix: string, key: string): string {
    prefix + "_" + key
  }

  /** Different variables get different names. */
  lemma PrefixedInjective(prefix: string)
    ensures forall a, b :: Prefixed(prefix, a) == Prefixed(prefix, b) ==> a == b
  {
    forall a, b | Prefixed(prefix, a) == Prefixed(prefix, b)
      ensures a == b
    {
      var n := |prefix| + 1;
      assert a == Prefixed(prefix, a)[n..];
      assert b == Prefixed(prefix, b)[n..];
    }
  }

  /** No new name is also the name of an original variable. */
  predicate NoCollision(prefix: string, keys: seq<string>) {
    forall u, w :: 0 <= u < |keys| && 0 <= w < |keys| ==> Prefixed(prefix, keys[u]) != keys[w]
  }

  /** `ValueError`: the minimum of an empty coordinate array; `IndexError`:
      the first of no variables; `TypeError`: `None + str`. */
  datatype ResampleError = ValueError | IndexError | TypeError

  /** The dictionary of output variables and the destination lattice. */
  datatype Resampled = Resampled(data: map<string, MaskedField>, destLon: Matrix<real>, destLat: Matrix<real>)

  /** What the renaming loop has done after `t` variables, when no new
      name collides with an original one: the later variables are still
      there unchanged, the earlier ones are under their new names only. */
  ghost predicate RenamedUpTo(p: string, keys: seq<string>, data: map<string, MaskedField>,
                              mask: Matrix<bool>, rows: nat, cols: nat, t: nat, out: map<string, MaskedField>)
    requires t <= |keys| && (forall k :: k in data <==> k in keys)
    requires (forall k :: k in data ==> IsField(data[k], rows, cols)) && IsMatrix(mask, rows, cols)
  {
    && Untouched(keys, data, t, out)
    && (forall u :: 0 <= u < t ==>
          Prefixed(p, keys[u]) in out && out[Prefixed(p, keys[u])] == Processed(data[keys[u]], mask, rows, cols))
    && (forall u :: 0 <= u < t ==> keys[u] !in out)
    && (forall k :: k in out ==> k in data || exists u :: 0 <= u < t && k == Prefixed(p, keys[u]))
  }

  ghost predicate Untouched(keys: seq<string>, data: map<string, MaskedField>, t: nat, out: map<string, MaskedField>)
    requires forall k :: k in data <==> k in keys
  {
    forall u :: t <= u < |keys| ==> keys[u] in out && out[keys[u]] == data[keys[u]]
  }

  /** One pass of the loop keeps `RenamedUpTo`, one variable further. */
  lemma RenameStep(p: string, keys: seq<string>, data: map<string, MaskedField>,
                   mask: Matrix<bool>, rows: nat, cols: nat, t: nat, out: map<string, MaskedField>)
    requires Distinct(keys) && (forall k :: k in data <==> k in keys)
    requires (forall k :: k in data ==> IsField(data[k], rows, cols)) && IsMatrix(mask, rows, cols)
    requires NoCollision(p, keys) && t < |keys|
    requires RenamedUpTo(p, keys, data, mask, rows, cols, t, out)
    ensures var key := keys[t];
      RenamedUpTo(p, keys, data, mask, rows, cols, t + 1,
        out[Prefixed(p, key) := Processed(data[key], mask, rows, cols)] - {key})
  {
    var key := keys[t];
    var v := Prefixed(p, key);
    var f := Processed(data[key], mask, rows, cols);
    var out' := out[v := f] - {key};
    UntouchedStep(p, keys, data, t, out, f);
    RenamedStep(p, keys, data, mask, rows, cols, t, out, out');
    RemovedStep(p, keys, data, t, out, f);
  }

  lemma UntouchedStep(p: string, keys: seq<string>, data: map<string, MaskedField>, t: nat,
                      out: map<string, MaskedField>, f: MaskedField)
    requires Distinct(keys) && (forall k :: k in data <==> k in keys)
    requires NoCollision(p, keys) && t < |keys| && Untouched(keys, data, t, out)
    ensures Untouched(keys, data, t + 1, out[Prefixed(p, keys[t]) := f] - {keys[t]})
  {
    var out' := out[Prefixed(p, keys[t]) := f] - {keys[t]};
    forall u | t + 1 <= u < |keys|
      ensures keys[u] in out' && out'[keys[u]] == data[keys[u]]
    {
      assert keys[u] != keys[t] && keys[u] != Prefixed(p, keys[t]);
    }
  }

  lemma RenamedStep(p: string, keys: seq<string>, data: map<string, MaskedField>,
                    mask: Matrix<bool>, rows: nat, cols: nat, t: nat, out: map<string, MaskedField>,
                    out': map<string, MaskedField>)
    requires Distinct(keys) && (forall k :: k in data <==> k in keys)
    requires (forall k :: k in data ==> IsField(data[k], rows, cols)) && IsMatrix(mask, rows, cols)
    requires NoCollision(p, keys) && t < |keys|
    requires forall u :: 0 <= u < t ==>
      Prefixed(p, keys[u]) in out && out[Prefixed(p, keys[u])] == Processed(data[keys[u]], mask, rows, cols)
    requires out' == out[Prefixed(p, keys[t]) := Processed(data[keys[t]], mask, rows, cols)] - {keys[t]}
    ensures forall u :: 0 <= u < t + 1 ==>
      Prefixed(p, keys[u]) in out' && out'[Prefixed(p, keys[u])] == Processed(data[keys[u]], mask, rows, cols)
  {
    PrefixedInjective(p);
    forall u | 0 <= u < t + 1
      ensures Prefixed(p, keys[u]) in out' && out'[Prefixed(p, keys[u])] == Processed(data[keys[u]], mask, rows, cols)
    {
      assert Prefixed(p, keys[u]) != keys[t];
      if u < t {
        assert keys[u] != keys[t];
      }
    }
  }

  lemma RemovedStep(p: string, keys: seq<string>, data: map<string, MaskedField>, t: nat,
                    out: map<string, MaskedField>, f: MaskedField)
    requires (forall k :: k in data <==> k in keys)
    requires NoCollision(p, keys) && t < |keys|
    requires forall u :: 0 <= u < t ==> keys[u] !in out
    requires forall k :: k in out ==> k in data || exists u :: 0 <= u < t && k == Prefixed(p, keys[u])
    ensures var out' := out[Prefixed(p, keys[t]) := f] - {keys[t]};
      && (forall u :: 0 <= u < t + 1 ==> keys[u] !in out')
      && (forall k :: k in out' ==> k in data || exists u :: 0 <= u < t + 1 && k == Prefixed(p, keys[u]))
  {
    var out' := out[Prefixed(p, keys[t]) := f] - {keys[t]};
    forall u | 0 <= u < t + 1
      ensures keys[u] !in out'
    {
      assert keys[u] != Prefixed(p, keys[t]);
    }
  }

  /** After the last variable: exactly the new names remain. */
  lemma RenamedAll(p: string, keys: seq<string>, data: map<string, MaskedField>,
                   mask: Matrix<bool>, rows: nat, cols: nat, out: map<string, MaskedField>)
    requires (forall k :: k in data <==> k in keys)
    requires (forall k :: k in data ==> IsField(data[k], rows, cols)) && IsMatrix(mask, rows, cols)
    requires RenamedUpTo(p, keys, data, mask, rows, cols, |keys|, out)
    ensures forall k :: k in out ==> exists u :: 0 <= u < |keys| && k == Prefixed(p, keys[u])
  {
  }

  /** One pass of the loop keeps every variable shaped and the later
      variables present. */
  lemma ShapesStep(keys: seq<string>, t: nat, out: map<string, MaskedField>, v: string,
                   f: MaskedField, rows: nat, cols: nat)
    requires Distinct(keys) && t < |keys|
    requires forall k :: k in out ==> IsField(out[k], rows, cols)
    requires forall u :: t <= u < |keys| ==> keys[u] in out
    requires IsField(f, rows, cols)
    ensures var out' := out[v := f] - {keys[t]};
      && (forall k :: k in out' ==> IsField(out'[k], rows, cols))
      && (forall u :: t + 1 <= u < |keys| ==> keys[u] in out')
  {
    assert forall u :: t + 1 <= u < |keys| ==> keys[u] != keys[t];
  }

  /** The loop over `data.keys()`: each variable is processed under its new
      name and its old name deleted, in place. */
  method RenameAndFill(p: string, keys: seq<string>, data: map<string, MaskedField>,
                       mask: Matrix<bool>, rows: nat, cols: nat)
    returns (out: map<string, MaskedField>)
    requires Distinct(keys) && (forall k :: k in data <==> k in keys)
    requires forall k :: k in data ==> IsField(data[k], rows, cols)
    requires IsMatrix(mask, rows, cols)
    ensures NoCollision(p, keys) ==>
      && (forall u :: 0 <= u < |keys| ==>
            Prefixed(p, keys[u]) in out && out[Prefixed(p, keys[u])] == Processed(data[keys[u]], mask, rows, cols))
      && (forall u :: 0 <= u < |keys| ==> keys[u] !in out)
      && (forall k :: k in out ==> exists u :: 0 <= u < |keys| && k == Prefixed(p, keys[u]))
  {
    ghost var nc := NoCollision(p, keys);
    out := data;
    for t := 0 to |keys|
      invariant forall k :: k in out ==> IsField(out[k], rows, cols)
      invariant forall u :: t <= u < |keys| ==> keys[u] in out
      invariant nc ==> RenamedUpTo(p, keys, data, mask, rows, cols, t, out)
    {
      var key := keys[t];
      var v := Prefixed(p, key);
      if nc {
        RenameStep(p, keys, data, mask, rows, cols, t, out);
      }
      var f := Processed(out[key], mask, rows, cols);
      ShapesStep(keys, t, out, v, f, rows, cols);
      out := out[v := f];
      out := out - {key};
    }
    if nc {
      RenamedAll(p, keys, data, mask, rows, cols, out);
    }
  }

  // ---------------------------------------------------------------------
  // Resampling onto a country grid

  /** The variables, already resampled onto the destination lattice of the
      country grid, are masked outside the country and wherever the first
      variable is masked, filled with -99 there and renamed `prefix_key`.
      A country grid without points fails first, when the bounding-box query
      takes the minimum of its empty coordinate arrays (`ValueError`); then
      with no variables the first one cannot be read (`IndexError`); then
      without a prefix the renaming fails (`TypeError`). */
  method ResampleToShape(prefix: Option<string>, country: string, shp: Shape, res: real,
                         keys: seq<string>, data: map<string, MaskedField>)
    returns (r: Result<Resampled, ResampleError>)
    requires res > 0.0
    requires Distinct(keys) && (forall k :: k in data <==> k in keys)
    requires var g := CountryLattice(shp, res);
      forall k :: k in data ==> IsField(data[k], g.rows, g.cols)
    ensures var g := CountryLattice(shp, res);
      r.Err? <==> g.rows == 0 || g.cols == 0 || |keys| == 0 || prefix.None?
    ensures var g := CountryLattice(shp, res);
      r.Err? ==> (r.error == ValueError <==> g.rows == 0 || g.cols == 0)
    ensures var g := CountryLattice(shp, res);
      r.Err? && g.rows > 0 && g.cols > 0 ==> (r.error == IndexError <==> |keys| == 0)
    ensures r.Ok? ==> (r.value.destLon, r.value.destLat) == DestinationMesh(CountryLattice(shp, res))
    ensures var g := CountryLattice(shp, res);
      r.Ok? ==> IsMatrix(r.value.destLon, g.rows, g.cols) && IsMatrix(r.value.destLat, g.rows, g.cols)
    ensures var g := CountryLattice(shp, res);
      r.Ok? && NoCollision(prefix.value, keys) ==>
        var mask := CountryMask(r.value.destLon, r.value.destLat, shp.within,
                                data[keys[0]].mask, g.rows, g.cols);
        && (forall u :: 0 <= u < |keys| ==>
              Prefixed(prefix.value, keys[u]) in r.value.data &&
              r.value.data[Prefixed(prefix.value, keys[u])] == Processed(data[keys[u]], mask, g.rows, g.cols))
        && (forall u :: 0 <= u < |keys| ==> keys[u] !in r.value.data)
        && (forall k :: k in r.value.data ==> exists u :: 0 <= u < |keys| && k == Prefixed(prefix.value, keys[u]))
  {
    var cg := NewCountryGrid(country, shp, res);
    var rows, cols := cg.grid.rows, cg.grid.cols;
    var dest := DestinationMesh(cg.grid);
    if rows == 0 || cols == 0 {
      return Err(ValueError);
    }
    CountryAxesIncreasing(shp, res);
    DestinationMeshLayout(CountryLonAxis(shp, res), CountryLatAxis(shp, res));
    if |keys| == 0 {
      return Err(IndexError);
    }
    var first := data[keys[0]].mask;
    var mask := BuildMask(dest.0, dest.1, shp.within, first, rows, cols);
    var cells := Cells(mask);
    BuiltMaskIsCountryMask(mask, dest.0, dest.1, shp.within, first, rows, cols);
    if prefix.None? {
      return Err(TypeError);
    }
    var out := RenameAndFill(prefix.value, keys, data, cells, rows, cols);
    return Ok(Resampled(out, dest.0, dest.1));
  }
}
