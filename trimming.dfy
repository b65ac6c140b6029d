/** `_remove_blank_frame`: removing the outer longitudes and latitudes of
    a candidate lattice that hold no point inside the country polygon.
    The polygon is the predicate `within(lon, lat)`. */
module Trimming {
  import opened Common

  /** The same relation with its arguments swapped: `(lat, lon)` first. */
  function Transposed(within: (real, real) -> bool): (real, real) -> bool {
    (a: real, b: real) => within(b, a)
  }

  /** The line through `v` is blank: no point `(v, w)`, `w` ranging over
      `other`, is inside. */
  predicate BlankLine(v: real, other: seq<real>, inside: (real, real) -> bool) {
    forall j :: 0 <= j < |other| ==> !inside(v, other[j])
  }

  /** How many of the points `(v, w)`, `w` ranging over `other`, lie
      outside: the `checksum` of one scanned line. */
  function OutsideCount(v: real, other: seq<real>, inside: (real, real) -> bool): (c: nat)
    ensures c <= |other|
    ensures c == |other| <==> BlankLine(v, other, inside)
  {
    if other == [] then 0
    else OutsideCount(v, other[..|other| - 1], inside) + (if inside(v, other[|other| - 1]) then 0 else 1)
  }

  /** The inner loop: count the points of one line that are not inside. */
  method Checksum(v: real, other: seq<real>, inside: (real, real) -> bool) returns (checksum: nat)
    ensures checksum == OutsideCount(v, other, inside)
  {
    checksum := 0;
    for j := 0 to |other|
      invariant checksum == OutsideCount(v, other[..j], inside)
    {
      assert other[..j + 1][..j] == other[..j];
      if !inside(v, other[j]) {
        checksum := checksum + 1;
      }
    }
    assert other[..|other|] == other;
  }

  /** Where the scan from the low end, started at line `i` and allowed up
      to line `cap`, stops: at the first line with a point inside, or at
      `cap`. */
  function LowScan(axis: seq<real>, other: seq<real>, inside: (real, real) -> bool, i: nat, cap: nat): (k: nat)
    requires i <= cap <= |axis|
    ensures i <= k <= cap
    ensures forall t :: i <= t < k ==> BlankLine(axis[t], other, inside)
    ensures k < cap ==> !BlankLine(axis[k], other, inside)
    decreases cap - i
  {
    if i == cap || !BlankLine(axis[i], other, inside) then i
    else LowScan(axis, other, inside, i + 1, cap)
  }

  /** The scan from the high end: `i` lines already deleted from the top,
      at most `cap` in all. */
  function HighScan(axis: seq<real>, other: seq<real>, inside: (real, real) -> bool, i: nat, cap: nat): (k: nat)
    requires i <= cap <= |axis|
    ensures i <= k <= cap
    ensures forall t :: |axis| - k <= t < |axis| - i ==> BlankLine(axis[t], other, inside)
    ensures k < cap ==> !BlankLine(axis[|axis| - 1 - k], other, inside)
    decreases cap - i
  {
    if i == cap || !BlankLine(axis[|axis| - 1 - i], other, inside) then i
    else HighScan(axis, other, inside, i + 1, cap)
  }

  /** Number of lines the scan from the low end deletes: it looks at the
      first half of the axis only. */
  function LowTrim(axis: seq<real>, other: seq<real>, inside: (real, real) -> bool): nat {
    LowScan(axis, other, inside, 0, |axis| / 2)
  }

  /** Number of lines the scan from the high end deletes. */
  function HighTrim(axis: seq<real>, other: seq<real>, inside: (real, real) -> bool): nat {
    HighScan(axis, other, inside, 0, |axis| / 2)
  }

  /** The indices `0, 1, ..., lo - 1` followed by `n - 1, n - 2, ..., n - hi`,
      in the order the two scans append them. */
  function FrameIndices(n: nat, lo: nat, hi: nat): (d: seq<int>)
    ensures |d| == lo + hi
    ensures forall t :: 0 <= t < lo ==> d[t] == t
    ensures forall t :: lo <= t < lo + hi ==> d[t] == n - 1 - (t - lo)
  {
    seq(lo, t => t) + seq(hi, t => n - 1 - t)
  }

  lemma FrameIndicesGrowLow(n: nat, lo: nat)
    ensures FrameIndices(n, lo + 1, 0) == FrameIndices(n, lo, 0) + [lo]
  {
  }

  lemma FrameIndicesGrowHigh(n: nat, lo: nat, hi: nat)
    ensures FrameIndices(n, lo, hi + 1) == FrameIndices(n, lo, hi) + [n - 1 - hi]
  {
  }

  /** The indices `del_lons` (or `del_lats`) collected for one axis. */
  function Deleted(axis: seq<real>, other: seq<real>, inside: (real, real) -> bool): seq<int> {
    FrameIndices(|axis|, LowTrim(axis, other, inside), HighTrim(axis, other, inside))
  }

  /** The axis that remains once its blank frame is removed. */
  function TrimAxis(axis: seq<real>, other: seq<real>, inside: (real, real) -> bool): seq<real> {
    var lo := LowTrim(axis, other, inside);
    var hi := HighTrim(axis, other, inside);
    axis[lo .. |axis| - hi]
  }

  /** The two scans of one axis, as `_remove_blank_frame` in
      `poets/grid/grids.py` runs them for longitudes and then for latitudes:
      inward from each end over the first half, deleting blank lines up to
      the first line with a point inside. */
  method ScanDeletions(axis: seq<real>, other: seq<real>, inside: (real, real) -> bool)
    returns (del: seq<int>)
    ensures del == Deleted(axis, other, inside)
  {
    var n := |axis|;
    var half := n / 2;
    ghost var lo := LowTrim(axis, other, inside);
    ghost var hi := HighTrim(axis, other, inside);
    del := [];
    var i := 0;
    while i < half
      invariant 0 <= i <= lo
      invariant del == FrameIndices(n, i, 0)
    {
      var checksum := Checksum(axis[i], other, inside);
      assert checksum == |other| <==> BlankLine(axis[i], other, inside);
      if checksum == |other| {
        FrameIndicesGrowLow(n, i);
        del := del + [i];
        i := i + 1;
      } else {
        break;
      }
    }
    assert i == lo;
    i := 0;
    while i < half
      invariant 0 <= i <= hi
      invariant del == FrameIndices(n, lo, i)
    {
      var checksum := Checksum(axis[n - 1 - i], other, inside);
      assert checksum == |other| <==> BlankLine(axis[n - 1 - i], other, inside);
      if checksum == |other| {
        FrameIndicesGrowHigh(n, lo, i);
        del := del + [n - 1 - i];
        i := i + 1;
      } else {
        break;
      }
    }
    assert i == hi;
  }

  /** Python's `list.remove(v)`: drop the first occurrence of `v`. */
  function RemoveFirst(s: seq<real>, v: real): (r: seq<real>)
    ensures v in s ==> |r| == |s| - 1
    ensures v !in s ==> r == s
  {
    if s == [] then []
    else if s[0] == v then s[1..]
    else [s[0]] + RemoveFirst(s[1..], v)
  }

  /** The entries of `s` whose index is not in `gone`, in their order. */
  function KeepIndices(s: seq<real>, gone: set<int>): (r: seq<real>)
    ensures |r| <= |s|
    ensures forall v :: v in r ==> v in s
  {
    if s == [] then []
    else KeepIndices(s[..|s| - 1], gone) + (if |s| - 1 in gone then [] else [s[|s| - 1]])
  }

  /** A value is kept exactly when some index holding it is kept. */
  lemma {:induction false} KeepIndicesHas(s: seq<real>, gone: set<int>, i: int)
    requires 0 <= i < |s| && Distinct(s)
    ensures s[i] in KeepIndices(s, gone) <==> i !in gone
  {
    var n := |s| - 1;
    var init := s[..n];
    assert KeepIndices(s, gone) == KeepIndices(init, gone) + (if n in gone then [] else [s[n]]);
    if i < n {
      KeepIndicesHas(init, gone, i);
      assert init[i] == s[i];
      if n !in gone {
        assert s[i] != s[n];
      }
    } else {
      assert s[n] !in init;
    }
  }

  lemma {:induction false} RemoveFirstAppend(a: seq<real>, b: seq<real>, v: real)
    ensures v in a ==> RemoveFirst(a + b, v) == RemoveFirst(a, v) + b
    ensures v !in a ==> RemoveFirst(a + b, v) == a + RemoveFirst(b, v)
  {
    if a != [] {
      assert (a + b)[1..] == a[1..] + b;
      RemoveFirstAppend(a[1..], b, v);
    } else {
      assert a + b == b;
    }
  }

  /** On an axis without repeated values, removing the value at index `i`
      is removing index `i`. */
  lemma {:induction false} RemoveFirstIsIndexRemoval(s: seq<real>, gone: set<int>, i: int)
    requires 0 <= i < |s| && i !in gone && Distinct(s)
    ensures RemoveFirst(KeepIndices(s, gone), s[i]) == KeepIndices(s, gone + {i})
    decreases |s|, 1
  {
    if i < |s| - 1 {
      RemoveEarlierIndex(s, gone, i);
    } else {
      RemoveLastIndex(s, gone);
    }
  }

  /** The inductive case of `RemoveFirstIsIndexRemoval`: `i` is not the last
      index, so the last entry is not touched. */
  lemma {:induction false} RemoveEarlierIndex(s: seq<real>, gone: set<int>, i: int)
    requires 0 <= i < |s| - 1 && i !in gone && Distinct(s)
    ensures RemoveFirst(KeepIndices(s, gone), s[i]) == KeepIndices(s, gone + {i})
    decreases |s|, 0
  {
    var n := |s| - 1;
    var init := s[..n];
    assert Distinct(init);
    var last: seq<real> := if n in gone then [] else [s[n]];
    assert KeepIndices(s, gone) == KeepIndices(init, gone) + last;
    assert KeepIndices(s, gone + {i}) == KeepIndices(init, gone + {i}) + last;
    assert init[i] == s[i];
    KeepIndicesHas(init, gone, i);
    RemoveFirstAppend(KeepIndices(init, gone), last, s[i]);
    RemoveFirstIsIndexRemoval(init, gone, i);
  }

  /** The base case of `RemoveFirstIsIndexRemoval`: removing the last entry. */
  lemma RemoveLastIndex(s: seq<real>, gone: set<int>)
    requires |s| > 0 && |s| - 1 !in gone && Distinct(s)
    ensures RemoveFirst(KeepIndices(s, gone), s[|s| - 1]) == KeepIndices(s, gone + {|s| - 1})
  {
    var n := |s| - 1;
    var init := s[..n];
    assert KeepIndices(s, gone) == KeepIndices(init, gone) + [s[n]];
    assert KeepIndices(s, gone + {n}) == KeepIndices(init, gone + {n});
    assert s[n] !in init;
    RemoveFirstAppend(KeepIndices(init, gone), [s[n]], s[n]);
    assert RemoveFirst([s[n]], s[n]) == [];
    KeepIndicesSame(init, gone, gone + {n});
  }

  /** Indices beyond the sequence do not matter. */
  lemma {:induction false} KeepIndicesSame(s: seq<real>, a: set<int>, b: set<int>)
    requires forall t :: 0 <= t < |s| ==> (t in a <==> t in b)
    ensures KeepIndices(s, a) == KeepIndices(s, b)
  {
    if s != [] {
      KeepIndicesSame(s[..|s| - 1], a, b);
    }
  }

  /** Dropping every index drops everything. */
  lemma {:induction false} KeepIndicesNone(s: seq<real>, gone: set<int>)
    requires forall t :: 0 <= t < |s| ==> t in gone
    ensures KeepIndices(s, gone) == []
  {
    if s != [] {
      KeepIndicesNone(s[..|s| - 1], gone);
    }
  }

  /** Indices from `hi` on that are all dropped can be cut off first. */
  lemma {:induction false} KeepIndicesTail(s: seq<real>, gone: set<int>, hi: nat)
    requires hi <= |s| && forall t :: hi <= t < |s| ==> t in gone
    ensures KeepIndices(s, gone) == KeepIndices(s[..hi], gone)
  {
    if |s| > hi {
      var n := |s| - 1;
      assert n in gone;
      assert KeepIndices(s, gone) == KeepIndices(s[..n], gone);
      KeepIndicesTail(s[..n], gone, hi);
      assert s[..n][..hi] == s[..hi];
    } else {
      assert s[..hi] == s;
    }
  }

  /** Dropping exactly the indices below `lo` keeps the suffix `s[lo..]`. */
  lemma {:induction false} KeepIndicesFrom(s: seq<real>, gone: set<int>, lo: nat)
    requires lo <= |s| && forall t :: 0 <= t < |s| ==> (t in gone <==> t < lo)
    ensures KeepIndices(s, gone) == s[lo..]
  {
    if |s| == lo {
      KeepIndicesNone(s, gone);
    } else {
      var n := |s| - 1;
      KeepIndicesFrom(s[..n], gone, lo);
      assert s[..n][lo..] + [s[n]] == s[lo..];
    }
  }

  /** Keeping the indices of a band `[lo, hi)` keeps the slice `s[lo..hi]`. */
  lemma KeepIndicesBand(s: seq<real>, gone: set<int>, lo: nat, hi: nat)
    requires lo <= hi <= |s|
    requires forall t :: 0 <= t < |s| ==> (t in gone <==> t < lo || hi <= t)
    ensures KeepIndices(s, gone) == s[lo..hi]
  {
    KeepIndicesTail(s, gone, hi);
    KeepIndicesFrom(s[..hi], gone, lo);
    assert s[..hi][lo..] == s[lo..hi];
  }

  /** The values at the indices of a sequence, as a set. */
  function Elements(s: seq<int>): set<int> {
    set x | x in s
  }

  /** One step of the removal loop, on an axis without repeated values. */
  lemma RemoveStep(axis: seq<real>, gone: set<int>, i: int)
    requires Distinct(axis) && 0 <= i < |axis|
    ensures var kept := KeepIndices(axis, gone);
      (if axis[i] in kept then RemoveFirst(kept, axis[i]) else kept) == KeepIndices(axis, gone + {i})
  {
    KeepIndicesHas(axis, gone, i);
    if i in gone {
      assert gone + {i} == gone;
    } else {
      RemoveFirstIsIndexRemoval(axis, gone, i);
    }
  }

  /** The removal loop of `_remove_blank_frame` in `poets/grid/grids.py`:
      start from the whole axis and remove, for each
      collected index, the value found there, if it is still present. */
  method RemoveListed(axis: seq<real>, del: seq<int>) returns (kept: seq<real>)
    requires forall t :: 0 <= t < |del| ==> 0 <= del[t] < |axis|
    ensures Distinct(axis) ==> kept == KeepIndices(axis, Elements(del))
  {
    kept := axis;
    assert Elements(del[..0]) == {};
    KeepIndicesBand(axis, {}, 0, |axis|);
    var t := 0;
    while t < |del|
      invariant 0 <= t <= |del|
      invariant Distinct(axis) ==> kept == KeepIndices(axis, Elements(del[..t]))
    {
      var i := del[t];
      assert Elements(del[..t + 1]) == Elements(del[..t]) + {i} by {
        assert del[..t + 1] == del[..t] + [i];
      }
      if Distinct(axis) {
        RemoveStep(axis, Elements(del[..t]), i);
      }
      if axis[i] in kept {
        kept := RemoveFirst(kept, axis[i]);
      }
      t := t + 1;
    }
    assert del[..|del|] == del;
  }

  /** `_remove_blank_frame`: the trimmed longitude and latitude axes.
      Both scans of each axis test against the full, untrimmed other axis. */
  method RemoveBlankFrame(lons: seq<real>, lats: seq<real>, within: (real, real) -> bool)
    returns (lonNew: seq<real>, latNew: seq<real>)
    ensures Distinct(lons) ==> lonNew == TrimAxis(lons, lats, within)
    ensures Distinct(lats) ==> latNew == TrimAxis(lats, lons, Transposed(within))
  {
    var delLons := ScanDeletions(lons, lats, within);
    var delLats := ScanDeletions(lats, lons, Transposed(within));
    DeletedInRange(lons, lats, within);
    DeletedInRange(lats, lons, Transposed(within));
    lonNew := RemoveListed(lons, delLons);
    latNew := RemoveListed(lats, delLats);
    KeepDeletedIsTrim(lons, lats, within);
    KeepDeletedIsTrim(lats, lons, Transposed(within));
  }

  lemma DeletedInRange(axis: seq<real>, other: seq<real>, inside: (real, real) -> bool)
    ensures forall t :: 0 <= t < |Deleted(axis, other, inside)| ==> 0 <= Deleted(axis, other, inside)[t] < |axis|
  {
  }

  /** The collected indices form the frame `[0, lo) + [n - hi, n)`, so
      keeping the others keeps the slice between them. */
  lemma KeepDeletedIsTrim(axis: seq<real>, other: seq<real>, inside: (real, real) -> bool)
    ensures KeepIndices(axis, Elements(Deleted(axis, other, inside))) == TrimAxis(axis, other, inside)
  {
    var n := |axis|;
    var lo := LowTrim(axis, other, inside);
    var hi := HighTrim(axis, other, inside);
    var d := Deleted(axis, other, inside);
    var gone := Elements(d);
    forall t | 0 <= t < n
      ensures t in gone <==> t < lo || n - hi <= t
    {
      if t < lo {
        assert d[t] == t;
      } else if n - hi <= t {
        assert d[lo + (n - 1 - t)] == t;
        assert d[lo + (n - 1 - t)] in d;
      }
    }
    KeepIndicesBand(axis, gone, lo, n - hi);
  }
}

/** What the trimming of one axis guarantees. */
module TrimmingProperties {
  import opened Common
  import opened Trimming

  /** Each scan stays within its half of the axis, deletes only blank lines
      and stops at the first line with a point inside: the line where it
      stopped is kept. */
  lemma TrimStopRule(axis: seq<real>, other: seq<real>, inside: (real, real) -> bool)
    ensures var n := |axis|; var lo := LowTrim(axis, other, inside); var hi := HighTrim(axis, other, inside);
      && lo <= n / 2 && hi <= n / 2
      && (forall k :: 0 <= k < lo ==> BlankLine(axis[k], other, inside))
      && (lo < n / 2 ==> !BlankLine(axis[lo], other, inside))
      && (forall k :: n - hi <= k < n ==> BlankLine(axis[k], other, inside))
      && (hi < n / 2 ==> !BlankLine(axis[n - 1 - hi], other, inside))
  {
  }

  /** Every collected index names a line with no point inside, checked
      against the whole orthogonal axis. */
  lemma DeletedAreBlank(axis: seq<real>, other: seq<real>, inside: (real, real) -> bool)
    ensures forall t :: 0 <= t < |Deleted(axis, other, inside)| ==>
      0 <= Deleted(axis, other, inside)[t] < |axis|
      && BlankLine(axis[Deleted(axis, other, inside)[t]], other, inside)
  {
  }

  /** The low scan deletes only indices below `n / 2` and the high scan only
      indices from `n - n / 2` on, so no index is collected twice and the
      trimmed axis loses exactly the collected lines. */
  lemma FrameSidesDisjoint(axis: seq<real>, other: seq<real>, inside: (real, real) -> bool)
    ensures var n := |axis|; var lo := LowTrim(axis, other, inside); var d := Deleted(axis, other, inside);
      && (forall t :: 0 <= t < lo ==> d[t] < n / 2)
      && (forall t :: lo <= t < |d| ==> n - n / 2 <= d[t])
      && Distinct(d)
      && |TrimAxis(axis, other, inside)| == n - |d|
  {
  }

  /** A line with a point inside always survives, wherever it lies; only
      the outer blank lines are removed. */
  lemma InsideLineSurvives(axis: seq<real>, other: seq<real>, inside: (real, real) -> bool, k: int, j: int)
    requires 0 <= k < |axis| && 0 <= j < |other| && inside(axis[k], other[j])
    ensures LowTrim(axis, other, inside) <= k < |axis| - HighTrim(axis, other, inside)
    ensures TrimAxis(axis, other, inside)[k - LowTrim(axis, other, inside)] == axis[k]
  {
    assert !BlankLine(axis[k], other, inside);
  }

  /** With an odd number of lines the middle one is never removed. */
  lemma OddMiddleSurvives(axis: seq<real>, other: seq<real>, inside: (real, real) -> bool)
    requires |axis| % 2 == 1
    ensures LowTrim(axis, other, inside) <= |axis| / 2 < |axis| - HighTrim(axis, other, inside)
    ensures axis[|axis| / 2] in TrimAxis(axis, other, inside)
  {
    assert TrimAxis(axis, other, inside)[|axis| / 2 - LowTrim(axis, other, inside)] == axis[|axis| / 2];
  }

  /** A scan over lines that are all blank runs to its cap. */
  lemma {:induction false} LowScanAllBlank(axis: seq<real>, other: seq<real>, inside: (real, real) -> bool, i: nat, cap: nat)
    requires i <= cap <= |axis|
    requires forall k :: 0 <= k < |axis| ==> BlankLine(axis[k], other, inside)
    ensures LowScan(axis, other, inside, i, cap) == cap
    decreases cap - i
  {
    if i < cap {
      LowScanAllBlank(axis, other, inside, i + 1, cap);
    }
  }

  lemma {:induction false} HighScanAllBlank(axis: seq<real>, other: seq<real>, inside: (real, real) -> bool, i: nat, cap: nat)
    requires i <= cap <= |axis|
    requires forall k :: 0 <= k < |axis| ==> BlankLine(axis[k], other, inside)
    ensures HighScan(axis, other, inside, i, cap) == cap
    decreases cap - i
  {
    if i < cap {
      HighScanAllBlank(axis, other, inside, i + 1, cap);
    }
  }

  /** With an even number of lines, all of them blank, both scans run to
      the middle and nothing is left: no check prevents an empty axis. */
  lemma EvenAllBlankEmpties(axis: seq<real>, other: seq<real>, inside: (real, real) -> bool)
    requires |axis| % 2 == 0
    requires forall k :: 0 <= k < |axis| ==> BlankLine(axis[k], other, inside)
    ensures TrimAxis(axis, other, inside) == []
  {
    LowScanAllBlank(axis, other, inside, 0, |axis| / 2);
    HighScanAllBlank(axis, other, inside, 0, |axis| / 2);
  }

  /** `crossed` is `inside` with its arguments swapped. */
  ghost predicate Swapped(inside: (real, real) -> bool, crossed: (real, real) -> bool) {
    forall x: real, y: real :: crossed(x, y) == inside(y, x)
  }

  /** An axis whose first and last lines both hold a point inside, and
      which has at least two lines, loses nothing to trimming. */
  lemma EndsNotBlankKeepsAll(axis: seq<real>, other: seq<real>, inside: (real, real) -> bool)
    requires |axis| >= 2
    requires !BlankLine(axis[0], other, inside) && !BlankLine(axis[|axis| - 1], other, inside)
    ensures TrimAxis(axis, other, inside) == axis
  {
    assert axis[0 .. |axis|] == axis;
  }

  /** A kept line `k` with a point inside at `other[j]` still has one after
      both axes are trimmed. */
  lemma KeptLineNotBlank(axis: seq<real>, other: seq<real>, inside: (real, real) -> bool,
                          crossed: (real, real) -> bool, k: int, j: int)
    requires Swapped(inside, crossed)
    requires 0 <= k < |axis| && 0 <= j < |other| && inside(axis[k], other[j])
    ensures var axisNew := TrimAxis(axis, other, inside);
      var otherNew := TrimAxis(other, axis, crossed);
      0 <= k - LowTrim(axis, other, inside) < |axisNew|
      && !BlankLine(axisNew[k - LowTrim(axis, other, inside)], otherNew, inside)
  {
    var a, b := axis[k], other[j];
    assert crossed(b, a) == inside(a, b);
    InsideLineSurvives(axis, other, inside, k, j);
    InsideLineSurvives(other, axis, crossed, j, k);
    var otherNew := TrimAxis(other, axis, crossed);
    assert inside(axis[k], otherNew[j - LowTrim(other, axis, crossed)]);
  }

  /** One axis of a second trimming pass: when both scans of `axis` in the
      first pass stopped at a line with a point inside rather than at the
      middle, the second pass removes nothing from it. */
  lemma TrimAgainKeepsAxis(axis: seq<real>, other: seq<real>, inside: (real, real) -> bool,
                            crossed: (real, real) -> bool)
    requires Swapped(inside, crossed)
    requires LowTrim(axis, other, inside) < |axis| / 2 && HighTrim(axis, other, inside) < |axis| / 2
    ensures var axisNew := TrimAxis(axis, other, inside);
      TrimAxis(axisNew, TrimAxis(other, axis, crossed), inside) == axisNew
  {
    var n := |axis|;
    var lo := LowTrim(axis, other, inside);
    var hi := HighTrim(axis, other, inside);
    assert !BlankLine(axis[lo], other, inside) && !BlankLine(axis[n - 1 - hi], other, inside);
    var j :| 0 <= j < |other| && inside(axis[lo], other[j]);
    var j' :| 0 <= j' < |other| && inside(axis[n - 1 - hi], other[j']);
    KeptLineNotBlank(axis, other, inside, crossed, lo, j);
    KeptLineNotBlank(axis, other, inside, crossed, n - 1 - hi, j');
    EndsNotBlankKeepsAll(TrimAxis(axis, other, inside), TrimAxis(other, axis, crossed), inside);
  }

  /** Trimming twice removes nothing more when every scan of the first
      pass, on both axes, stopped at a line with a point inside rather than
      at the middle. */
  lemma TrimTwiceWhenUncapped(lons: seq<real>, lats: seq<real>, within: (real, real) -> bool)
    requires LowTrim(lons, lats, within) < |lons| / 2 && HighTrim(lons, lats, within) < |lons| / 2
    requires var w := Transposed(within);
      LowTrim(lats, lons, w) < |lats| / 2 && HighTrim(lats, lons, w) < |lats| / 2
    ensures var lonNew := TrimAxis(lons, lats, within);
      var latNew := TrimAxis(lats, lons, Transposed(within));
      TrimAxis(lonNew, latNew, within) == lonNew && TrimAxis(latNew, lonNew, Transposed(within)) == latNew
  {
    assert Swapped(within, Transposed(within)) && Swapped(Transposed(within), within);
    TrimAgainKeepsAxis(lons, lats, within, Transposed(within));
    TrimAgainKeepsAxis(lats, lons, Transposed(within), within);
  }

  /** Inside points of the counterexample: longitude 4 and above. */
  predicate EastOfFour(lon: real, lat: real) {
    lon >= 4.0
  }

  lemma FirstPassOnSix()
    ensures TrimAxis([0.0, 1.0, 2.0, 3.0, 4.0, 5.0], [0.0], EastOfFour) == [3.0, 4.0, 5.0]
  {
    var lons := [0.0, 1.0, 2.0, 3.0, 4.0, 5.0];
    assert !BlankLine(lons[5], [0.0], EastOfFour) by {
      assert EastOfFour(lons[5], [0.0][0]);
    }
    assert HighTrim(lons, [0.0], EastOfFour) == 0;
    assert LowTrim(lons, [0.0], EastOfFour) == 3;
  }

  lemma SecondPassOnThree()
    ensures TrimAxis([3.0, 4.0, 5.0], [0.0], EastOfFour) == [4.0, 5.0]
  {
    var lons := [3.0, 4.0, 5.0];
    assert !BlankLine(lons[2], [0.0], EastOfFour) by {
      assert EastOfFour(lons[2], [0.0][0]);
    }
    assert HighTrim(lons, [0.0], EastOfFour) == 0;
    assert LowTrim(lons, [0.0], EastOfFour) == 1;
  }

  /** When a scan is stopped by the middle rather than by a line with a
      point inside, a second pass can remove more: trimming is not
      idempotent. Six longitudes, one latitude, inside points only at
      longitudes 4 and 5. */
  lemma TrimTwiceCanRemoveMore()
    ensures var lons := [0.0, 1.0, 2.0, 3.0, 4.0, 5.0];
      var lats := [0.0];
      var lonNew := TrimAxis(lons, lats, EastOfFour);
      var latNew := TrimAxis(lats, lons, Transposed(EastOfFour));
      lonNew == [3.0, 4.0, 5.0] && latNew == [0.0] && TrimAxis(lonNew, latNew, EastOfFour) != lonNew
  {
    FirstPassOnSix();
    SecondPassOnThree();
  }
}
