/**
 * The Hadley-cell boundary detector of meteorology/hadley_cell_bounds.py, after the
 * method of Stachnik and Schumacher (2011): the boundaries are the zero crossings of
 * the 700-400 hPa mean stream function that lie just poleward of the northern maximum
 * and the southern minimum of the stream function, both at pressures of at most
 * 800 hPa (p <= 8e4 Pa).
 */
module HadleyCell {
  import opened Common
  import opened ArrayOps
  import opened StreamFunction

  // ---------------------------------------------------------------- zero_cross (lines 14-21)

  /** `range(x.size - 1)` has this many steps: one per pair of adjacent samples. */
  function PairCount(x: seq<real>): nat
  {
    if |x| == 0 then 0 else |x| - 1
  }

  /** Strictly opposite signs; a zero on either side is not a sign change. */
  predicate SignChange(a: real, b: real)
  {
    (a > 0.0 && b < 0.0) || (a < 0.0 && b > 0.0)
  }

  /** What the loop appends for the pair (i, i+1), if anything. */
  function CrossAt(x: seq<real>, y: seq<real>, i: nat): (c: Option<real>)
    requires i + 1 < |x| && |x| <= |y|
    ensures c.None? <==> y[i] != 0.0 && !SignChange(y[i], y[i + 1])
  {
    if y[i] == 0.0 then Some(x[i])
    else if SignChange(y[i], y[i + 1]) then Some(x[i] - y[i] * (x[i + 1] - x[i]) / (y[i + 1] - y[i]))
    else None
  }

  function Emit(c: Option<real>): seq<real>
  {
    if c.Some? then [c.value] else []
  }

  /** The list `cross` after the first `n` steps of the loop. */
  function CrossingsUpTo(x: seq<real>, y: seq<real>, n: nat): (cross: seq<real>)
    requires n <= PairCount(x) && |x| <= |y|
    ensures |cross| <= n
  {
    if n == 0 then [] else CrossingsUpTo(x, y, n - 1) + Emit(CrossAt(x, y, n - 1))
  }

  /** The list `zero_cross(x, y)` returns. */
  function Crossings(x: seq<real>, y: seq<real>): (cross: seq<real>)
    requires |x| <= |y|
    ensures |cross| <= PairCount(x)
  {
    CrossingsUpTo(x, y, PairCount(x))
  }

  /** `zero_cross`: one pass over the adjacent pairs, appending a crossing for each qualifying pair. */
  method ZeroCross(x: seq<real>, y: seq<real>) returns (cross: seq<real>)
    requires |x| <= |y|
    ensures cross == Crossings(x, y)
  {
    cross := [];
    var i := 0;
    while i < PairCount(x)
      invariant i <= PairCount(x)
      invariant cross == CrossingsUpTo(x, y, i)
    {
      if y[i] == 0.0 {
        cross := cross + [x[i]];
      } else if (y[i] > 0.0 && y[i + 1] < 0.0) || (y[i] < 0.0 && y[i + 1] > 0.0) {
        cross := cross + [x[i] - y[i] * (x[i + 1] - x[i]) / (y[i + 1] - y[i])];
      }
      i := i + 1;
    }
  }

  /** The pair indices, among the first `n`, for which the loop appends a value, in loop order. */
  function CrossIndices(x: seq<real>, y: seq<real>, n: nat): (ix: seq<nat>)
    requires n <= PairCount(x) && |x| <= |y|
    ensures |ix| <= n
    ensures forall k :: 0 <= k < |ix| ==> ix[k] < n && CrossAt(x, y, ix[k]).Some?
    ensures forall k, l :: 0 <= k < l < |ix| ==> ix[k] < ix[l]
    ensures forall i :: 0 <= i < n && CrossAt(x, y, i).Some? ==> i in ix
  {
    if n == 0 then []
    else CrossIndices(x, y, n - 1) + (if CrossAt(x, y, n - 1).Some? then [n - 1] else [])
  }

  /**
   * The k-th emitted value is the crossing of the k-th qualifying pair: the output
   * follows the pairs in increasing index order, one value per qualifying pair.
   */
  lemma {:induction false} CrossingsAtIndices(x: seq<real>, y: seq<real>, n: nat)
    requires n <= PairCount(x) && |x| <= |y|
    ensures |CrossingsUpTo(x, y, n)| == |CrossIndices(x, y, n)|
    ensures forall k :: 0 <= k < |CrossIndices(x, y, n)| ==>
      CrossingsUpTo(x, y, n)[k] == CrossAt(x, y, CrossIndices(x, y, n)[k]).value
  {
    if n > 0 {
      CrossingsAtIndices(x, y, n - 1);
    }
  }

  /** The interpolation formula of line 20 on one pair with a strict sign change. */
  lemma InterpolantVanishes(x0: real, x1: real, y0: real, y1: real, c: real)
    requires SignChange(y0, y1) && c == x0 - y0 * (x1 - x0) / (y1 - y0)
    ensures y0 * (x1 - c) + y1 * (c - x0) == 0.0
    ensures x0 < x1 ==> x0 < c < x1
    ensures x1 < x0 ==> x1 < c < x0
    ensures x0 == x1 ==> c == x0
  {
    var dx := x1 - x0;
    var q := y0 * dx / (y1 - y0);
    var t := y0 / (y0 - y1);
    assert 0.0 < t < 1.0;
    assert q == -(t * dx);
    assert c == x0 - q;
    assert c == x0 + t * dx;
    assert y0 * (x1 - c) + y1 * (c - x0) == 0.0 by {
      assert x1 - c == (1.0 - t) * dx;
      assert c - x0 == t * dx;
      assert t * (y0 - y1) == y0;
    }
    assert x1 - c == (1.0 - t) * dx;
    if x0 < x1 {
      assert 0.0 < t * dx && 0.0 < (1.0 - t) * dx;
      assert x0 < c < x1;
    } else if x1 < x0 {
      assert t * dx < 0.0 && (1.0 - t) * dx < 0.0;
      assert x1 < c < x0;
    }
  }

  /**
   * Lines 17-20 on one pair: a zero sample emits its own coordinate; otherwise a strict
   * sign change emits the point strictly between the two coordinates where the straight
   * line through the two samples vanishes; any other pair emits nothing.
   */
  lemma CrossAtMeaning(x: seq<real>, y: seq<real>, i: nat)
    requires i + 1 < |x| && |x| <= |y|
    ensures y[i] == 0.0 ==> CrossAt(x, y, i) == Some(x[i])
    ensures y[i] != 0.0 && SignChange(y[i], y[i + 1]) ==>
      var c := CrossAt(x, y, i).value;
      y[i] * (x[i + 1] - c) + y[i + 1] * (c - x[i]) == 0.0 &&
      (x[i] < x[i + 1] ==> x[i] < c < x[i + 1]) &&
      (x[i + 1] < x[i] ==> x[i + 1] < c < x[i]) &&
      (x[i] == x[i + 1] ==> c == x[i])
  {
    if y[i] != 0.0 && SignChange(y[i], y[i + 1]) {
      var c := CrossAt(x, y, i).value;
      assert c == x[i] - y[i] * (x[i + 1] - x[i]) / (y[i + 1] - y[i]);
      InterpolantVanishes(x[i], x[i + 1], y[i], y[i + 1], c);
    }
  }

  /** The list is empty exactly when no pair has a zero first sample or a strict sign change. */
  lemma {:induction false} NoCrossingsUpTo(x: seq<real>, y: seq<real>, n: nat)
    requires n <= PairCount(x) && |x| <= |y|
    ensures CrossingsUpTo(x, y, n) == [] <==>
      forall i :: 0 <= i < n ==> y[i] != 0.0 && !SignChange(y[i], y[i + 1])
  {
    if n > 0 {
      NoCrossingsUpTo(x, y, n - 1);
    }
  }

  lemma NoCrossingsIff(x: seq<real>, y: seq<real>)
    requires |x| <= |y|
    ensures Crossings(x, y) == [] <==>
      forall i :: 0 <= i < PairCount(x) ==> y[i] != 0.0 && !SignChange(y[i], y[i + 1])
  {
    NoCrossingsUpTo(x, y, PairCount(x));
  }

  /**
   * The loop never looks at the last sample on its own: a zero there, after a non-zero
   * sample, adds nothing, so the result is that of the loop stopped one pair earlier.
   */
  lemma FinalZeroNotEmitted(x: seq<real>, y: seq<real>)
    requires 2 <= |x| <= |y|
    requires y[|x| - 1] == 0.0 && y[|x| - 2] != 0.0
    ensures CrossAt(x, y, |x| - 2) == None
    ensures Crossings(x, y) == CrossingsUpTo(x, y, |x| - 2)
  {
  }

  // ---------------------------------------------------------------- pressure bands and hemispheres (lines 116-128)

  /** Line 116: the 700-400 hPa band, in Pa. */
  predicate IsMidBand(p: real)
  {
    40000.0 <= p <= 70000.0
  }

  /** Line 117: at a pressure of at most 800 hPa (p <= 8e4 Pa). */
  predicate IsLowBand(p: real)
  {
    p <= 80000.0
  }

  /** Line 123. */
  predicate IsNorth(lat: real)
  {
    lat > 0.0
  }

  /** Line 124: the equator counts as southern. */
  predicate IsSouth(lat: real)
  {
    lat <= 0.0
  }

  /** `numpy.where` finds exactly the indices whose entry passes the test. */
  lemma WhereMembers(s: seq<real>, keep: real -> bool)
    ensures forall i: nat :: i in Where(s, keep) <==> i < |s| && keep(s[i])
  {
  }

  /** An index list is empty exactly when no entry passes the test (the checks of lines 118-128). */
  lemma WhereEmpty(s: seq<real>, keep: real -> bool)
    ensures |Where(s, keep)| == 0 <==> forall i :: 0 <= i < |s| ==> !keep(s[i])
  {
    WhereMembers(s, keep);
  }

  /**
   * Lines 116-121: every pressure of the 700-400 hPa band is also at most 800 hPa
   * (p <= 8e4 Pa), so once the first band is non-empty the second check cannot fail.
   */
  lemma MidBandInLowBand(p: seq<real>)
    ensures forall i: nat :: i in Where(p, IsMidBand) ==> i in Where(p, IsLowBand)
    ensures |Where(p, IsMidBand)| > 0 ==> |Where(p, IsLowBand)| > 0
  {
    WhereMembers(p, IsMidBand);
    WhereMembers(p, IsLowBand);
    var w := Where(p, IsMidBand);
    if |w| > 0 {
      assert w[0] in Where(p, IsLowBand);
    }
  }

  /** Lines 123-124: every latitude index is in exactly one hemisphere, so the two counts add up. */
  lemma {:induction false} HemispheresPartition(lat: seq<real>)
    ensures forall i: nat :: i < |lat| ==> (i in Where(lat, IsNorth) <==> i !in Where(lat, IsSouth))
    ensures |Where(lat, IsNorth)| + |Where(lat, IsSouth)| == |lat|
    decreases |lat|
  {
    WhereMembers(lat, IsNorth);
    WhereMembers(lat, IsSouth);
    if |lat| > 0 {
      HemispheresPartition(lat[..|lat| - 1]);
    }
  }

  // ---------------------------------------------------------------- the critical latitudes (lines 130-140)

  /** The strictly increasing index lists `numpy.where` returns. */
  predicate Increasing(ix: seq<nat>)
  {
    forall k, l :: 0 <= k < l < |ix| ==> ix[k] < ix[l]
  }

  predicate Below(ix: seq<nat>, n: nat)
  {
    forall k :: 0 <= k < |ix| ==> ix[k] < n
  }

  /** In an increasing list, the order of the entries is the order of their positions. */
  lemma IncreasingOrder(ix: seq<nat>, k: nat, l: nat)
    requires Increasing(ix) && k < |ix| && l < |ix| && ix[k] < ix[l]
    ensures k < l
  {
  }

  /**
   * Lines 130-134 for the maximum: `psi[rows, :][:, cols].argmax()` unravelled and taken
   * back to indices of `psi`. The cell holds the maximum over the selected rows and
   * columns, and every selected cell before it in row-major order is strictly smaller
   * (numpy returns the first maximum).
   */
  function MaxCellOver(psi: Grid, nrows: nat, ncols: nat, rows: seq<nat>, cols: seq<nat>): (c: Cell)
    requires IsMatrix(psi, nrows, ncols) && |rows| > 0 && |cols| > 0
    requires Below(rows, nrows) && Below(cols, ncols) && Increasing(rows) && Increasing(cols)
    ensures c.row in rows && c.col in cols
    ensures forall a, b :: a in rows && b in cols ==> psi[a][b] <= psi[c.row][c.col]
    ensures forall a, b :: a in rows && b in cols && (a < c.row || (a == c.row && b < c.col)) ==>
      psi[a][b] < psi[c.row][c.col]
  {
    var sub := SubGrid(psi, ncols, rows, cols);
    var m := ArgMaxCell(sub, |rows|, |cols|);
    var c := Cell(rows[m.row], cols[m.col]);
    assert forall a, b :: a in rows && b in cols && (a < c.row || (a == c.row && b < c.col)) ==>
      psi[a][b] < psi[c.row][c.col] by {
      forall a, b | a in rows && b in cols && (a < c.row || (a == c.row && b < c.col))
        ensures psi[a][b] < psi[c.row][c.col]
      {
        var k :| 0 <= k < |rows| && rows[k] == a;
        var l :| 0 <= l < |cols| && cols[l] == b;
        if a < c.row {
          IncreasingOrder(rows, k, m.row);
        } else {
          IncreasingOrder(cols, l, m.col);
        }
        assert sub[k][l] < sub[m.row][m.col];
      }
    }
    c
  }

  /** The same for `argmin`: the first minimum in row-major order. */
  function MinCellOver(psi: Grid, nrows: nat, ncols: nat, rows: seq<nat>, cols: seq<nat>): (c: Cell)
    requires IsMatrix(psi, nrows, ncols) && |rows| > 0 && |cols| > 0
    requires Below(rows, nrows) && Below(cols, ncols) && Increasing(rows) && Increasing(cols)
    ensures c.row in rows && c.col in cols
    ensures forall a, b :: a in rows && b in cols ==> psi[c.row][c.col] <= psi[a][b]
    ensures forall a, b :: a in rows && b in cols && (a < c.row || (a == c.row && b < c.col)) ==>
      psi[c.row][c.col] < psi[a][b]
  {
    var sub := SubGrid(psi, ncols, rows, cols);
    var m := ArgMinCell(sub, |rows|, |cols|);
    var c := Cell(rows[m.row], cols[m.col]);
    assert forall a, b :: a in rows && b in cols && (a < c.row || (a == c.row && b < c.col)) ==>
      psi[c.row][c.col] < psi[a][b] by {
      forall a, b | a in rows && b in cols && (a < c.row || (a == c.row && b < c.col))
        ensures psi[c.row][c.col] < psi[a][b]
      {
        var k :| 0 <= k < |rows| && rows[k] == a;
        var l :| 0 <= l < |cols| && cols[l] == b;
        if a < c.row {
          IncreasingOrder(rows, k, m.row);
        } else {
          IncreasingOrder(cols, l, m.col);
        }
        assert sub[m.row][m.col] < sub[k][l];
      }
    }
    c
  }

  /** Both the 700-400 hPa band and the two hemispheres are non-empty: the checks of lines 118-128 pass. */
  predicate Selectable(p: seq<real>, lat: seq<real>)
  {
    |Where(p, IsMidBand)| > 0 && |Where(lat, IsNorth)| > 0 && |Where(lat, IsSouth)| > 0
  }

  /**
   * Lines 132-139 for the north: the (pressure, latitude) cell at a pressure of at most
   * 800 hPa (p <= 8e4 Pa) and north of the equator where the stream function is largest,
   * the first such in row-major order. `psi_N_star` is its latitude and `p_N_star` its pressure.
   */
  function NorthPeak(psi: Grid, p: seq<real>, lat: seq<real>): (c: Cell)
    requires IsMatrix(psi, |p|, |lat|) && Selectable(p, lat)
    ensures c.row < |p| && c.col < |lat| && IsLowBand(p[c.row]) && IsNorth(lat[c.col])
    ensures forall a, b :: 0 <= a < |p| && 0 <= b < |lat| && IsLowBand(p[a]) && IsNorth(lat[b]) ==>
      psi[a][b] <= psi[c.row][c.col]
    ensures forall a, b ::
      (0 <= a < |p| && 0 <= b < |lat| && IsLowBand(p[a]) && IsNorth(lat[b]) &&
       (a < c.row || (a == c.row && b < c.col))) ==> psi[a][b] < psi[c.row][c.col]
  {
    MidBandInLowBand(p);
    WhereMembers(p, IsLowBand);
    WhereMembers(lat, IsNorth);
    MaxCellOver(psi, |p|, |lat|, Where(p, IsLowBand), Where(lat, IsNorth))
  }

  /** Lines 131-140 for the south: the first cell of the minimum, at a pressure of at most 800 hPa (p <= 8e4 Pa) and at or south of the equator. */
  function SouthTrough(psi: Grid, p: seq<real>, lat: seq<real>): (c: Cell)
    requires IsMatrix(psi, |p|, |lat|) && Selectable(p, lat)
    ensures c.row < |p| && c.col < |lat| && IsLowBand(p[c.row]) && IsSouth(lat[c.col])
    ensures forall a, b :: 0 <= a < |p| && 0 <= b < |lat| && IsLowBand(p[a]) && IsSouth(lat[b]) ==>
      psi[c.row][c.col] <= psi[a][b]
    ensures forall a, b ::
      (0 <= a < |p| && 0 <= b < |lat| && IsLowBand(p[a]) && IsSouth(lat[b]) &&
       (a < c.row || (a == c.row && b < c.col))) ==> psi[c.row][c.col] < psi[a][b]
  {
    MidBandInLowBand(p);
    WhereMembers(p, IsLowBand);
    WhereMembers(lat, IsSouth);
    MinCellOver(psi, |p|, |lat|, Where(p, IsLowBand), Where(lat, IsSouth))
  }

  // ---------------------------------------------------------------- band mean and crossing selection (lines 142-149)

  /** Line 142: `numpy.nanmean(psi[rows, :], axis=0)`, the mean of each column over the selected rows. */
  function BandMean(psi: Grid, cols: nat, rows: seq<nat>): (m: seq<real>)
    requires IsMatrix(psi, |psi|, cols) && |rows| > 0 && Below(rows, |psi|)
    ensures |m| == cols
  {
    seq(cols, j requires 0 <= j < cols => Mean(seq(|rows|, a requires 0 <= a < |rows| => psi[rows[a]][j])))
  }

  /** Each column's band mean lies within the range of that column's selected values. */
  lemma BandMeanBounds(psi: Grid, cols: nat, rows: seq<nat>, j: nat, lo: real, hi: real)
    requires IsMatrix(psi, |psi|, cols) && |rows| > 0 && Below(rows, |psi|) && j < cols
    requires forall a :: 0 <= a < |rows| ==> lo <= psi[rows[a]][j] <= hi
    ensures lo <= BandMean(psi, cols, rows)[j] <= hi
  {
    var column := seq(|rows|, a requires 0 <= a < |rows| => psi[rows[a]][j]);
    MeanBounds(column, lo, hi);
  }

  /** Line 143: the crossings are reversed when the first exceeds the last. */
  function Normalize(cross: seq<real>): (r: seq<real>)
    requires |cross| > 0
    ensures |r| == |cross| && r[0] <= r[|r| - 1]
    ensures r == cross || r == Reverse(cross)
    ensures cross[0] <= cross[|cross| - 1] ==> r == cross
  {
    if cross[0] > cross[|cross| - 1] then Reverse(cross) else cross
  }

  /** Normalising only reorders: the crossings found are the crossings kept. */
  lemma NormalizeMembers(cross: seq<real>)
    requires |cross| > 0
    ensures forall v :: v in Normalize(cross) <==> v in cross
  {
    ReverseMembers(cross);
  }

  lemma NormalizeIdempotent(cross: seq<real>)
    requires |cross| > 0
    ensures Normalize(Normalize(cross)) == Normalize(cross)
  {
  }

  /** The normalised order does not depend on the order the crossings were found in, unless the end points tie. */
  lemma NormalizeOfReversed(cross: seq<real>)
    requires |cross| > 0 && cross[0] != cross[|cross| - 1]
    ensures Normalize(Reverse(cross)) == Normalize(cross)
  {
    ReverseReverse(cross);
  }

  /**
   * Lines 145-146: the first crossing (in list order) beyond `star`, or none (NaN in the
   * program) when no crossing exceeds it.
   */
  function FirstAbove(cross: seq<real>, star: real): (r: Option<real>)
    ensures r.None? <==> forall k :: 0 <= k < |cross| ==> cross[k] <= star
    ensures r.Some? ==>
      exists k :: 0 <= k < |cross| && r.value == cross[k] && star < cross[k] &&
                  forall l :: 0 <= l < k ==> cross[l] <= star
  {
    var w := Where(cross, c => c > star);
    if |w| == 0 then None
    else
      assert forall l :: 0 <= l < w[0] ==> cross[l] <= star;
      Some(cross[w[0]])
  }

  /**
   * Lines 148-149: the last crossing (in list order) before `star`, or none when no
   * crossing is below it.
   */
  function LastBelow(cross: seq<real>, star: real): (r: Option<real>)
    ensures r.None? <==> forall k :: 0 <= k < |cross| ==> star <= cross[k]
    ensures r.Some? ==>
      exists k :: 0 <= k < |cross| && r.value == cross[k] && cross[k] < star &&
                  forall l :: k < l < |cross| ==> star <= cross[l]
  {
    var w := Where(cross, c => c < star);
    if |w| == 0 then None
    else
      var last := w[|w| - 1];
      assert forall l :: last < l < |cross| ==> star <= cross[l];
      Some(cross[last])
  }

  /** The zero crossings of the 700-400 hPa mean stream function, over latitude. */
  function BandCrossings(psi: Grid, p: seq<real>, lat: seq<real>): (cross: seq<real>)
    requires IsMatrix(psi, |p|, |lat|) && |Where(p, IsMidBand)| > 0
    ensures |cross| <= PairCount(lat)
  {
    Crossings(lat, BandMean(psi, |lat|, Where(p, IsMidBand)))
  }

  /**
   * Lines 116-149 as written, on the output of the stream-function step: the northern
   * and southern boundary, each absent when no crossing lies beyond the critical
   * latitude. An empty crossing list fails at `cross[0]` (line 143).
   */
  function BoundsOf(psi: Grid, p: seq<real>, lat: seq<real>): (r: Result<(Option<real>, Option<real>)>)
    requires IsMatrix(psi, |p|, |lat|)
    ensures r == Err(NoMidBand) <==> |Where(p, IsMidBand)| == 0
    ensures r != Err(NoLowBand)
    ensures r == Err(NoNorth) <==> |Where(p, IsMidBand)| > 0 && |Where(lat, IsNorth)| == 0
    ensures r == Err(NoSouth) <==>
      |Where(p, IsMidBand)| > 0 && |Where(lat, IsNorth)| > 0 && |Where(lat, IsSouth)| == 0
    ensures r == Err(NoCrossings) <==> Selectable(p, lat) && BandCrossings(psi, p, lat) == []
    ensures r.Ok? <==> Selectable(p, lat) && BandCrossings(psi, p, lat) != []
    ensures r.Ok? ==>
      var cross := Normalize(BandCrossings(psi, p, lat));
      r.value.0 == FirstAbove(cross, lat[NorthPeak(psi, p, lat).col]) &&
      r.value.1 == LastBelow(cross, lat[SouthTrough(psi, p, lat).col])
  {
    var mid := Where(p, IsMidBand);
    var low := Where(p, IsLowBand);
    MidBandInLowBand(p);
    if |mid| == 0 then Err(NoMidBand)
    else if |low| == 0 then Err(NoLowBand)
    else
      var nid := Where(lat, IsNorth);
      var sid := Where(lat, IsSouth);
      if |nid| == 0 then Err(NoNorth)
      else if |sid| == 0 then Err(NoSouth)
      else
        var nStar := lat[NorthPeak(psi, p, lat).col];
        var sStar := lat[SouthTrough(psi, p, lat).col];
        var cross := BandCrossings(psi, p, lat);
        if |cross| == 0 then Err(NoCrossings)
        else
          var c := Normalize(cross);
          Ok((FirstAbove(c, nStar), LastBelow(c, sStar)))
  }

  /**
   * What a found boundary means: the northern one is a zero crossing strictly poleward
   * of the northern critical latitude, hence north of the equator; the southern one is a
   * crossing strictly south of the southern critical latitude, hence south of the equator.
   */
  lemma BoundsAreCrossings(psi: Grid, p: seq<real>, lat: seq<real>)
    requires IsMatrix(psi, |p|, |lat|)
    ensures var r := BoundsOf(psi, p, lat);
      r.Ok? ==>
        (r.value.0.Some? ==>
          r.value.0.value in BandCrossings(psi, p, lat) &&
          r.value.0.value > lat[NorthPeak(psi, p, lat).col] > 0.0) &&
        (r.value.1.Some? ==>
          r.value.1.value in BandCrossings(psi, p, lat) &&
          r.value.1.value < lat[SouthTrough(psi, p, lat).col] <= 0.0)
  {
    var r := BoundsOf(psi, p, lat);
    if r.Ok? {
      var cross := BandCrossings(psi, p, lat);
      var c := Normalize(cross);
      NormalizeMembers(cross);
      var nStar := lat[NorthPeak(psi, p, lat).col];
      var sStar := lat[SouthTrough(psi, p, lat).col];
      if r.value.0.Some? {
        var k :| 0 <= k < |c| && r.value.0.value == c[k] && nStar < c[k];
        assert c[k] in c;
      }
      if r.value.1.Some? {
        var k :| 0 <= k < |c| && r.value.1.value == c[k] && c[k] < sStar;
        assert c[k] in c;
      }
    }
  }

  /**
   * The evidently intended behaviour (the docstring: "Will be NaN if no boundary found"):
   * without any zero crossing both boundaries are absent instead of the call failing.
   */
  function BoundsOfGuarded(psi: Grid, p: seq<real>, lat: seq<real>): (r: Result<(Option<real>, Option<real>)>)
    requires IsMatrix(psi, |p|, |lat|)
    ensures r != Err(NoCrossings)
    ensures r.Ok? <==> Selectable(p, lat)
    ensures Selectable(p, lat) && BandCrossings(psi, p, lat) == [] ==> r == Ok((None, None))
    ensures BoundsOf(psi, p, lat) != Err(NoCrossings) ==> r == BoundsOf(psi, p, lat)
  {
    var b := BoundsOf(psi, p, lat);
    if b == Err(NoCrossings) then Ok((None, None)) else b
  }

  /** Each column's band mean is positive when the selected values of that column are. */
  lemma BandMeanPositive(psi: Grid, cols: nat, rows: seq<nat>, j: nat)
    requires IsMatrix(psi, |psi|, cols) && |rows| > 0 && Below(rows, |psi|) && j < cols
    requires forall a :: 0 <= a < |rows| ==> psi[rows[a]][j] > 0.0
    ensures BandMean(psi, cols, rows)[j] > 0.0
  {
    var column := seq(|rows|, a requires 0 <= a < |rows| => psi[rows[a]][j]);
    MeanPositive(column);
  }

  /**
   * A stream function that is positive everywhere has no zero crossing in its band mean;
   * as written the detector then fails, while the guarded version reports no boundary.
   */
  lemma PositivePsiFails(psi: Grid, p: seq<real>, lat: seq<real>)
    requires IsMatrix(psi, |p|, |lat|) && Selectable(p, lat)
    requires forall a, b :: 0 <= a < |p| && 0 <= b < |lat| ==> psi[a][b] > 0.0
    ensures BoundsOf(psi, p, lat) == Err(NoCrossings)
    ensures BoundsOfGuarded(psi, p, lat) == Ok((None, None))
  {
    var rows := Where(p, IsMidBand);
    var m := BandMean(psi, |lat|, rows);
    forall j | 0 <= j < |lat| ensures m[j] > 0.0 {
      BandMeanPositive(psi, |lat|, rows, j);
    }
    NoCrossingsIff(lat, m);
    assert BandCrossings(psi, p, lat) == [];
  }

  // ---------------------------------------------------------------- the whole of hadley_cell_bounds.py

  /**
   * `mass_stream_func` of meteorology/hadley_cell_bounds.py (lines 23-83): the engine's
   * result plus the first row of the truncated latitude grid, which fails when that grid
   * has no rows.
   */
  function MassStreamFunc(uu: Field, vv: Field, lat: Coord, lvl: Coord, global: bool,
                          decomposer: Option<Decomposer>, scale: real -> real)
    : (r: Result<(Grid, seq<real>, seq<real>)>)
    requires vv.Valid() && lat.Valid() && lvl.Valid() && DecomposerFits(uu, vv, lat, global, decomposer)
    ensures r == Err(NoDecomposer) <==> !global && decomposer.None?
    ensures r.Ok? ==> IsMatrix(r.value.0, |r.value.1|, |r.value.2|)
    ensures lat.Axis? && |lat.values| == vv.nlat && lvl.Axis? && |lvl.values| == vv.nlvl ==>
      var w := WindToIntegrate(uu, vv, lat, global, decomposer);
      (r.Ok? <==> w.Ok? && vv.nlvl >= 2 && vv.nlat >= 1 && NoMissing(LonMean(w.value.0), vv.nlvl, vv.nlat)) &&
      (r.Ok? ==> |r.value.1| == vv.nlvl - 1 && r.value.2 == w.value.1.values)
  {
    var c := Compute(uu, vv, lat, lvl, global, decomposer, scale);
    assert lat.Axis? && |lat.values| == vv.nlat && lvl.Axis? && |lvl.values| == vv.nlvl ==>
      var w := WindToIntegrate(uu, vv, lat, global, decomposer);
      (c.Ok? <==> w.Ok? && vv.nlvl >= 1 && vv.nlat >= 1 && (vv.nlvl >= 2 ==> NoMissing(LonMean(w.value.0), vv.nlvl, vv.nlat))) &&
      (c.Ok? ==>
        |c.value.p| == vv.nlvl - 1 && |c.value.lat| == vv.nlvl - 1 &&
        forall i :: 0 <= i < vv.nlvl - 1 ==> c.value.lat[i] == w.value.1.values)
    by {
      if lat.Axis? && |lat.values| == vv.nlat && lvl.Axis? && |lvl.values| == vv.nlvl {
        RegularShapes(uu, vv, lat, lvl, global, decomposer, scale);
      }
    }
    match c
    case Err(e) => Err(e)
    case Ok(s) =>
      if |s.lat| == 0 then Err(IndexOutOfRange)
      else Ok((s.psi, s.p, s.lat[0]))
  }

  /** What `hadley_cell_bounds` returns: the two boundaries (absent standing for NaN), psi and p. */
  datatype Bounds = Bounds(north: Option<real>, south: Option<real>, psi: Grid, p: seq<real>)

  /** `hadley_cell_bounds` (lines 85-151), as written. */
  function HadleyCellBounds(uu: Field, vv: Field, latitude: Coord, levels: Coord, global: bool,
                            decomposer: Option<Decomposer>, scale: real -> real): (r: Result<Bounds>)
    requires vv.Valid() && latitude.Valid() && levels.Valid() && DecomposerFits(uu, vv, latitude, global, decomposer)
    ensures r == Err(NoDecomposer) <==> !global && decomposer.None?
    ensures r != Err(NoLowBand)
    ensures r.Ok? ==>
      (r.value.north.Some? ==> r.value.north.value > 0.0) && (r.value.south.Some? ==> r.value.south.value < 0.0)
    ensures var m := MassStreamFunc(uu, vv, latitude, levels, global, decomposer, scale);
      r.Ok? ==>
        m.Ok? && r.value.psi == m.value.0 && r.value.p == m.value.1 && Selectable(m.value.1, m.value.2) &&
        (r.value.north.Some? ==> r.value.north.value in BandCrossings(m.value.0, m.value.1, m.value.2)) &&
        (r.value.south.Some? ==> r.value.south.value in BandCrossings(m.value.0, m.value.1, m.value.2))
  {
    match MassStreamFunc(uu, vv, latitude, levels, global, decomposer, scale)
    case Err(e) => Err(e)
    case Ok(m) =>
      var psi, p, lat := m.0, m.1, m.2;
      BoundsAreCrossings(psi, p, lat);
      match BoundsOf(psi, p, lat)
      case Err(e) => Err(e)
      case Ok(b) => Ok(Bounds(b.0, b.1, psi, p))
  }

  /** `hadley_cell_bounds` with the empty crossing list handled as its docstring promises. */
  function HadleyCellBoundsGuarded(uu: Field, vv: Field, latitude: Coord, levels: Coord, global: bool,
                                   decomposer: Option<Decomposer>, scale: real -> real): (r: Result<Bounds>)
    requires vv.Valid() && latitude.Valid() && levels.Valid() && DecomposerFits(uu, vv, latitude, global, decomposer)
    ensures r != Err(NoCrossings)
    ensures r == Err(NoDecomposer) <==> !global && decomposer.None?
    ensures var a := HadleyCellBounds(uu, vv, latitude, levels, global, decomposer, scale);
      a != Err(NoCrossings) ==> r == a
    ensures var a := HadleyCellBounds(uu, vv, latitude, levels, global, decomposer, scale);
      a == Err(NoCrossings) ==> r.Ok? && r.value.north.None? && r.value.south.None?
  {
    match MassStreamFunc(uu, vv, latitude, levels, global, decomposer, scale)
    case Err(e) => Err(e)
    case Ok(m) =>
      var psi, p, lat := m.0, m.1, m.2;
      match BoundsOfGuarded(psi, p, lat)
      case Err(e) => Err(e)
      case Ok(b) => Ok(Bounds(b.0, b.1, psi, p))
  }
}
