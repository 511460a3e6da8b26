/**
 * The zonal-mean meridional mass stream function (meteorology/mass_stream_func.py and
 * the near-identical copy in meteorology/hadley_cell_bounds.py):
 *
 *   psi = scale(lat) * cumsum(dv * dp, axis=0)
 *
 * where dv and dp are layer means of the longitude-mean meridional wind and layer
 * thicknesses in pressure, after the levels have been put in ascending order. The
 * geometric factor 2*pi*R_e*cos(radians(lat))/g is the parameter `scale`.
 */
module StreamFunction {
  import opened Common
  import opened ArrayOps

  type Grid = seq<seq<real>>

  /** A 3-D array indexed [level, latitude, longitude]; `None` marks a missing (NaN) sample. */
  datatype Field = Field(nlvl: nat, nlat: nat, nlon: nat, cells: seq<seq<seq<Option<real>>>>)
  {
    predicate Valid()
    {
      |cells| == nlvl && forall i :: 0 <= i < nlvl ==> IsMatrix(cells[i], nlat, nlon)
    }
  }

  /** A coordinate array: 1-D, one value per index of one grid dimension, or 2-D of a given shape. */
  datatype Coord = Axis(values: seq<real>) | Grid2(nrows: nat, ncols: nat, cells: Grid)
  {
    predicate Valid()
    {
      Grid2? ==> IsMatrix(cells, nrows, ncols)
    }

    /** A 2-D coordinate must have exactly the shape of the (oriented) wind grid. */
    predicate Fits(rows: nat, cols: nat)
    {
      Grid2? ==> nrows == rows && ncols == cols
    }
  }

  /**
   * The wind-decomposition library: given (uu, vv, lat) it returns the latitude as the
   * library reordered it and the irrotational meridional wind in the caller's axis order.
   */
  type Decomposer = (Field, Field, Coord) -> (Coord, Field)

  /**
   * The library hands back a well-formed latitude and a wind array of the shape of `vv`;
   * a 1-D latitude of nlat values comes back 1-D with nlat values (`order_latdim` at most
   * reverses it).
   */
  predicate DecomposerFits(uu: Field, vv: Field, lat: Coord, global: bool, decomposer: Option<Decomposer>)
  {
    !global && decomposer.Some? ==>
      var out := decomposer.value(uu, vv, lat);
      out.0.Valid() && out.1.Valid() && out.1.nlvl == vv.nlvl && out.1.nlat == vv.nlat && out.1.nlon == vv.nlon &&
      (lat.Axis? && |lat.values| == vv.nlat ==> out.0.Axis? && |out.0.values| == vv.nlat)
  }

  /** Every cell of a (rows, cols) array of longitude means is present. */
  predicate NoMissing(g: seq<seq<Option<real>>>, rows: nat, cols: nat)
    requires IsMatrix(g, rows, cols)
  {
    forall i, j :: 0 <= i < rows && 0 <= j < cols ==> g[i][j].Some?
  }

  /**
   * The wind that is integrated: `vv` itself in global mode, otherwise its irrotational
   * component, which needs the decomposition library.
   */
  function WindToIntegrate(uu: Field, vv: Field, lat: Coord, global: bool, decomposer: Option<Decomposer>)
    : (r: Result<(Field, Coord)>)
    requires vv.Valid() && lat.Valid() && DecomposerFits(uu, vv, lat, global, decomposer)
    ensures r.Err? <==> !global && decomposer.None?
    ensures r.Err? ==> r.error == NoDecomposer
    ensures global ==> r == Ok((vv, lat))
    ensures r.Ok? ==> r.value.0.Valid() && r.value.1.Valid()
    ensures r.Ok? ==> r.value.0.nlvl == vv.nlvl && r.value.0.nlat == vv.nlat && r.value.0.nlon == vv.nlon
    ensures r.Ok? && lat.Axis? && |lat.values| == vv.nlat ==> r.value.1.Axis? && |r.value.1.values| == vv.nlat
  {
    if global then Ok((vv, lat))
    else if decomposer.None? then Err(NoDecomposer)
    else
      var out := decomposer.value(uu, vv, lat);
      Ok((out.1, out.0))
  }

  /** `numpy.nanmean(vv, axis=2)`: the mean over longitude of every (level, latitude) cell. */
  function LonMean(v: Field): (m: seq<seq<Option<real>>>)
    requires v.Valid()
    ensures IsMatrix(m, v.nlvl, v.nlat)
    ensures forall i, j :: 0 <= i < v.nlvl && 0 <= j < v.nlat ==> m[i][j] == NanMean(v.cells[i][j])
  {
    seq(v.nlvl, i requires 0 <= i < v.nlvl =>
      seq(v.nlat, j requires 0 <= j < v.nlat => NanMean(v.cells[i][j])))
  }

  /** Longitude means ignore missing samples: a cell whose present samples all equal `v0` averages to `v0`. */
  lemma LonMeanOfConstant(v: Field, i: nat, j: nat, v0: real)
    requires v.Valid() && i < v.nlvl && j < v.nlat
    requires forall k :: 0 <= k < v.nlon && v.cells[i][j][k].Some? ==> v.cells[i][j][k].value == v0
    requires exists k :: 0 <= k < v.nlon && v.cells[i][j][k].Some?
    ensures LonMean(v)[i][j] == Some(v0)
  {
    NanMeanConstant(v.cells[i][j], v0);
  }

  /** The longitude-mean wind with latitude indexing its second dimension, and the 2-D latitude. */
  datatype Oriented = Oriented(rows: nat, cols: nat, vv: seq<seq<Option<real>>>, lat: Grid)

  /**
   * Lines 45-50: a 1-D latitude whose size equals the first dimension of the mean wind
   * transposes the wind (even when it equals the second dimension too); it is then
   * repeated over the rows, which fails unless its size is the number of columns.
   */
  function Orient(vm: seq<seq<Option<real>>>, d0: nat, d1: nat, lat: Coord): (r: Result<Oriented>)
    requires IsMatrix(vm, d0, d1) && lat.Valid()
    ensures r.Err? ==> r.error == ShapeMismatch
    ensures r.Ok? ==> IsMatrix(r.value.vv, r.value.rows, r.value.cols)
    ensures lat.Axis? ==> (r.Ok? <==> |lat.values| == d0 || |lat.values| == d1)
    ensures r.Ok? && lat.Axis? && |lat.values| == d0 ==>
      r.value.rows == d1 && r.value.cols == d0 && r.value.vv == Transpose(vm, d0, d1)
    ensures r.Ok? && lat.Axis? && |lat.values| != d0 ==>
      r.value.rows == d0 && r.value.cols == d1 && r.value.vv == vm
    ensures r.Ok? && lat.Axis? ==>
      IsMatrix(r.value.lat, r.value.rows, r.value.cols) &&
      forall i :: 0 <= i < r.value.rows ==> r.value.lat[i] == lat.values
    ensures lat.Grid2? ==> r == Ok(Oriented(d0, d1, vm, lat.cells))
  {
    match lat
    case Axis(s) =>
      var o := if |s| == d0 then Oriented(d1, d0, Transpose(vm, d0, d1), []) else Oriented(d0, d1, vm, []);
      if |s| != o.cols then Err(ShapeMismatch)
      else Ok(o.(lat := seq(o.rows, _ => s)))
    case Grid2(_, _, g) => Ok(Oriented(d0, d1, vm, g))
  }

  /** Lines 54-55: a 1-D level array is repeated across the columns, which fails unless it has one entry per row. */
  function LevelGrid(lvl: Coord, rows: nat, cols: nat): (r: Result<Grid>)
    requires lvl.Valid()
    ensures r.Err? ==> r.error == ShapeMismatch
    ensures lvl.Axis? ==> (r.Ok? <==> |lvl.values| == rows)
    ensures r.Ok? && lvl.Axis? ==>
      IsMatrix(r.value, rows, cols) &&
      forall i, j :: 0 <= i < rows && 0 <= j < cols ==> r.value[i][j] == lvl.values[i]
    ensures lvl.Grid2? ==> r == Ok(lvl.cells)
  {
    match lvl
    case Axis(s) =>
      if |s| != rows then Err(ShapeMismatch)
      else Ok(seq(rows, i requires 0 <= i < rows => seq(cols, _ => s[i])))
    case Grid2(_, _, g) => Ok(g)
  }

  /**
   * Lines 57-61: when the first level's pressure exceeds the last one's, both the levels
   * and the wind are reversed along the level axis, so the first column ends ascending.
   */
  function Ascending<T>(lvl: Grid, vv: seq<seq<T>>, rows: nat, cols: nat): (r: (Grid, seq<seq<T>>))
    requires rows >= 1 && cols >= 1 && IsMatrix(lvl, rows, cols) && IsMatrix(vv, rows, cols)
    ensures IsMatrix(r.0, rows, cols) && IsMatrix(r.1, rows, cols)
    ensures r.0[0][0] <= r.0[rows - 1][0]
    ensures (r.0 == lvl && r.1 == vv) || (r.0 == Reverse(lvl) && r.1 == Reverse(vv))
    ensures lvl[0][0] <= lvl[rows - 1][0] ==> r.0 == lvl && r.1 == vv
  {
    if lvl[0][0] > lvl[rows - 1][0] then (Reverse(lvl), Reverse(vv)) else (lvl, vv)
  }

  /** Line 63: the pressure thickness of each layer between adjacent levels. */
  function LayerDiff(lvl: Grid, rows: nat, cols: nat): (dp: Grid)
    requires rows >= 1 && IsMatrix(lvl, rows, cols)
    ensures IsMatrix(dp, rows - 1, cols)
    ensures forall i, j {:trigger dp[i][j]} :: 0 <= i < rows - 1 && 0 <= j < cols ==> dp[i][j] == lvl[i + 1][j] - lvl[i][j]
  {
    seq(rows - 1, i requires 0 <= i < rows - 1 => seq(cols, j requires 0 <= j < cols => lvl[i + 1][j] - lvl[i][j]))
  }

  /** Line 64: the mean wind of each layer. */
  function LayerMean(vv: seq<seq<Option<real>>>, rows: nat, cols: nat): (dv: Grid)
    requires rows >= 1 && IsMatrix(vv, rows, cols)
    requires rows >= 2 ==> NoMissing(vv, rows, cols)
    ensures IsMatrix(dv, rows - 1, cols)
    ensures forall i, j {:trigger dv[i][j]} :: 0 <= i < rows - 1 && 0 <= j < cols ==>
      dv[i][j] == (vv[i + 1][j].value + vv[i][j].value) / 2.0
  {
    seq(rows - 1, i requires 0 <= i < rows - 1 =>
      seq(cols, j requires 0 <= j < cols => (vv[i + 1][j].value + vv[i][j].value) / 2.0))
  }

  /** Line 66: the output pressure axis, the midpoint of each layer in the first column. */
  function Midpoints(lvl: Grid, rows: nat, cols: nat): (p: seq<real>)
    requires rows >= 1 && cols >= 1 && IsMatrix(lvl, rows, cols)
    ensures |p| == rows - 1
    ensures forall i {:trigger p[i]} :: 0 <= i < rows - 1 ==>
      p[i] - lvl[i][0] == lvl[i + 1][0] - p[i]
    ensures forall i {:trigger p[i]} :: 0 <= i < rows - 1 ==>
      (lvl[i][0] <= p[i] <= lvl[i + 1][0]) || (lvl[i + 1][0] <= p[i] <= lvl[i][0])
  {
    seq(rows - 1, i requires 0 <= i < rows - 1 => (lvl[i + 1][0] + lvl[i][0]) / 2.0)
  }

  function Product(a: Grid, b: Grid, rows: nat, cols: nat): (c: Grid)
    requires IsMatrix(a, rows, cols) && IsMatrix(b, rows, cols)
    ensures IsMatrix(c, rows, cols)
    ensures forall i, j :: 0 <= i < rows && 0 <= j < cols ==> c[i][j] == a[i][j] * b[i][j]
  {
    seq(rows, i requires 0 <= i < rows => seq(cols, j requires 0 <= j < cols => a[i][j] * b[i][j]))
  }

  /** The output of the engine: stream function, pressure axis and the truncated latitude grid. */
  datatype Stream = Stream(psi: Grid, p: seq<real>, lat: Grid)

  /** Lines 57-64: the layer mean winds dv and layer thicknesses dp after ordering the levels. */
  function Layers(lvl: Grid, vv: seq<seq<Option<real>>>, rows: nat, cols: nat): (l: (Grid, Grid))
    requires rows >= 1 && cols >= 1 && IsMatrix(lvl, rows, cols) && IsMatrix(vv, rows, cols)
    requires rows >= 2 ==> NoMissing(vv, rows, cols)
    ensures IsMatrix(l.0, rows - 1, cols) && IsMatrix(l.1, rows - 1, cols)
  {
    var asc := Ascending(lvl, vv, rows, cols);
    assert rows >= 2 ==> NoMissing(asc.1, rows, cols);
    (LayerMean(asc.1, rows, cols), LayerDiff(asc.0, rows, cols))
  }

  /** Line 67-68: the geometric factor of each cell's latitude times the running integral. */
  function Scaled(latT: Grid, c: Grid, rows: nat, cols: nat, scale: real -> real): (psi: Grid)
    requires IsMatrix(latT, rows, cols) && IsMatrix(c, rows, cols)
    ensures IsMatrix(psi, rows, cols)
    ensures forall i, j :: 0 <= i < rows && 0 <= j < cols ==> psi[i][j] == scale(latT[i][j]) * c[i][j]
  {
    seq(rows, i requires 0 <= i < rows => seq(cols, j requires 0 <= j < cols => scale(latT[i][j]) * c[i][j]))
  }

  /** Lines 57-68 on arrays already aligned: order the levels, integrate and scale. */
  function Integrate(lvl: Grid, vv: seq<seq<Option<real>>>, latT: Grid, rows: nat, cols: nat, scale: real -> real)
    : (s: Stream)
    requires rows >= 1 && cols >= 1 && IsMatrix(lvl, rows, cols) && IsMatrix(vv, rows, cols)
    requires IsMatrix(latT, rows - 1, cols)
    requires rows >= 2 ==> NoMissing(vv, rows, cols)
    ensures IsMatrix(s.psi, rows - 1, cols) && |s.p| == rows - 1 && s.lat == latT
  {
    var l := Layers(lvl, vv, rows, cols);
    Stream(
      Psi(l.0, l.1, latT, rows - 1, cols, scale),
      Midpoints(Ascending(lvl, vv, rows, cols).0, rows, cols),
      latT)
  }

  /** Lines 67-68: psi = scale(lat) * cumsum(dv * dp, axis=0). */
  function Psi(dv: Grid, dp: Grid, latT: Grid, rows: nat, cols: nat, scale: real -> real): (psi: Grid)
    requires IsMatrix(dv, rows, cols) && IsMatrix(dp, rows, cols) && IsMatrix(latT, rows, cols)
    ensures IsMatrix(psi, rows, cols)
  {
    Scaled(latT, CumSum(Product(dv, dp, rows, cols), cols), rows, cols, scale)
  }

  /**
   * The stream function is the scaled running integral of the layer fluxes dv * dp: its
   * first row is one layer's scaled flux, and where a column's latitude is the same on two
   * consecutive rows, the rows differ by exactly the next layer's scaled flux.
   */
  lemma PsiIsRunningIntegral(dv: Grid, dp: Grid, latT: Grid, rows: nat, cols: nat, scale: real -> real, k: nat, j: nat)
    requires IsMatrix(dv, rows, cols) && IsMatrix(dp, rows, cols) && IsMatrix(latT, rows, cols)
    requires k + 1 < rows && j < cols
    ensures var psi := Psi(dv, dp, latT, rows, cols, scale);
            psi[0][j] == scale(latT[0][j]) * (dv[0][j] * dp[0][j]) &&
            (latT[k][j] == latT[k + 1][j] ==>
              psi[k + 1][j] - psi[k][j] == scale(latT[k][j]) * (dv[k + 1][j] * dp[k + 1][j]))
  {
    var f := Product(dv, dp, rows, cols);
    var c := CumSum(f, cols);
    var psi := Psi(dv, dp, latT, rows, cols, scale);
    assert psi == Scaled(latT, c, rows, cols, scale);
    CumSumStep(f, cols, k, j);
    assert psi[0][j] == scale(latT[0][j]) * (dv[0][j] * dp[0][j]) by {
      assert c[0][j] == f[0][j];
    }
    if latT[k][j] == latT[k + 1][j] {
      var sc, x, c0 := scale(latT[k][j]), dv[k + 1][j] * dp[k + 1][j], c[k][j];
      assert c[k + 1][j] == c0 + x by {
        assert f[k + 1][j] == x;
      }
      assert psi[k + 1][j] == sc * (c0 + x) && psi[k][j] == sc * c0;
      Distribute(sc, c0, x);
    }
  }

  lemma Distribute(s: real, a: real, x: real)
    ensures s * (a + x) - s * a == s * x
  {
  }

  /** A flux-free column integrates to zero: zero layer winds give a zero stream function. */
  lemma {:induction false} PsiOfZeroWind(dv: Grid, dp: Grid, latT: Grid, rows: nat, cols: nat, scale: real -> real)
    requires IsMatrix(dv, rows, cols) && IsMatrix(dp, rows, cols) && IsMatrix(latT, rows, cols)
    requires forall i, j :: 0 <= i < rows && 0 <= j < cols ==> dv[i][j] == 0.0
    ensures var psi := Psi(dv, dp, latT, rows, cols, scale);
            forall i, j :: 0 <= i < rows && 0 <= j < cols ==> psi[i][j] == 0.0
  {
    var f := Product(dv, dp, rows, cols);
    var c := CumSum(f, cols);
    var psi := Psi(dv, dp, latT, rows, cols, scale);
    assert psi == Scaled(latT, c, rows, cols, scale);
    forall i, j | 0 <= i < rows && 0 <= j < cols
      ensures psi[i][j] == 0.0
    {
      CumSumIsColumnSum(f, cols, i, j);
      ColumnSumZero(f, cols, j, i + 1);
    }
  }

  /** An all-zero wind gives an all-zero stream function, whatever the levels and latitudes. */
  lemma ZeroWindGivesZeroPsi(lvl: Grid, vv: seq<seq<Option<real>>>, latT: Grid, rows: nat, cols: nat, scale: real -> real)
    requires rows >= 1 && cols >= 1 && IsMatrix(lvl, rows, cols) && IsMatrix(vv, rows, cols)
    requires IsMatrix(latT, rows - 1, cols)
    requires forall i, j :: 0 <= i < rows && 0 <= j < cols ==> vv[i][j] == Some(0.0)
    ensures var psi := Integrate(lvl, vv, latT, rows, cols, scale).psi;
            forall i, j :: 0 <= i < rows - 1 && 0 <= j < cols ==> psi[i][j] == 0.0
  {
    var asc := Ascending(lvl, vv, rows, cols);
    assert forall i, j :: 0 <= i < rows && 0 <= j < cols ==> asc.1[i][j] == Some(0.0);
    var l := Layers(lvl, vv, rows, cols);
    assert l.0 == LayerMean(asc.1, rows, cols);
    PsiOfZeroWind(l.0, l.1, latT, rows - 1, cols, scale);
  }

  /**
   * Reversing the level axis of both the levels and the wind beforehand changes nothing,
   * unless the first column's end points are equal (then neither order is reversed).
   */
  lemma AscendingOfReversed<T>(lvl: Grid, vv: seq<seq<T>>, rows: nat, cols: nat)
    requires rows >= 1 && cols >= 1 && IsMatrix(lvl, rows, cols) && IsMatrix(vv, rows, cols)
    requires lvl[0][0] != lvl[rows - 1][0]
    ensures IsMatrix(Reverse(lvl), rows, cols) && IsMatrix(Reverse(vv), rows, cols)
    ensures Ascending(Reverse(lvl), Reverse(vv), rows, cols) == Ascending(lvl, vv, rows, cols)
  {
    ReverseReverse(lvl);
    ReverseReverse(vv);
  }

  /** The same for the whole integration: the stream function does not depend on the input's level order. */
  lemma IntegrateOfReversed(lvl: Grid, vv: seq<seq<Option<real>>>, latT: Grid, rows: nat, cols: nat, scale: real -> real)
    requires rows >= 1 && cols >= 1 && IsMatrix(lvl, rows, cols) && IsMatrix(vv, rows, cols)
    requires IsMatrix(latT, rows - 1, cols)
    requires rows >= 2 ==> NoMissing(vv, rows, cols)
    requires lvl[0][0] != lvl[rows - 1][0]
    ensures IsMatrix(Reverse(lvl), rows, cols) && IsMatrix(Reverse(vv), rows, cols)
    ensures rows >= 2 ==> NoMissing(Reverse(vv), rows, cols)
    ensures Integrate(Reverse(lvl), Reverse(vv), latT, rows, cols, scale) == Integrate(lvl, vv, latT, rows, cols, scale)
  {
    AscendingOfReversed(lvl, vv, rows, cols);
  }

  /** The running integral of the layer thicknesses telescopes to the pressure span covered so far. */
  lemma {:induction false} LayerDiffTelescopes(lvl: Grid, rows: nat, cols: nat, k: nat, j: nat)
    requires rows >= 1 && IsMatrix(lvl, rows, cols) && k + 1 < rows && j < cols
    ensures CumSum(LayerDiff(lvl, rows, cols), cols)[k][j] == lvl[k + 1][j] - lvl[0][j]
  {
    var dp := LayerDiff(lvl, rows, cols);
    CumSumIsColumnSum(dp, cols, k, j);
    ColumnSumOfDiff(lvl, rows, cols, k + 1, j);
  }

  lemma {:induction false} ColumnSumOfDiff(lvl: Grid, rows: nat, cols: nat, n: nat, j: nat)
    requires rows >= 1 && IsMatrix(lvl, rows, cols) && n < rows && j < cols
    ensures ColumnSum(LayerDiff(lvl, rows, cols), cols, j, n) == lvl[n][j] - lvl[0][j]
  {
    if n > 0 {
      ColumnSumOfDiff(lvl, rows, cols, n - 1, j);
    }
  }

  /**
   * The whole engine (lines 34-68 of meteorology/mass_stream_func.py), up to the choice of
   * what to return. Errors come in the order the program raises them.
   */
  function Compute(uu: Field, vv: Field, lat: Coord, lvl: Coord, global: bool,
                   decomposer: Option<Decomposer>, scale: real -> real): (r: Result<Stream>)
    requires vv.Valid() && lat.Valid() && lvl.Valid() && DecomposerFits(uu, vv, lat, global, decomposer)
    ensures r == Err(NoDecomposer) <==> !global && decomposer.None?
    ensures r.Ok? ==> |r.value.psi| == |r.value.p| == |r.value.lat|
    ensures r.Ok? ==> forall i :: 0 <= i < |r.value.psi| ==> |r.value.psi[i]| == |r.value.lat[i]|
    ensures r.Ok? && |r.value.lat| > 0 ==>
      IsMatrix(r.value.psi, |r.value.p|, |r.value.lat[0]|) && IsMatrix(r.value.lat, |r.value.p|, |r.value.lat[0]|)
  {
    match WindToIntegrate(uu, vv, lat, global, decomposer)
    case Err(e) => Err(e)
    case Ok(w) =>
      var v, lat1 := w.0, w.1;
      match Orient(LonMean(v), v.nlvl, v.nlat, lat1)
      case Err(e) => Err(e)
      case Ok(o) =>
        match LevelGrid(lvl, o.rows, o.cols)
        case Err(e) => Err(e)
        case Ok(lg) =>
          var lvlRows := if lvl.Grid2? then lvl.nrows else o.rows;
          var lvlCols := if lvl.Grid2? then lvl.ncols else o.cols;
          if lvlRows == 0 || lvlCols == 0 then Err(IndexOutOfRange)
          else if !lat1.Fits(o.rows, o.cols) || !lvl.Fits(o.rows, o.cols) then Err(ShapeMismatch)
          else if o.rows >= 2 && !NoMissing(o.vv, o.rows, o.cols) then Err(AllMissing)
          else Ok(Integrate(lg, o.vv, DropLast(o.lat), o.rows, o.cols, scale))
  }

  /** `mass_stream_func` of meteorology/mass_stream_func.py: returns only the stream function and its pressures. */
  function MassStreamFunc(uu: Field, vv: Field, lat: Coord, lvl: Coord, global: bool,
                          decomposer: Option<Decomposer>, scale: real -> real): (r: Result<(Grid, seq<real>)>)
    requires vv.Valid() && lat.Valid() && lvl.Valid() && DecomposerFits(uu, vv, lat, global, decomposer)
    ensures r == Err(NoDecomposer) <==> !global && decomposer.None?
    ensures r.Ok? ==> |r.value.0| == |r.value.1|
    ensures lat.Axis? && |lat.values| == vv.nlat && lvl.Axis? && |lvl.values| == vv.nlvl ==>
      var w := WindToIntegrate(uu, vv, lat, global, decomposer);
      (r.Ok? <==> w.Ok? && vv.nlvl >= 1 && vv.nlat >= 1 && (vv.nlvl >= 2 ==> NoMissing(LonMean(w.value.0), vv.nlvl, vv.nlat)))
    ensures lat.Axis? && |lat.values| == vv.nlat && lvl.Axis? && |lvl.values| == vv.nlvl && r.Ok? ==>
      IsMatrix(r.value.0, vv.nlvl - 1, vv.nlat) && |r.value.1| == vv.nlvl - 1
  {
    var c := Compute(uu, vv, lat, lvl, global, decomposer, scale);
    assert lat.Axis? && |lat.values| == vv.nlat && lvl.Axis? && |lvl.values| == vv.nlvl ==>
      var w := WindToIntegrate(uu, vv, lat, global, decomposer);
      (c.Ok? <==> w.Ok? && vv.nlvl >= 1 && vv.nlat >= 1 && (vv.nlvl >= 2 ==> NoMissing(LonMean(w.value.0), vv.nlvl, vv.nlat))) &&
      (c.Ok? ==> IsMatrix(c.value.psi, vv.nlvl - 1, vv.nlat) && |c.value.p| == vv.nlvl - 1)
    by {
      if lat.Axis? && |lat.values| == vv.nlat && lvl.Axis? && |lvl.values| == vv.nlvl {
        RegularShapes(uu, vv, lat, lvl, global, decomposer, scale);
      }
    }
    match c
    case Err(e) => Err(e)
    case Ok(s) => Ok((s.psi, s.p))
  }

  /**
   * Once the wind to integrate is known, the engine is the global engine applied to it:
   * the rest of the program never looks at `global` or the library again.
   */
  lemma ComputeAfterWind(uu: Field, vv: Field, lat: Coord, lvl: Coord, global: bool,
                         decomposer: Option<Decomposer>, scale: real -> real)
    requires vv.Valid() && lat.Valid() && lvl.Valid() && DecomposerFits(uu, vv, lat, global, decomposer)
    requires WindToIntegrate(uu, vv, lat, global, decomposer).Ok?
    ensures var w := WindToIntegrate(uu, vv, lat, global, decomposer).value;
      Compute(uu, vv, lat, lvl, global, decomposer, scale) == Compute(uu, w.0, w.1, lvl, true, None, scale)
  {
    if !global {
      var out := decomposer.value(uu, vv, lat);
      assert WindToIntegrate(uu, vv, lat, global, decomposer).value == (out.1, out.0);
    }
  }

  /**
   * Shape contract for the documented layout (levels x latitudes, 1-D coordinates), in
   * global and in zonal-subset mode: the call succeeds exactly when the wind to integrate
   * exists, both dimensions are non-empty and, with two or more levels, no cell of that
   * wind is missing at every longitude; psi then has nlvl-1 rows of nlat entries, the
   * pressure axis nlvl-1 entries, and every latitude row is the latitude the wind step
   * handed on (the input's, in global mode).
   */
  lemma RegularShapes(uu: Field, vv: Field, lat: Coord, lvl: Coord, global: bool,
                      decomposer: Option<Decomposer>, scale: real -> real)
    requires vv.Valid() && lat.Valid() && lvl.Valid() && DecomposerFits(uu, vv, lat, global, decomposer)
    requires lat.Axis? && |lat.values| == vv.nlat
    requires lvl.Axis? && |lvl.values| == vv.nlvl
    ensures var w := WindToIntegrate(uu, vv, lat, global, decomposer);
      var r := Compute(uu, vv, lat, lvl, global, decomposer, scale);
      (r.Ok? <==> w.Ok? && vv.nlvl >= 1 && vv.nlat >= 1 && (vv.nlvl >= 2 ==> NoMissing(LonMean(w.value.0), vv.nlvl, vv.nlat))) &&
      (r.Ok? ==>
        IsMatrix(r.value.psi, vv.nlvl - 1, vv.nlat) && |r.value.p| == vv.nlvl - 1 &&
        IsMatrix(r.value.lat, vv.nlvl - 1, vv.nlat) &&
        forall i :: 0 <= i < vv.nlvl - 1 ==> r.value.lat[i] == w.value.1.values)
  {
    var w := WindToIntegrate(uu, vv, lat, global, decomposer);
    if w.Ok? {
      ComputeAfterWind(uu, vv, lat, lvl, global, decomposer, scale);
      GlobalShapes(uu, w.value.0, w.value.1, lvl, scale);
    }
  }

  /** `RegularShapes` for a global run, stated on the wind and latitude that are integrated. */
  lemma GlobalShapes(uu: Field, vv: Field, lat: Coord, lvl: Coord, scale: real -> real)
    requires vv.Valid() && lat.Valid() && lvl.Valid()
    requires lat.Axis? && |lat.values| == vv.nlat
    requires lvl.Axis? && |lvl.values| == vv.nlvl
    ensures var r := Compute(uu, vv, lat, lvl, true, None, scale);
      (r.Ok? <==> vv.nlvl >= 1 && vv.nlat >= 1 && (vv.nlvl >= 2 ==> NoMissing(LonMean(vv), vv.nlvl, vv.nlat))) &&
      (r.Ok? ==>
        IsMatrix(r.value.psi, vv.nlvl - 1, vv.nlat) && |r.value.p| == vv.nlvl - 1 &&
        IsMatrix(r.value.lat, vv.nlvl - 1, vv.nlat) &&
        forall i :: 0 <= i < vv.nlvl - 1 ==> r.value.lat[i] == lat.values)
  {
    NoMissingTranspose(LonMean(vv), vv.nlvl, vv.nlat);
  }

  /** A grid has no all-missing cell exactly when its transpose has none. */
  lemma NoMissingTranspose(m: seq<seq<Option<real>>>, rows: nat, cols: nat)
    requires IsMatrix(m, rows, cols)
    ensures NoMissing(Transpose(m, rows, cols), cols, rows) <==> NoMissing(m, rows, cols)
  {
    var t := Transpose(m, rows, cols);
    if NoMissing(t, cols, rows) {
      forall i, j | 0 <= i < rows && 0 <= j < cols ensures m[i][j].Some? {
        assert t[j][i] == m[i][j];
      }
    }
  }

  /** In global mode the decomposition library is never consulted. */
  lemma GlobalIgnoresDecomposer(uu: Field, vv: Field, lat: Coord, lvl: Coord,
                                d1: Option<Decomposer>, d2: Option<Decomposer>, scale: real -> real)
    requires vv.Valid() && lat.Valid() && lvl.Valid()
    ensures Compute(uu, vv, lat, lvl, true, d1, scale) == Compute(uu, vv, lat, lvl, true, d2, scale)
  {
  }
}
