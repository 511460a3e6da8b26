/**
 * The whole-array operations the program takes from numpy, over exact reals:
 * 2-D arrays are sequences of rows, and every function that needs a shape is
 * given it explicitly, as numpy keeps it beside the data.
 */
module ArrayOps {
  import opened Common

  /** `g` is a 2-D array of shape (rows, cols). */
  predicate IsMatrix<T>(g: seq<seq<T>>, rows: nat, cols: nat)
  {
    |g| == rows && forall i :: 0 <= i < rows ==> |g[i]| == cols
  }

  /** `transpose` of an array of shape (rows, cols). */
  function Transpose<T>(g: seq<seq<T>>, rows: nat, cols: nat): (t: seq<seq<T>>)
    requires IsMatrix(g, rows, cols)
    ensures IsMatrix(t, cols, rows)
    ensures forall i, j :: 0 <= i < cols && 0 <= j < rows ==> t[i][j] == g[j][i]
  {
    seq(cols, i requires 0 <= i < cols => seq(rows, j requires 0 <= j < rows => g[j][i]))
  }

  /** The slice `s[::-1]`. */
  function Reverse<T>(s: seq<T>): (r: seq<T>)
    ensures |r| == |s|
    ensures forall i :: 0 <= i < |s| ==> r[i] == s[|s| - 1 - i]
  {
    seq(|s|, i requires 0 <= i < |s| => s[|s| - 1 - i])
  }

  lemma ReverseReverse<T>(s: seq<T>)
    ensures Reverse(Reverse(s)) == s
  {
  }

  /** Reversal keeps exactly the same entries. */
  lemma ReverseMembers<T>(s: seq<T>)
    ensures forall v :: v in Reverse(s) <==> v in s
  {
    forall v | v in s ensures v in Reverse(s) {
      var i :| 0 <= i < |s| && s[i] == v;
      assert Reverse(s)[|s| - 1 - i] == v;
    }
  }

  /** The slice `s[:-1]`, which is empty when `s` is. */
  function DropLast<T>(s: seq<T>): (r: seq<T>)
    ensures |r| == if |s| == 0 then 0 else |s| - 1
    ensures forall i :: 0 <= i < |r| ==> r[i] == s[i]
  {
    if |s| == 0 then [] else s[..|s| - 1]
  }

  // ---------------------------------------------------------------- sums and means

  function Sum(s: seq<real>): real
  {
    if |s| == 0 then 0.0 else Sum(s[..|s| - 1]) + s[|s| - 1]
  }

  function Mean(s: seq<real>): real
    requires |s| > 0
  {
    Sum(s) / (|s| as real)
  }

  lemma {:induction false} SumBounds(s: seq<real>, lo: real, hi: real)
    requires forall i :: 0 <= i < |s| ==> lo <= s[i] <= hi
    ensures lo * (|s| as real) <= Sum(s) <= hi * (|s| as real)
  {
    if |s| > 0 {
      SumBounds(s[..|s| - 1], lo, hi);
      assert lo * (|s| as real) == lo * ((|s| - 1) as real) + lo;
      assert hi * (|s| as real) == hi * ((|s| - 1) as real) + hi;
    }
  }

  /** The mean of strictly positive values is strictly positive. */
  lemma {:induction false} MeanPositive(s: seq<real>)
    requires |s| > 0
    requires forall i :: 0 <= i < |s| ==> s[i] > 0.0
    ensures Mean(s) > 0.0
  {
    SumPositive(s);
  }

  lemma {:induction false} SumPositive(s: seq<real>)
    requires |s| > 0
    requires forall i :: 0 <= i < |s| ==> s[i] > 0.0
    ensures Sum(s) > 0.0
  {
    if |s| > 1 {
      SumPositive(s[..|s| - 1]);
    } else {
      assert s[..0] == [];
    }
  }

  /** A mean lies within any bounds that hold of every element. */
  lemma MeanBounds(s: seq<real>, lo: real, hi: real)
    requires |s| > 0
    requires forall i :: 0 <= i < |s| ==> lo <= s[i] <= hi
    ensures lo <= Mean(s) <= hi
  {
    SumBounds(s, lo, hi);
    var n := |s| as real;
    assert Mean(s) - lo == (Sum(s) - lo * n) / n;
    assert hi - Mean(s) == (hi * n - Sum(s)) / n;
  }

  // ---------------------------------------------------------------- nanmean

  /** The entries of `cells` that are not missing, in order. */
  function Present(cells: seq<Option<real>>): (r: seq<real>)
    ensures |r| <= |cells|
  {
    if |cells| == 0 then []
    else Present(cells[..|cells| - 1]) + (if cells[|cells| - 1].Some? then [cells[|cells| - 1].value] else [])
  }

  /** `numpy.nanmean` of one line of samples: the mean of the present entries, missing if there are none. */
  function NanMean(cells: seq<Option<real>>): (r: Option<real>)
    ensures r.None? <==> forall k :: 0 <= k < |cells| ==> cells[k].None?
  {
    var pr := Present(cells);
    if |pr| == 0 then
      assert forall k :: 0 <= k < |cells| ==> cells[k].None? by {
        forall k | 0 <= k < |cells| ensures cells[k].None? {
          if cells[k].Some? {
            PresentNonEmpty(cells, k);
          }
        }
      }
      None
    else
      assert !forall k :: 0 <= k < |cells| ==> cells[k].None? by {
        if forall k :: 0 <= k < |cells| ==> cells[k].None? {
          PresentEmpty(cells);
        }
      }
      Some(Mean(pr))
  }

  lemma {:induction false} PresentConcat(a: seq<Option<real>>, b: seq<Option<real>>)
    ensures Present(a + b) == Present(a) + Present(b)
  {
    if |b| > 0 {
      assert (a + b)[..|a + b| - 1] == a + b[..|b| - 1];
      PresentConcat(a, b[..|b| - 1]);
    } else {
      assert a + b == a;
    }
  }

  lemma {:induction false} PresentBounds(cells: seq<Option<real>>, lo: real, hi: real)
    requires forall k :: 0 <= k < |cells| && cells[k].Some? ==> lo <= cells[k].value <= hi
    ensures forall i :: 0 <= i < |Present(cells)| ==> lo <= Present(cells)[i] <= hi
  {
    if |cells| > 0 {
      PresentBounds(cells[..|cells| - 1], lo, hi);
    }
  }

  lemma {:induction false} PresentNonEmpty(cells: seq<Option<real>>, k: nat)
    requires k < |cells| && cells[k].Some?
    ensures |Present(cells)| > 0
  {
    if k < |cells| - 1 {
      PresentNonEmpty(cells[..|cells| - 1], k);
    }
  }

  lemma {:induction false} PresentEmpty(cells: seq<Option<real>>)
    requires forall k :: 0 <= k < |cells| ==> cells[k].None?
    ensures Present(cells) == []
  {
    if |cells| > 0 {
      PresentEmpty(cells[..|cells| - 1]);
    }
  }

  /** A missing entry, wherever it stands, does not change the mean. */
  lemma NanMeanIgnoresMissing(a: seq<Option<real>>, b: seq<Option<real>>)
    ensures NanMean(a + [None] + b) == NanMean(a + b)
  {
    PresentConcat(a + [None], b);
    PresentConcat(a, [None]);
    var gap: seq<Option<real>> := [None];
    assert gap[..0] == [];
    assert Present(gap) == [];
    PresentConcat(a, b);
    assert Present(a + [None] + b) == Present(a + b);
  }

  /** If every present entry is `v0` and one is present, the mean is exactly `v0`; with none present it is missing. */
  lemma NanMeanConstant(cells: seq<Option<real>>, v0: real)
    requires forall k :: 0 <= k < |cells| && cells[k].Some? ==> cells[k].value == v0
    ensures (exists k :: 0 <= k < |cells| && cells[k].Some?) ==> NanMean(cells) == Some(v0)
    ensures (forall k :: 0 <= k < |cells| ==> cells[k].None?) ==> NanMean(cells) == None
  {
    if k :| 0 <= k < |cells| && cells[k].Some? {
      PresentNonEmpty(cells, k);
      PresentBounds(cells, v0, v0);
      MeanBounds(Present(cells), v0, v0);
    } else {
      PresentEmpty(cells);
    }
  }

  // ---------------------------------------------------------------- cumulative sums

  function AddRows(a: seq<real>, b: seq<real>): (r: seq<real>)
    requires |a| == |b|
    ensures |r| == |a|
    ensures forall j :: 0 <= j < |a| ==> r[j] == a[j] + b[j]
  {
    seq(|a|, j requires 0 <= j < |a| => a[j] + b[j])
  }

  /** `numpy.cumsum(g, axis=0)`: each row is the previous running row plus the next row of `g`. */
  function CumSum(g: seq<seq<real>>, cols: nat): (c: seq<seq<real>>)
    requires IsMatrix(g, |g|, cols)
    ensures IsMatrix(c, |g|, cols)
    decreases |g|
  {
    if |g| <= 1 then g
    else
      var prev := CumSum(g[..|g| - 1], cols);
      prev + [AddRows(prev[|g| - 2], g[|g| - 1])]
  }

  /** The reference sum: the first `n` entries of column `j`. */
  function ColumnSum(g: seq<seq<real>>, cols: nat, j: nat, n: nat): real
    requires IsMatrix(g, |g|, cols) && j < cols && n <= |g|
  {
    if n == 0 then 0.0 else ColumnSum(g, cols, j, n - 1) + g[n - 1][j]
  }

  lemma {:induction false} ColumnSumPrefix(g: seq<seq<real>>, cols: nat, j: nat, m: nat, n: nat)
    requires IsMatrix(g, |g|, cols) && j < cols && n <= m <= |g|
    ensures ColumnSum(g[..m], cols, j, n) == ColumnSum(g, cols, j, n)
  {
    if n > 0 {
      ColumnSumPrefix(g, cols, j, m, n - 1);
    }
  }

  /** Row `k` of the running sum is the sum of rows 0..k. */
  lemma {:induction false} CumSumIsColumnSum(g: seq<seq<real>>, cols: nat, k: nat, j: nat)
    requires IsMatrix(g, |g|, cols) && k < |g| && j < cols
    ensures CumSum(g, cols)[k][j] == ColumnSum(g, cols, j, k + 1)
    decreases |g|
  {
    if |g| > 1 {
      var h := g[..|g| - 1];
      if k < |g| - 1 {
        CumSumIsColumnSum(h, cols, k, j);
        ColumnSumPrefix(g, cols, j, |g| - 1, k + 1);
      } else {
        CumSumIsColumnSum(h, cols, k - 1, j);
        ColumnSumPrefix(g, cols, j, |g| - 1, k);
      }
    }
  }

  /** The running sum starts at row 0 and grows by exactly the next row. */
  lemma CumSumStep(g: seq<seq<real>>, cols: nat, k: nat, j: nat)
    requires IsMatrix(g, |g|, cols) && k + 1 < |g| && j < cols
    ensures CumSum(g, cols)[0][j] == g[0][j]
    ensures CumSum(g, cols)[k + 1][j] == CumSum(g, cols)[k][j] + g[k + 1][j]
  {
    CumSumIsColumnSum(g, cols, 0, j);
    CumSumIsColumnSum(g, cols, k, j);
    CumSumIsColumnSum(g, cols, k + 1, j);
  }

  lemma {:induction false} ColumnSumZero(g: seq<seq<real>>, cols: nat, j: nat, n: nat)
    requires IsMatrix(g, |g|, cols) && j < cols && n <= |g|
    requires forall i :: 0 <= i < n ==> g[i][j] == 0.0
    ensures ColumnSum(g, cols, j, n) == 0.0
  {
    if n > 0 {
      ColumnSumZero(g, cols, j, n - 1);
    }
  }

  // ---------------------------------------------------------------- np.where

  /** `numpy.where(keep(s))[0]`: the indices whose entry passes `keep`, in increasing order. */
  function Where(s: seq<real>, keep: real -> bool): (r: seq<nat>)
    ensures |r| <= |s|
    ensures forall k :: 0 <= k < |r| ==> r[k] < |s| && keep(s[r[k]])
    ensures forall k, l :: 0 <= k < l < |r| ==> r[k] < r[l]
    ensures forall i :: 0 <= i < |s| && keep(s[i]) ==> i in r
    decreases |s|
  {
    if |s| == 0 then []
    else
      var r := Where(s[..|s| - 1], keep);
      assert forall k :: 0 <= k < |r| ==> s[r[k]] == s[..|s| - 1][r[k]];
      r + (if keep(s[|s| - 1]) then [|s| - 1] else [])
  }

  // ---------------------------------------------------------------- argmax, argmin, unravel_index

  /** `numpy.argmax` of a flat array: the first index of a maximum. */
  function ArgMax(s: seq<real>): (k: nat)
    requires |s| > 0
    ensures k < |s|
    ensures forall i :: 0 <= i < |s| ==> s[i] <= s[k]
    ensures forall i :: 0 <= i < k ==> s[i] < s[k]
    decreases |s|
  {
    if |s| == 1 then 0
    else
      var k := ArgMax(s[..|s| - 1]);
      if s[|s| - 1] > s[k] then |s| - 1 else k
  }

  function Negate(s: seq<real>): (r: seq<real>)
    ensures |r| == |s| && forall i :: 0 <= i < |s| ==> r[i] == -s[i]
  {
    seq(|s|, i requires 0 <= i < |s| => -s[i])
  }

  /** `numpy.argmin` of a flat array: the first index of a minimum. */
  function ArgMin(s: seq<real>): (k: nat)
    requires |s| > 0
    ensures k < |s|
    ensures forall i :: 0 <= i < |s| ==> s[k] <= s[i]
    ensures forall i :: 0 <= i < k ==> s[k] < s[i]
  {
    var k := ArgMax(Negate(s));
    assert forall i :: 0 <= i < |s| ==> -s[i] <= -s[k];
    k
  }

  /** Row-major flattening, the order in which argmax/argmin number the entries of a 2-D array. */
  function Flatten<T>(g: seq<seq<T>>): seq<T>
  {
    if |g| == 0 then [] else Flatten(g[..|g| - 1]) + g[|g| - 1]
  }

  lemma {:induction false} MulStep(a: nat, b: nat, cols: nat)
    requires a < b
    ensures a * cols + cols <= b * cols
    decreases b - a
  {
    assert (a + 1) * cols == a * cols + cols;
    if a + 1 < b {
      MulStep(a + 1, b, cols);
    }
  }

  /** Entry (a, b) of a (rows, cols) array is entry a*cols + b of its flattening. */
  lemma {:induction false} FlattenAt<T>(g: seq<seq<T>>, rows: nat, cols: nat, a: nat, b: nat)
    requires IsMatrix(g, rows, cols) && a < rows && b < cols
    ensures |Flatten(g)| == rows * cols
    ensures a * cols + b < rows * cols
    ensures Flatten(g)[a * cols + b] == g[a][b]
    decreases rows
  {
    var h := g[..rows - 1];
    assert rows * cols == (rows - 1) * cols + cols;
    if a < rows - 1 {
      FlattenAt(h, rows - 1, cols, a, b);
      MulStep(a, rows - 1, cols);
    } else {
      if rows - 1 > 0 {
        FlattenAt(h, rows - 1, cols, 0, 0);
      } else {
        assert Flatten(h) == [];
      }
      assert Flatten(g) == Flatten(h) + g[rows - 1];
    }
  }

  /** A cell of a 2-D array, as `numpy.unravel_index` returns it. */
  datatype Cell = Cell(row: nat, col: nat)

  /** `numpy.unravel_index(k, (rows, cols))`. */
  function Unravel(k: nat, rows: nat, cols: nat): (c: Cell)
    requires k < rows * cols
    ensures c.row < rows && c.col < cols
    ensures c.row * cols + c.col == k
  {
    var c := Cell(k / cols, k % cols);
    assert c.row < rows by {
      if c.row >= rows {
        MulStep(rows - 1, c.row, cols);
      }
    }
    c
  }

  /** Earlier cells in row-major order have smaller flat indices. */
  lemma RowMajorOrder(a: nat, b: nat, a': nat, b': nat, cols: nat)
    requires b < cols && b' < cols
    requires a' < a || (a' == a && b' < b)
    ensures a' * cols + b' < a * cols + b
  {
    if a' < a {
      MulStep(a', a, cols);
    }
  }

  /** `unravel_index(g.argmax(), g.shape)`: the first maximum cell of `g` in row-major order. */
  function ArgMaxCell(g: seq<seq<real>>, rows: nat, cols: nat): (c: Cell)
    requires IsMatrix(g, rows, cols) && rows > 0 && cols > 0
    ensures c.row < rows && c.col < cols
    ensures forall a, b :: 0 <= a < rows && 0 <= b < cols ==> g[a][b] <= g[c.row][c.col]
    ensures forall a, b :: 0 <= a < rows && 0 <= b < cols && (a < c.row || (a == c.row && b < c.col)) ==>
      g[a][b] < g[c.row][c.col]
  {
    FlattenAt(g, rows, cols, 0, 0);
    var k := ArgMax(Flatten(g));
    var c := Unravel(k, rows, cols);
    FlattenAt(g, rows, cols, c.row, c.col);
    assert forall a, b :: 0 <= a < rows && 0 <= b < cols ==> g[a][b] <= g[c.row][c.col] by {
      forall a, b | 0 <= a < rows && 0 <= b < cols ensures g[a][b] <= g[c.row][c.col] {
        FlattenAt(g, rows, cols, a, b);
      }
    }
    assert forall a, b :: 0 <= a < rows && 0 <= b < cols && (a < c.row || (a == c.row && b < c.col)) ==>
      g[a][b] < g[c.row][c.col] by {
      forall a, b | 0 <= a < rows && 0 <= b < cols && (a < c.row || (a == c.row && b < c.col))
        ensures g[a][b] < g[c.row][c.col]
      {
        FlattenAt(g, rows, cols, a, b);
        RowMajorOrder(c.row, c.col, a, b, cols);
      }
    }
    c
  }

  /** `unravel_index(g.argmin(), g.shape)`: the first minimum cell of `g` in row-major order. */
  function ArgMinCell(g: seq<seq<real>>, rows: nat, cols: nat): (c: Cell)
    requires IsMatrix(g, rows, cols) && rows > 0 && cols > 0
    ensures c.row < rows && c.col < cols
    ensures forall a, b :: 0 <= a < rows && 0 <= b < cols ==> g[c.row][c.col] <= g[a][b]
    ensures forall a, b :: 0 <= a < rows && 0 <= b < cols && (a < c.row || (a == c.row && b < c.col)) ==>
      g[c.row][c.col] < g[a][b]
  {
    FlattenAt(g, rows, cols, 0, 0);
    var k := ArgMin(Flatten(g));
    var c := Unravel(k, rows, cols);
    FlattenAt(g, rows, cols, c.row, c.col);
    assert forall a, b :: 0 <= a < rows && 0 <= b < cols ==> g[c.row][c.col] <= g[a][b] by {
      forall a, b | 0 <= a < rows && 0 <= b < cols ensures g[c.row][c.col] <= g[a][b] {
        FlattenAt(g, rows, cols, a, b);
      }
    }
    assert forall a, b :: 0 <= a < rows && 0 <= b < cols && (a < c.row || (a == c.row && b < c.col)) ==>
      g[c.row][c.col] < g[a][b] by {
      forall a, b | 0 <= a < rows && 0 <= b < cols && (a < c.row || (a == c.row && b < c.col))
        ensures g[c.row][c.col] < g[a][b]
      {
        FlattenAt(g, rows, cols, a, b);
        RowMajorOrder(c.row, c.col, a, b, cols);
      }
    }
    c
  }

  /** `g[rows, :][:, cols]`: the sub-array on the selected rows and columns. */
  function SubGrid(g: seq<seq<real>>, ncols: nat, rows: seq<nat>, cols: seq<nat>): (s: seq<seq<real>>)
    requires IsMatrix(g, |g|, ncols)
    requires forall a :: 0 <= a < |rows| ==> rows[a] < |g|
    requires forall b :: 0 <= b < |cols| ==> cols[b] < ncols
    ensures IsMatrix(s, |rows|, |cols|)
    ensures forall a, b :: 0 <= a < |rows| && 0 <= b < |cols| ==> s[a][b] == g[rows[a]][cols[b]]
  {
    seq(|rows|, a requires 0 <= a < |rows| => seq(|cols|, b requires 0 <= b < |cols| => g[rows[a]][cols[b]]))
  }
}
