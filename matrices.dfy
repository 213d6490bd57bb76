/** Two-dimensional ndarrays (`Array2<T>`) as owned values, with the handful of
    ndarray operations the encoding node uses. Cells are stored row by row. */
module Matrices {
  import opened Flow
  import opened NdArrays

  datatype Matrix<T> = Matrix(nrows: nat, ncols: nat, cells: seq<seq<T>>) {
    /** nrows rows of ncols cells each. */
    predicate Valid() {
      |cells| == nrows && forall i :: 0 <= i < nrows ==> |cells[i]| == ncols
    }
  }

  type Array2<T> = m: Matrix<T> | m.Valid() witness Matrix(0, 0, [])

  /** Column j, top to bottom (one item of `axis_iter(Axis(1))`). */
  function Column<T>(m: Array2<T>, j: nat): (col: seq<T>)
    requires j < m.ncols
    ensures |col| == m.nrows
    ensures forall i :: 0 <= i < m.nrows ==> col[i] == m.cells[i][j]
  {
    seq(m.nrows, i requires 0 <= i < m.nrows => m.cells[i][j])
  }

  /** The columns, left to right. */
  function Columns<T>(m: Array2<T>): (cols: seq<seq<T>>)
    ensures |cols| == m.ncols
    ensures forall j :: 0 <= j < m.ncols ==> cols[j] == Column(m, j)
  {
    seq(m.ncols, j requires 0 <= j < m.ncols => Column(m, j))
  }

  /** `m.t().to_owned()`: cell (j, i) of the result is cell (i, j) of m. */
  function Transpose<T>(m: Array2<T>): (t: Array2<T>)
    ensures t.nrows == m.ncols && t.ncols == m.nrows
    ensures forall j, i :: 0 <= j < m.ncols && 0 <= i < m.nrows ==> t.cells[j][i] == m.cells[i][j]
  {
    Matrix(m.ncols, m.nrows, Columns(m))
  }

  /** Row i of the transpose is the sequence of cells i of the rows. */
  lemma TransposeRow<T>(m: Array2<T>, i: nat, row: seq<T>)
    requires i < m.ncols && |row| == m.nrows
    requires forall c :: 0 <= c < m.nrows ==> m.cells[c][i] == row[c]
    ensures Transpose(m).cells[i] == row
  {
  }

  /** A row of n zeros. */
  function ZeroRow(n: nat): (row: seq<real>)
    ensures |row| == n && forall j :: 0 <= j < n ==> row[j] == 0.0
  {
    seq(n, _ => 0.0)
  }

  /** `Array2::zeros((rows, cols))`. */
  function Zeros(rows: nat, cols: nat): (m: Array2<real>)
    ensures m.nrows == rows && m.ncols == cols
    ensures forall i :: 0 <= i < rows ==> m.cells[i] == ZeroRow(cols)
  {
    Matrix(rows, cols, seq(rows, _ => ZeroRow(cols)))
  }

  /** `m[[i, j]] = v`: only that cell changes. */
  function SetCell<T>(m: Array2<T>, i: nat, j: nat, v: T): (r: Array2<T>)
    requires i < m.nrows && j < m.ncols
    ensures r.nrows == m.nrows && r.ncols == m.ncols
    ensures r.cells[i] == m.cells[i][j := v]
    ensures forall k :: 0 <= k < m.nrows && k != i ==> r.cells[k] == m.cells[k]
  {
    Matrix(m.nrows, m.ncols, m.cells[i := m.cells[i][j := v]])
  }

  /** `m.slice_mut(s![.., j]).assign(col)`: column j becomes col, the other
      columns are unchanged. */
  function SetColumn<T>(m: Array2<T>, j: nat, col: seq<T>): (r: Array2<T>)
    requires j < m.ncols && |col| == m.nrows
    ensures r.nrows == m.nrows && r.ncols == m.ncols
    ensures Column(r, j) == col
    ensures forall c :: 0 <= c < m.ncols && c != j ==> Column(r, c) == Column(m, c)
  {
    Matrix(m.nrows, m.ncols, seq(m.nrows, i requires 0 <= i < m.nrows => m.cells[i][j := col[i]]))
  }

  /** `into_iter().flatten().collect()` over a list of rows. */
  function Flatten<T>(rows: seq<seq<T>>): seq<T>
    decreases |rows|
  {
    if rows == [] then [] else rows[0] + Flatten(rows[1..])
  }

  /** Flattening two rows concatenates them. */
  lemma FlattenTwo<T>(u: seq<T>, v: seq<T>)
    ensures Flatten([u, v]) == u + v
  {
    assert [u, v][1..] == [v];
    assert [v][1..] == [];
    assert Flatten([v]) == v + Flatten([]);
  }

  /** Appending a row appends its cells. */
  lemma {:induction false} FlattenSnoc<T>(rows: seq<seq<T>>, row: seq<T>)
    ensures Flatten(rows + [row]) == Flatten(rows) + row
    decreases |rows|
  {
    if rows != [] {
      assert (rows + [row])[1..] == rows[1..] + [row];
      FlattenSnoc(rows[1..], row);
    }
  }

  /** Flattening rows of equal width w gives |rows| * w cells. */
  lemma {:induction false} FlattenLength<T>(rows: seq<seq<T>>, w: nat)
    requires forall k :: 0 <= k < |rows| ==> |rows[k]| == w
    ensures |Flatten(rows)| == |rows| * w
    decreases |rows|
  {
    if rows != [] {
      FlattenLength(rows[1..], w);
    }
  }

  /** Row k of rows of equal width w sits at positions k*w .. k*w+w of the flattening. */
  lemma {:induction false} FlattenRowAt<T>(rows: seq<seq<T>>, w: nat, k: nat)
    requires forall k :: 0 <= k < |rows| ==> |rows[k]| == w
    requires k < |rows|
    ensures k * w + w <= |Flatten(rows)| && Flatten(rows)[k * w .. k * w + w] == rows[k]
    decreases k
  {
    FlattenLength(rows, w);
    var f := Flatten(rows);
    assert f == rows[0] + Flatten(rows[1..]);
    if k == 0 {
      assert f[..w] == rows[0];
    } else {
      var rest := rows[1..];
      FlattenRowAt(rest, w, k - 1);
      var a := (k - 1) * w;
      assert k * w == a + w;
      assert f[a + w .. a + w + w] == Flatten(rest)[a .. a + w];
    }
  }

  /** Flattening rows of equal width w puts row k at positions k*w .. k*w+w. */
  lemma FlattenRows<T>(rows: seq<seq<T>>, w: nat)
    requires forall k :: 0 <= k < |rows| ==> |rows[k]| == w
    ensures |Flatten(rows)| == |rows| * w
    ensures forall k :: 0 <= k < |rows| ==> k * w + w <= |Flatten(rows)| && Flatten(rows)[k * w .. k * w + w] == rows[k]
  {
    FlattenLength(rows, w);
    forall k | 0 <= k < |rows|
      ensures k * w + w <= |Flatten(rows)| && Flatten(rows)[k * w .. k * w + w] == rows[k]
    {
      FlattenRowAt(rows, w, k);
    }
  }

  /** Position i across three blocks of columns laid end to end is position i
      of each block's columns laid end to end. */
  lemma StackedColumnsAt<T>(a: seq<seq<T>>, b: seq<seq<T>>, c: seq<seq<T>>, ra: seq<T>, rb: seq<T>, rc: seq<T>, i: nat)
    requires |a| == |ra| && forall k :: 0 <= k < |a| ==> i < |a[k]| && a[k][i] == ra[k]
    requires |b| == |rb| && forall k :: 0 <= k < |b| ==> i < |b[k]| && b[k][i] == rb[k]
    requires |c| == |rc| && forall k :: 0 <= k < |c| ==> i < |c[k]| && c[k][i] == rc[k]
    ensures forall k :: 0 <= k < |a| + |b| + |c| ==> i < |(a + b + c)[k]| && (a + b + c)[k][i] == (ra + rb + rc)[k]
  {
    forall k | 0 <= k < |a| + |b| + |c|
      ensures i < |(a + b + c)[k]| && (a + b + c)[k][i] == (ra + rb + rc)[k]
    {
      if k < |a| {
        assert (a + b + c)[k] == a[k] && (ra + rb + rc)[k] == ra[k];
      } else if k < |a| + |b| {
        assert (a + b + c)[k] == b[k - |a|] && (ra + rb + rc)[k] == rb[k - |a|];
      } else {
        assert (a + b + c)[k] == c[k - |a| - |b|] && (ra + rb + rc)[k] == rc[k - |a| - |b|];
      }
    }
  }

  /** Row i of a rows x cols matrix lies inside the first rows * cols positions. */
  lemma RowSliceInBounds(rows: nat, cols: nat, i: nat)
    requires i < rows
    ensures i * cols + cols <= rows * cols
  {
    MulLeftMono(i + 1, rows, cols);
    assert (i + 1) * cols == i * cols + cols;
  }

  /** Row i of a matrix with cols columns whose cells are v in row-major order. */
  function RowSlice<T>(v: seq<T>, rows: nat, cols: nat, i: nat): (row: seq<T>)
    requires rows * cols == |v| && i < rows
    ensures |row| == cols
  {
    RowSliceInBounds(rows, cols, i);
    v[i * cols .. i * cols + cols]
  }

  /** `Array2::from_shape_vec((rows, cols), v)`: fails unless v has exactly
      rows * cols elements, with an out-of-bounds error when v is too short
      (the slice cannot hold the shape) and an incompatible-shape error when it
      is too long; otherwise row i holds v[i*cols .. i*cols+cols]. */
  function FromShapeVec<T>(rows: nat, cols: nat, v: seq<T>): (r: Result<Array2<T>, string>)
    ensures r.Ok? <==> rows * cols == |v|
    ensures r.Ok? ==> r.value.nrows == rows && r.value.ncols == cols
    ensures r.Ok? ==> forall i :: 0 <= i < rows ==> r.value.cells[i] == RowSlice(v, rows, cols, i)
    ensures rows * cols > |v| ==> r == Err(OutOfBounds)
    ensures rows * cols < |v| ==> r == Err(IncompatibleShape)
  {
    if rows * cols > |v| then Err(OutOfBounds)
    else if rows * cols < |v| then Err(IncompatibleShape)
    else
      var cells := seq(rows, i requires 0 <= i < rows => RowSlice(v, rows, cols, i));
      Ok(Matrix(rows, cols, cells))
  }

  /** Rebuilding a matrix from the flattened list of its rows gives back the rows. */
  lemma FromShapeVecOfFlatten<T>(rows: seq<seq<T>>, w: nat)
    requires forall k :: 0 <= k < |rows| ==> |rows[k]| == w
    ensures FromShapeVec(|rows|, w, Flatten(rows)) == Ok(Matrix(|rows|, w, rows))
  {
    FlattenRows(rows, w);
    var m := FromShapeVec(|rows|, w, Flatten(rows)).value;
    assert forall k :: 0 <= k < |rows| ==> m.cells[k] == rows[k];
    assert m.cells == rows;
  }

  /** `concatenate![Axis(0), a, b, c]`: stacks the rows of the three matrices;
      fails unless all three have the same number of columns. */
  function StackRows<T>(a: Array2<T>, b: Array2<T>, c: Array2<T>): (r: Result<Array2<T>, string>)
    ensures r.Ok? <==> a.ncols == b.ncols == c.ncols
    ensures r.Ok? ==> r.value.nrows == a.nrows + b.nrows + c.nrows && r.value.ncols == a.ncols
    ensures r.Ok? ==> r.value.cells == a.cells + b.cells + c.cells
    ensures r.Err? ==> r.error == IncompatibleShape
  {
    if a.ncols == b.ncols == c.ncols then
      var cells := a.cells + b.cells + c.cells;
      assert forall i :: 0 <= i < |cells| ==> |cells[i]| == a.ncols;
      Ok(Matrix(a.nrows + b.nrows + c.nrows, a.ncols, cells))
    else Err(IncompatibleShape)
  }
}
