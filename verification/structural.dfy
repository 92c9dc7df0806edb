/** Structural editor of `DynamicMatrix`: the member functions that change
    the object in place. Each is a function from the state before the
    call to an `Effect`: the state after it and the exception it threw,
    if any. Every index guard is checked before anything is touched, so a
    call that throws `out_of_range` leaves the matrix as it was. */
module Structural {
  import opened Results
  import opened Vector3
  import opened Matrices

  datatype Effect = Effect(after: Matrix, thrown: Option<Error>)

  /** The call threw `e` and left `m` untouched. */
  function Throw(m: Matrix, e: Error): Effect {
    Effect(m, Some(e))
  }

  /** The call returned normally leaving the object as `m`. */
  function Return(m: Matrix): Effect {
    Effect(m, None)
  }

  // ---------------------------------------------------------------- rows

  /** `deleteRow(row)`. */
  function DeleteRow(m: Matrix, row: nat): (e: Effect)
    ensures e.thrown.Some? <==> row >= m.rows
    ensures e.thrown.Some? ==> e.thrown.value == OutOfRange && e.after == m
    ensures e.thrown.None? ==> e.after.rows == m.rows - 1 && e.after.cols == m.cols
    // where each surviving row comes from, and where each old row goes
    ensures e.thrown.None? ==>
      forall i: nat | i < e.after.rows :: e.after.cells[i] == m.cells[if i < row then i else i + 1]
    ensures e.thrown.None? ==>
      forall i: nat | i < m.rows && i != row :: m.cells[i] == e.after.cells[if i < row then i else i - 1]
  {
    if row >= m.rows then Throw(m, OutOfRange)
    else Return(Grid(m.rows - 1, m.cols, m.cells[..row] + m.cells[row + 1..]))
  }

  /** `insertRow(rowIndex, newRow)`. The source reads the first `cols`
      entries of `newRow`, and only when the index is in range. */
  function InsertRow(m: Matrix, index: nat, newRow: seq<Vec3>): (e: Effect)
    requires index <= m.rows ==> |newRow| >= m.cols
    ensures e.thrown.Some? <==> index > m.rows
    ensures e.thrown.Some? ==> e.thrown.value == OutOfRange && e.after == m
    ensures e.thrown.None? ==> e.after.rows == m.rows + 1 && e.after.cols == m.cols
    ensures e.thrown.None? ==> e.after.cells[index] == newRow[..m.cols]
    ensures e.thrown.None? ==> forall i: nat | i < index :: e.after.cells[i] == m.cells[i]
    ensures e.thrown.None? ==> forall i: nat | index <= i < m.rows :: e.after.cells[i + 1] == m.cells[i]
  {
    if index > m.rows then Throw(m, OutOfRange)
    else Return(Grid(m.rows + 1, m.cols, m.cells[..index] + [newRow[..m.cols]] + m.cells[index..]))
  }

  /** Deleting a row and putting the same data back at the same index
      restores the original matrix. */
  lemma {:induction false} DeleteRowThenInsertRow(m: Matrix, row: nat)
    requires row < m.rows
    ensures InsertRow(DeleteRow(m, row).after, row, m.cells[row]) == Return(m)
  {
    var d := DeleteRow(m, row).after;
    var r := InsertRow(d, row, m.cells[row]).after;
    assert m.cells[row][..m.cols] == m.cells[row];
    assert d.cells == m.cells[..row] + m.cells[row + 1..];
    assert d.cells[..row] == m.cells[..row];
    assert d.cells[row..] == m.cells[row + 1..];
    assert r.cells == m.cells[..row] + [m.cells[row]] + m.cells[row + 1..];
    assert m.cells == m.cells[..row] + [m.cells[row]] + m.cells[row + 1..];
  }

  /** Inserting a row and deleting it again restores the original matrix. */
  lemma {:induction false} InsertRowThenDeleteRow(m: Matrix, index: nat, newRow: seq<Vec3>)
    requires index <= m.rows && |newRow| >= m.cols
    ensures DeleteRow(InsertRow(m, index, newRow).after, index) == Return(m)
  {
    var n := InsertRow(m, index, newRow).after;
    var d := DeleteRow(n, index).after;
    forall i | 0 <= i < m.rows
      ensures d.cells[i] == m.cells[i]
    {
    }
  }

  // ------------------------------------------------------------- columns

  /** `deleteColumn(col)`: every row loses its entry at `col`. */
  function DeleteColumn(m: Matrix, col: nat): (e: Effect)
    ensures e.thrown.Some? <==> col >= m.cols
    ensures e.thrown.Some? ==> e.thrown.value == OutOfRange && e.after == m
    ensures e.thrown.None? ==> e.after.rows == m.rows && e.after.cols == m.cols - 1
    ensures e.thrown.None? ==>
      forall i: nat, j: nat | i < m.rows && j < e.after.cols ::
        Get(e.after, i, j) == Get(m, i, if j < col then j else j + 1)
    ensures e.thrown.None? ==>
      forall i: nat, j: nat | i < m.rows && j < m.cols && j != col ::
        Get(m, i, j) == Get(e.after, i, if j < col then j else j - 1)
  {
    if col >= m.cols then Throw(m, OutOfRange)
    else
      Return(Grid(m.rows, m.cols - 1,
        seq(m.rows, i requires 0 <= i < m.rows => m.cells[i][..col] + m.cells[i][col + 1..])))
  }

  /** `insertColumn(colIndex, newColumn)`: entry `i` of `newColumn` goes
      into row `i`. The source reads the first `rows` entries, and only
      when the index is in range. */
  function InsertColumn(m: Matrix, index: nat, newColumn: seq<Vec3>): (e: Effect)
    requires index <= m.cols ==> |newColumn| >= m.rows
    ensures e.thrown.Some? <==> index > m.cols
    ensures e.thrown.Some? ==> e.thrown.value == OutOfRange && e.after == m
    ensures e.thrown.None? ==> e.after.rows == m.rows && e.after.cols == m.cols + 1
    ensures e.thrown.None? ==>
      forall i: nat | i < m.rows :: Get(e.after, i, index) == newColumn[i]
    ensures e.thrown.None? ==>
      forall i: nat, j: nat | i < m.rows && j < index :: Get(e.after, i, j) == Get(m, i, j)
    ensures e.thrown.None? ==>
      forall i: nat, j: nat | i < m.rows && index <= j < m.cols :: Get(e.after, i, j + 1) == Get(m, i, j)
  {
    if index > m.cols then Throw(m, OutOfRange)
    else
      Return(Grid(m.rows, m.cols + 1,
        seq(m.rows, i requires 0 <= i < m.rows => m.cells[i][..index] + [newColumn[i]] + m.cells[i][index..])))
  }

  /** Deleting a column and putting the same data back at the same index
      restores the original matrix. */
  lemma {:induction false} DeleteColumnThenInsertColumn(m: Matrix, col: nat)
    requires col < m.cols
    ensures InsertColumn(DeleteColumn(m, col).after, col, Column(m, col)) == Return(m)
  {
    var d := DeleteColumn(m, col).after;
    var r := InsertColumn(d, col, Column(m, col)).after;
    forall i: nat, j: nat | i < m.rows && j < m.cols
      ensures Get(r, i, j) == Get(m, i, j)
    {
      if j > col {
        assert Get(r, i, j) == Get(d, i, j - 1);
      }
    }
    Extensionality(r, m);
  }

  /** Inserting a column and deleting it again restores the original matrix. */
  lemma {:induction false} InsertColumnThenDeleteColumn(m: Matrix, index: nat, newColumn: seq<Vec3>)
    requires index <= m.cols && |newColumn| >= m.rows
    ensures DeleteColumn(InsertColumn(m, index, newColumn).after, index) == Return(m)
  {
    var n := InsertColumn(m, index, newColumn).after;
    var d := DeleteColumn(n, index).after;
    forall i: nat, j: nat | i < m.rows && j < m.cols
      ensures Get(d, i, j) == Get(m, i, j)
    {
      if j >= index {
        assert Get(d, i, j) == Get(n, i, j + 1);
      }
    }
    Extensionality(d, m);
  }

  // ----------------------------------------------------------- submatrix

  /** The cell `(i, j)` lies in the `rs x cs` block whose corner is `(r0, c0)`. */
  predicate InBlock(i: nat, j: nat, r0: nat, c0: nat, rs: nat, cs: nat) {
    r0 <= i < r0 + rs && c0 <= j < c0 + cs
  }

  /** `insertSubmatrix(sub, startRow, startCol)`: overwrites the block the
      submatrix covers; the shape does not change. */
  function InsertSubmatrix(m: Matrix, sub: Matrix, startRow: nat, startCol: nat): (e: Effect)
    ensures e.thrown.Some? <==> startRow + sub.rows > m.rows || startCol + sub.cols > m.cols
    ensures e.thrown.Some? ==> e.thrown.value == OutOfRange && e.after == m
    ensures e.thrown.None? ==> e.after.rows == m.rows && e.after.cols == m.cols
    ensures e.thrown.None? ==>
      forall i: nat, j: nat | i < sub.rows && j < sub.cols ::
        Get(e.after, startRow + i, startCol + j) == Get(sub, i, j)
    ensures e.thrown.None? ==>
      forall i: nat, j: nat | i < m.rows && j < m.cols && !InBlock(i, j, startRow, startCol, sub.rows, sub.cols) ::
        Get(e.after, i, j) == Get(m, i, j)
  {
    if startRow + sub.rows > m.rows || startCol + sub.cols > m.cols then Throw(m, OutOfRange)
    else
      Return(Grid(m.rows, m.cols,
        seq(m.rows, i requires 0 <= i < m.rows =>
          seq(m.cols, j requires 0 <= j < m.cols =>
            if InBlock(i, j, startRow, startCol, sub.rows, sub.cols)
            then sub.cells[i - startRow][j - startCol]
            else m.cells[i][j]))))
  }

  /** Embedding the same block twice at the same place is the same as
      embedding it once. */
  lemma {:induction false} InsertSubmatrixTwice(m: Matrix, sub: Matrix, startRow: nat, startCol: nat)
    ensures InsertSubmatrix(InsertSubmatrix(m, sub, startRow, startCol).after, sub, startRow, startCol)
         == InsertSubmatrix(m, sub, startRow, startCol)
  {
    var once := InsertSubmatrix(m, sub, startRow, startCol);
    if once.thrown.None? {
      var twice := InsertSubmatrix(once.after, sub, startRow, startCol).after;
      forall i: nat, j: nat | i < m.rows && j < m.cols
        ensures Get(twice, i, j) == Get(once.after, i, j)
      {
        if InBlock(i, j, startRow, startCol, sub.rows, sub.cols) {
          assert Get(twice, startRow + (i - startRow), startCol + (j - startCol)) == Get(sub, i - startRow, j - startCol);
        }
      }
      Extensionality(twice, once.after);
    }
  }

  /** A block of the full shape embedded at the corner replaces the
      matrix entirely. */
  lemma {:induction false} InsertSubmatrixWhole(m: Matrix, sub: Matrix)
    requires sub.rows == m.rows && sub.cols == m.cols
    ensures InsertSubmatrix(m, sub, 0, 0) == Return(sub)
  {
    var e := InsertSubmatrix(m, sub, 0, 0).after;
    forall i: nat, j: nat | i < m.rows && j < m.cols
      ensures Get(e, i, j) == Get(sub, i, j)
    {
      assert Get(e, 0 + i, 0 + j) == Get(sub, i, j);
    }
    Extensionality(e, sub);
  }

  // -------------------------------------------------------- single cells

  /** Replace one element, leaving the others and the shape alone. */
  function Update(m: Matrix, row: nat, col: nat, v: Vec3): (u: Matrix)
    requires row < m.rows && col < m.cols
    ensures u.rows == m.rows && u.cols == m.cols
    ensures Get(u, row, col) == v
    ensures forall i: nat, j: nat | i < m.rows && j < m.cols && (i, j) != (row, col) :: Get(u, i, j) == Get(m, i, j)
  {
    Grid(m.rows, m.cols, m.cells[row := m.cells[row][col := v]])
  }

  /** `deleteItem(row, col)`: the element becomes the zero vector. */
  function DeleteItem(m: Matrix, row: nat, col: nat): (e: Effect)
    ensures e.thrown.Some? <==> row >= m.rows || col >= m.cols
    ensures e.thrown.Some? ==> e.thrown.value == OutOfRange && e.after == m
    ensures e.thrown.None? ==> e.after.rows == m.rows && e.after.cols == m.cols
    ensures e.thrown.None? ==> At(e.after, row, col) == Ok(Zero)
    ensures e.thrown.None? ==>
      forall i: nat, j: nat | i < m.rows && j < m.cols && (i, j) != (row, col) :: Get(e.after, i, j) == Get(m, i, j)
  {
    if row >= m.rows || col >= m.cols then Throw(m, OutOfRange)
    else Return(Update(m, row, col, Zero))
  }

  /** `addItem(row, col, vec)`: the element is overwritten by `vec`. */
  function AddItem(m: Matrix, row: nat, col: nat, v: Vec3): (e: Effect)
    ensures e.thrown.Some? <==> row >= m.rows || col >= m.cols
    ensures e.thrown.Some? ==> e.thrown.value == OutOfRange && e.after == m
    ensures e.thrown.None? ==> e.after.rows == m.rows && e.after.cols == m.cols
    ensures e.thrown.None? ==> At(e.after, row, col) == Ok(v)
    ensures e.thrown.None? ==>
      forall i: nat, j: nat | i < m.rows && j < m.cols && (i, j) != (row, col) :: Get(e.after, i, j) == Get(m, i, j)
  {
    if row >= m.rows || col >= m.cols then Throw(m, OutOfRange)
    else Return(Update(m, row, col, v))
  }

  /** `addVectorAt(row, col, vec)`: `vec` is added onto the element. */
  function AddVectorAt(m: Matrix, row: nat, col: nat, v: Vec3): (e: Effect)
    ensures e.thrown.Some? <==> row >= m.rows || col >= m.cols
    ensures e.thrown.Some? ==> e.thrown.value == OutOfRange && e.after == m
    ensures e.thrown.None? ==> e.after.rows == m.rows && e.after.cols == m.cols
    ensures e.thrown.None? ==> At(e.after, row, col) == Ok(Add(Get(m, row, col), v))
    ensures e.thrown.None? ==>
      forall i: nat, j: nat | i < m.rows && j < m.cols && (i, j) != (row, col) :: Get(e.after, i, j) == Get(m, i, j)
  {
    if row >= m.rows || col >= m.cols then Throw(m, OutOfRange)
    else Return(Update(m, row, col, Add(m.cells[row][col], v)))
  }

  /** Writing the current value back through `addItem` changes nothing. */
  lemma {:induction false} AddItemSameValue(m: Matrix, row: nat, col: nat)
    requires row < m.rows && col < m.cols
    ensures AddItem(m, row, col, Get(m, row, col)) == Return(m)
  {
    var u := AddItem(m, row, col, Get(m, row, col)).after;
    Extensionality(u, m);
  }

  /** Two `addVectorAt` calls on one cell accumulate both vectors. */
  lemma {:induction false} AddVectorAtTwice(m: Matrix, row: nat, col: nat, v: Vec3, w: Vec3)
    requires row < m.rows && col < m.cols
    ensures AddVectorAt(AddVectorAt(m, row, col, v).after, row, col, w)
         == AddItem(m, row, col, Add(Get(m, row, col), Add(v, w)))
  {
    var once := AddVectorAt(m, row, col, v).after;
    var twice := AddVectorAt(once, row, col, w).after;
    var direct := AddItem(m, row, col, Add(Get(m, row, col), Add(v, w))).after;
    assert Get(twice, row, col) == Get(direct, row, col);
    Extensionality(twice, direct);
  }
}
