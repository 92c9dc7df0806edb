/** The scenarios of `tests/dynamic_matrix_tests.cpp`, stated as lemmas
    about the model. */
module Scenarios {
  import opened Results
  import opened Vector3
  import opened Matrices
  import opened Structural
  import opened Arithmetic

  function X(x: real): Vec3 {
    Vec3(x, 0.0, 0.0)
  }

  /** The left operand of the multiplication test. */
  function TestLeft(): (a: Matrix)
    ensures a.rows == 2 && a.cols == 3
  {
    Grid(2, 3, [[X(1.0), X(2.0), X(3.0)], [X(4.0), X(5.0), X(6.0)]])
  }

  /** The right operand of the multiplication test. */
  function TestRight(): (b: Matrix)
    ensures b.rows == 3 && b.cols == 2
  {
    Grid(3, 2, [[X(7.0), X(8.0)], [X(9.0), X(10.0)], [X(11.0), X(12.0)]])
  }

  lemma DotOfThree(u: seq<real>, v: seq<real>)
    requires |u| == |v| == 3
    ensures Dot(u, v) == u[0] * v[0] + u[1] * v[1] + u[2] * v[2]
  {
    assert u[1..][1..] == u[2..] && v[1..][1..] == v[2..];
    assert Dot(u[2..], v[2..]) == u[2] * v[2] by {
      assert u[2..][1..] == [] && v[2..][1..] == [];
    }
  }

  /** With an inner dimension of three, the `x` component of a product
      cell is the ordinary three-term dot product. */
  lemma {:induction false} ProductCellOfThree(a: Matrix, b: Matrix, i: nat, j: nat)
    requires a.cols == 3 && b.rows == 3 && i < a.rows && j < b.cols
    ensures Times(a, b).Ok?
    ensures Get(Times(a, b).value, i, j).x
         == Get(a, i, 0).x * Get(b, 0, j).x + Get(a, i, 1).x * Get(b, 1, j).x + Get(a, i, 2).x * Get(b, 2, j).x
  {
    TimesComponents(a, b, i, j, AxisX);
    var u, v := Components(a.cells[i], AxisX), Components(Column(b, j), AxisX);
    assert u == [Get(a, i, 0).x, Get(a, i, 1).x, Get(a, i, 2).x];
    assert v == [Get(b, 0, j).x, Get(b, 1, j).x, Get(b, 2, j).x];
    DotOfThree(u, v);
  }

  /** The 2 x 3 by 3 x 2 product of the multiplication test: the `x`
      components are `[[58, 64], [139, 154]]`, and a 2 x 3 by 2 x 2
      product is a dimension mismatch. */
  lemma {:induction false} ProductScenario()
    ensures Times(TestLeft(), TestRight()).Ok?
    ensures Times(TestLeft(), TestRight()).value.rows == 2
    ensures Times(TestLeft(), TestRight()).value.cols == 2
    ensures Get(Times(TestLeft(), TestRight()).value, 0, 0).x == 58.0
    ensures Get(Times(TestLeft(), TestRight()).value, 0, 1).x == 64.0
    ensures Get(Times(TestLeft(), TestRight()).value, 1, 0).x == 139.0
    ensures Get(Times(TestLeft(), TestRight()).value, 1, 1).x == 154.0
    ensures Times(TestLeft(), New(2, 2)) == Err(DimensionMismatch)
  {
    var a, b := TestLeft(), TestRight();
    ProductCellOfThree(a, b, 0, 0);
    ProductCellOfThree(a, b, 0, 1);
    ProductCellOfThree(a, b, 1, 0);
    ProductCellOfThree(a, b, 1, 1);
  }

  /** Deleting row 1 of rows `[R0, R1, R2]` leaves `[R0, R2]`; deleting
      row 2 of the two-row result then throws. */
  lemma {:induction false} DeleteRowScenario(r0: seq<Vec3>, r1: seq<Vec3>, r2: seq<Vec3>)
    requires |r0| == |r1| == |r2|
    ensures
      var m: Matrix := Grid(3, |r0|, [r0, r1, r2]);
      var d := DeleteRow(m, 1);
      && d == Return(Grid(2, |r0|, [r0, r2]))
      && DeleteRow(d.after, 2) == Throw(d.after, OutOfRange)
  {
    var m: Matrix := Grid(3, |r0|, [r0, r1, r2]);
    assert m.cells[..1] + m.cells[2..] == [r0, r2];
  }

  /** The 4 x 4 matrix of the submatrix test: element `(i, j)` has all
      three components equal to `i + j`. */
  function DiagonalSums(): (m: Matrix)
    ensures m.rows == 4 && m.cols == 4
    ensures forall i: nat, j: nat | i < 4 && j < 4 :: Get(m, i, j) == Vec3((i + j) as real, (i + j) as real, (i + j) as real)
  {
    Grid(4, 4, seq(4, i requires 0 <= i < 4 =>
      seq(4, j requires 0 <= j < 4 => Vec3((i + j) as real, (i + j) as real, (i + j) as real))))
  }

  /** The 2 x 2 block of the submatrix test. */
  function Block(): (b: Matrix)
    ensures b.rows == 2 && b.cols == 2
  {
    Grid(2, 2, [[Vec3(100.0, 100.0, 100.0), Vec3(200.0, 200.0, 200.0)],
                [Vec3(300.0, 300.0, 300.0), Vec3(400.0, 400.0, 400.0)]])
  }

  /** Embedding the block at (1, 1) overwrites the four cells it covers
      and leaves (0, 0) and (3, 3) alone; embedding it at (3, 3) throws. */
  lemma {:induction false} SubmatrixScenario()
    ensures
      var e := InsertSubmatrix(DiagonalSums(), Block(), 1, 1);
      && e.thrown.None?
      && At(e.after, 1, 1).value.x == 100.0 && At(e.after, 1, 2).value.y == 200.0
      && At(e.after, 2, 1).value.z == 300.0 && At(e.after, 2, 2).value.x == 400.0
      && At(e.after, 0, 0).value.x == 0.0 && At(e.after, 3, 3).value.x == 6.0
    ensures InsertSubmatrix(DiagonalSums(), Block(), 3, 3) == Throw(DiagonalSums(), OutOfRange)
  {
    var m, b := DiagonalSums(), Block();
    var e := InsertSubmatrix(m, b, 1, 1);
    assert Get(e.after, 1 + 0, 1 + 0) == Get(b, 0, 0);
    assert Get(e.after, 1 + 0, 1 + 1) == Get(b, 0, 1);
    assert Get(e.after, 1 + 1, 1 + 0) == Get(b, 1, 0);
    assert Get(e.after, 1 + 1, 1 + 1) == Get(b, 1, 1);
    assert !InBlock(0, 0, 1, 1, 2, 2) && !InBlock(3, 3, 1, 1, 2, 2);
    assert Get(m, 0, 0).x == 0.0 && Get(m, 3, 3).x == 6.0;
  }

  /** Inserting the row `[(1,2,3), (4,5,6)]` at index 0 of a 2 x 2 matrix
      and then at index 2 of the now 3-row matrix, between the two
      original rows, gives `[new, zero, new, zero]`. */
  lemma {:induction false} InsertRowScenario()
    ensures
      var newRow := [Vec3(1.0, 2.0, 3.0), Vec3(4.0, 5.0, 6.0)];
      var once := InsertRow(New(2, 2), 0, newRow);
      var twice := InsertRow(once.after, 2, newRow);
      && once.thrown.None? && once.after.rows == 3 && twice.thrown.None?
      && twice.after.rows == 4 && twice.after.cols == 2
      && twice.after.cells == [newRow, [Zero, Zero], newRow, [Zero, Zero]]
      && At(twice.after, 0, 0).value.x == 1.0 && At(twice.after, 0, 1).value.z == 6.0
  {
    var newRow := [Vec3(1.0, 2.0, 3.0), Vec3(4.0, 5.0, 6.0)];
    var z := New(2, 2);
    assert z.cells[0] == [Zero, Zero] && z.cells[1] == [Zero, Zero];
    assert newRow[..2] == newRow;
    var once := InsertRow(z, 0, newRow);
    assert once.after.cells == [newRow, [Zero, Zero], [Zero, Zero]];
  }

  /** The same with columns: the new column goes in at index 0 and then at
      index 2 of the now 3-column matrix, so each row `i` reads
      `[new[i], zero, new[i], zero]`. */
  lemma {:induction false} InsertColumnScenario()
    ensures
      var newColumn := [Vec3(1.0, 2.0, 3.0), Vec3(4.0, 5.0, 6.0)];
      var once := InsertColumn(New(2, 2), 0, newColumn);
      var twice := InsertColumn(once.after, 2, newColumn);
      && once.thrown.None? && once.after.cols == 3 && twice.thrown.None?
      && twice.after.rows == 2 && twice.after.cols == 4
      && twice.after.cells == [[newColumn[0], Zero, newColumn[0], Zero], [newColumn[1], Zero, newColumn[1], Zero]]
      && At(twice.after, 1, 1).value.y == 0.0 && At(twice.after, 1, 2).value.z == 6.0
  {
    var newColumn := [Vec3(1.0, 2.0, 3.0), Vec3(4.0, 5.0, 6.0)];
    var z := New(2, 2);
    assert z.cells[0] == [Zero, Zero] && z.cells[1] == [Zero, Zero];
    var once := InsertColumn(z, 0, newColumn);
    assert once.after.cells[0] == [newColumn[0], Zero, Zero];
    assert once.after.cells[1] == [newColumn[1], Zero, Zero];
    var twice := InsertColumn(once.after, 2, newColumn).after;
    assert twice.cells[0] == [newColumn[0], Zero, newColumn[0], Zero];
    assert twice.cells[1] == [newColumn[1], Zero, newColumn[1], Zero];
  }
}
