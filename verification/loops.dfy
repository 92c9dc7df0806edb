/** The loop nests of `dynamic_matrix.cpp`, written as methods over
    sequences and proved to compute what the functional definitions say. */
module Loops {
  import opened Results
  import opened Vector3
  import opened Matrices
  import opened Structural
  import opened Arithmetic
  import opened Comparison

  /** `deleteRow`: a new row index of `rows - 1` slots is filled from the
      old one, the write position `newI` advancing only for kept rows. */
  method DeleteRowLoop(m: Matrix, row: nat) returns (e: Effect)
    ensures e == DeleteRow(m, row)
  {
    if row >= m.rows {
      return Throw(m, OutOfRange);
    }
    var newMatrix: seq<seq<Vec3>> := seq(m.rows - 1, _ => []);
    var newI := 0;
    var i := 0;
    while i < m.rows
      invariant i <= m.rows
      invariant |newMatrix| == m.rows - 1
      invariant newI == if i <= row then i else i - 1
      invariant forall k :: 0 <= k < newI ==> newMatrix[k] == m.cells[if k < row then k else k + 1]
    {
      if i != row {
        newMatrix := newMatrix[newI := m.cells[i]];
        newI := newI + 1;
      }
      i := i + 1;
    }
    assert newMatrix == m.cells[..row] + m.cells[row + 1..] by {
      forall k | 0 <= k < m.rows - 1
        ensures newMatrix[k] == (m.cells[..row] + m.cells[row + 1..])[k]
      {
      }
    }
    e := Return(Grid(m.rows - 1, m.cols, newMatrix));
  }

  /** `insertSubmatrix`: after the bounds check, the target cells are
      overwritten one at a time, row by row. */
  method InsertSubmatrixLoop(m: Matrix, sub: Matrix, startRow: nat, startCol: nat) returns (e: Effect)
    ensures e == InsertSubmatrix(m, sub, startRow, startCol)
  {
    if startRow + sub.rows > m.rows || startCol + sub.cols > m.cols {
      return Throw(m, OutOfRange);
    }
    var cells := m.cells;
    var r := 0;
    while r < sub.rows
      invariant r <= sub.rows
      invariant |cells| == m.rows
      invariant forall i :: 0 <= i < m.rows ==> |cells[i]| == m.cols
      invariant forall i, j :: 0 <= i < m.rows && 0 <= j < m.cols ==>
        cells[i][j] == if InBlock(i, j, startRow, startCol, r, sub.cols)
                       then sub.cells[i - startRow][j - startCol] else m.cells[i][j]
    {
      var c := 0;
      while c < sub.cols
        invariant c <= sub.cols
        invariant |cells| == m.rows
        invariant forall i :: 0 <= i < m.rows ==> |cells[i]| == m.cols
        invariant forall i, j :: 0 <= i < m.rows && 0 <= j < m.cols ==>
          cells[i][j] == if InBlock(i, j, startRow, startCol, r, sub.cols) || (i == startRow + r && startCol <= j < startCol + c)
                         then sub.cells[i - startRow][j - startCol] else m.cells[i][j]
      {
        cells := cells[startRow + r := cells[startRow + r][startCol + c := sub.cells[r][c]]];
        c := c + 1;
      }
      r := r + 1;
    }
    var result := Grid(m.rows, m.cols, cells);
    Extensionality(result, InsertSubmatrix(m, sub, startRow, startCol).after);
    e := Return(result);
  }

  /** Matrix `operator*`: for each result cell, start from the zero vector
      and add `a[i][k] * b[k][j].x` for `k` from 0 up. */
  method ProductLoop(a: Matrix, b: Matrix) returns (r: Result<Matrix>)
    ensures r == Times(a, b)
  {
    if a.cols != b.rows {
      return Err(DimensionMismatch);
    }
    var cells: seq<seq<Vec3>> := [];
    var i := 0;
    while i < a.rows
      invariant i <= a.rows
      invariant |cells| == i
      invariant forall p :: 0 <= p < i ==> |cells[p]| == b.cols
      invariant forall p, q :: 0 <= p < i && 0 <= q < b.cols ==> cells[p][q] == ProductCell(a, b, p, q)
    {
      var row: seq<Vec3> := [];
      var j := 0;
      while j < b.cols
        invariant j <= b.cols
        invariant |row| == j
        invariant forall q :: 0 <= q < j ==> row[q] == ProductCell(a, b, i, q)
      {
        var col := Column(b, j);
        var sum := Zero;
        var k := 0;
        while k < a.cols
          invariant k <= a.cols
          invariant sum == Accumulate(a.cells[i][..k], col[..k])
        {
          assert a.cells[i][..k + 1][..k] == a.cells[i][..k];
          assert col[..k + 1][..k] == col[..k];
          sum := Add(sum, Scale(a.cells[i][k], b.cells[k][j].x));
          k := k + 1;
        }
        assert a.cells[i][..a.cols] == a.cells[i] && col[..a.cols] == col;
        row := row + [sum];
        j := j + 1;
      }
      cells := cells + [row];
      i := i + 1;
    }
    var product := Grid(a.rows, b.cols, cells);
    Extensionality(product, Times(a, b).value);
    r := Ok(product);
  }

  /** `operator==`: compare shapes, then walk the elements and stop at the
      first difference. */
  method EqualLoop(a: Matrix, b: Matrix) returns (r: bool)
    ensures r == Equal(a, b)
  {
    if a.rows != b.rows || a.cols != b.cols {
      return false;
    }
    var i := 0;
    while i < a.rows
      invariant i <= a.rows
      invariant forall p, q :: 0 <= p < i && 0 <= q < a.cols ==> a.cells[p][q] == b.cells[p][q]
    {
      var j := 0;
      while j < a.cols
        invariant j <= a.cols
        invariant forall p, q :: 0 <= p < i && 0 <= q < a.cols ==> a.cells[p][q] == b.cells[p][q]
        invariant forall q :: 0 <= q < j ==> a.cells[i][q] == b.cells[i][q]
      {
        if a.cells[i][j] != b.cells[i][j] {
          return false;
        }
        j := j + 1;
      }
      i := i + 1;
    }
    Extensionality(a, b);
    return true;
  }

  /** `totalMagnitude`: one running sum over all elements, row-major. */
  method TotalMagnitudeLoop(m: Matrix, len: Vec3 -> real) returns (sum: real)
    ensures sum == TotalMagnitude(m, len)
  {
    sum := 0.0;
    var i := 0;
    while i < m.rows
      invariant i <= m.rows
      invariant sum == GridMagnitude(m.cells[..i], len)
    {
      var j := 0;
      while j < m.cols
        invariant j <= m.cols
        invariant sum == GridMagnitude(m.cells[..i], len) + RowMagnitude(m.cells[i][..j], len)
      {
        assert m.cells[i][..j + 1][..j] == m.cells[i][..j];
        sum := sum + len(m.cells[i][j]);
        j := j + 1;
      }
      assert m.cells[i][..m.cols] == m.cells[i];
      assert m.cells[..i + 1][..i] == m.cells[..i];
      i := i + 1;
    }
    assert m.cells[..m.rows] == m.cells;
  }
}
