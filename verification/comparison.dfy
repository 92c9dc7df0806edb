/** Equality and ordering of `DynamicMatrix`. Equality compares shape and
    elements; the ordering compares only the total magnitude. The element
    length (`Vector3D::lenght`) is a floating-point square root in the
    source and stays abstract here: it is the parameter `len`. */
module Comparison {
  import opened Vector3
  import opened Matrices
  import opened Structural

  /** `operator==`: a shape mismatch is simply `false`, otherwise every
      pair of elements must be equal. */
  function Equal(a: Matrix, b: Matrix): (r: bool)
    ensures r <==> a == b
  {
    if a.rows != b.rows || a.cols != b.cols then false
    else
      var same := forall i: nat, j: nat | i < a.rows && j < a.cols :: Get(a, i, j) == Get(b, i, j);
      if same then Extensionality(a, b); true else false
  }

  /** `operator!=` is the negation of `operator==`. */
  function NotEqual(a: Matrix, b: Matrix): (r: bool)
    ensures r <==> a != b
  {
    !Equal(a, b)
  }

  /** A copy compares equal to its source. */
  lemma CopyIsEqual(m: Matrix)
    ensures Equal(Copy(m), m) && !NotEqual(Copy(m), m)
  {
  }

  /** Lengths are never negative. */
  ghost predicate NonNegative(len: Vec3 -> real) {
    forall v :: len(v) >= 0.0
  }

  /** The lengths of a row, summed left to right. */
  function RowMagnitude(row: seq<Vec3>, len: Vec3 -> real): (r: real)
    ensures NonNegative(len) ==> r >= 0.0
    decreases |row|
  {
    if |row| == 0 then 0.0
    else RowMagnitude(row[..|row| - 1], len) + len(row[|row| - 1])
  }

  /** The row magnitudes of a grid, summed top to bottom. */
  function GridMagnitude(cells: seq<seq<Vec3>>, len: Vec3 -> real): (r: real)
    ensures NonNegative(len) ==> r >= 0.0
    decreases |cells|
  {
    if |cells| == 0 then 0.0
    else GridMagnitude(cells[..|cells| - 1], len) + RowMagnitude(cells[|cells| - 1], len)
  }

  /** `totalMagnitude()`: the sum of the lengths of all elements in
      row-major order. */
  function TotalMagnitude(m: Matrix, len: Vec3 -> real): (r: real)
    ensures NonNegative(len) ==> r >= 0.0
  {
    GridMagnitude(m.cells, len)
  }

  /** `operator<`: compares total magnitudes only. */
  function Less(a: Matrix, b: Matrix, len: Vec3 -> real): (r: bool)
    ensures r <==> TotalMagnitude(a, len) < TotalMagnitude(b, len)
  {
    TotalMagnitude(a, len) < TotalMagnitude(b, len)
  }

  /** `operator>`: compares total magnitudes only, so it is `<` with the
      operands swapped. */
  function Greater(a: Matrix, b: Matrix, len: Vec3 -> real): (r: bool)
    ensures r <==> TotalMagnitude(a, len) > TotalMagnitude(b, len)
    ensures r <==> Less(b, a, len)
  {
    TotalMagnitude(a, len) > TotalMagnitude(b, len)
  }

  /** `operator<=` is defined as `!(a > b)`, which over exact reals is the
      magnitude comparison `<=`. */
  function LessEq(a: Matrix, b: Matrix, len: Vec3 -> real): (r: bool)
    ensures r <==> TotalMagnitude(a, len) <= TotalMagnitude(b, len)
  {
    !Greater(a, b, len)
  }

  /** `operator>=` is defined as `!(a < b)`, which over exact reals is the
      magnitude comparison `>=`. */
  function GreaterEq(a: Matrix, b: Matrix, len: Vec3 -> real): (r: bool)
    ensures r <==> TotalMagnitude(a, len) >= TotalMagnitude(b, len)
  {
    !Less(a, b, len)
  }

  /** Over exact reals the derived operators are the usual ones:
      `<=` is `<` or a tie, `>=` is `>` or a tie, and `>` is `<` flipped. */
  lemma OrderingDerivation(a: Matrix, b: Matrix, len: Vec3 -> real)
    ensures LessEq(a, b, len) <==> Less(a, b, len) || TotalMagnitude(a, len) == TotalMagnitude(b, len)
    ensures GreaterEq(a, b, len) <==> Greater(a, b, len) || TotalMagnitude(a, len) == TotalMagnitude(b, len)
    ensures Greater(a, b, len) <==> Less(b, a, len)
    ensures LessEq(a, b, len) || LessEq(b, a, len)
  {
  }

  /** Matrices of equal total magnitude satisfy both `<=` and `>=`, even
      when they differ, and neither `<` nor `>`. */
  lemma TieGivesBoth(a: Matrix, b: Matrix, len: Vec3 -> real)
    requires TotalMagnitude(a, len) == TotalMagnitude(b, len)
    ensures LessEq(a, b, len) && GreaterEq(a, b, len)
    ensures !Less(a, b, len) && !Greater(a, b, len)
  {
  }

  /** A concrete tie between matrices of different shape: when the zero
      vector has length zero, the 0 x 0 and 1 x 1 default matrices are
      unequal yet each is `<=` and `>=` the other. */
  lemma {:induction false} TieAcrossShapes(len: Vec3 -> real)
    requires len(Zero) == 0.0
    ensures !Equal(Empty(), New(1, 1))
    ensures LessEq(Empty(), New(1, 1), len) && GreaterEq(Empty(), New(1, 1), len)
  {
    var one := New(1, 1);
    assert Get(one, 0, 0) == Zero;
    assert one.cells[0] == [Zero];
    assert one.cells == [[Zero]];
    assert RowMagnitude([Zero], len) == 0.0 by {
      assert [Zero][..0] == [];
    }
    assert one.cells[..0] == [];
  }

  lemma {:induction false} GridMagnitudeAppend(x: seq<seq<Vec3>>, y: seq<seq<Vec3>>, len: Vec3 -> real)
    ensures GridMagnitude(x + y, len) == GridMagnitude(x, len) + GridMagnitude(y, len)
    decreases |y|
  {
    if |y| == 0 {
      assert x + y == x;
    } else {
      var n := |y| - 1;
      assert (x + y)[..|x + y| - 1] == x + y[..n];
      GridMagnitudeAppend(x, y[..n], len);
    }
  }

  /** `deleteRow` removes exactly the magnitude of the deleted row, so with
      non-negative lengths the result is `<=` the original. */
  lemma {:induction false} DeleteRowMagnitude(m: Matrix, row: nat, len: Vec3 -> real)
    requires row < m.rows
    ensures TotalMagnitude(m, len) == TotalMagnitude(DeleteRow(m, row).after, len) + RowMagnitude(m.cells[row], len)
    ensures NonNegative(len) ==> LessEq(DeleteRow(m, row).after, m, len)
  {
    assert DeleteRow(m, row).after.cells == m.cells[..row] + m.cells[row + 1..];
    assert m.cells == m.cells[..row] + [m.cells[row]] + m.cells[row + 1..];
    GridMagnitudeAppend(m.cells[..row] + [m.cells[row]], m.cells[row + 1..], len);
    GridMagnitudeAppend(m.cells[..row], [m.cells[row]], len);
    GridMagnitudeAppend(m.cells[..row], m.cells[row + 1..], len);
    assert [m.cells[row]][..0] == [];
  }
}
