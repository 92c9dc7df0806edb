/** The value-producing operators of `DynamicMatrix`: `+`, `-`, the
    matrix product and the scalar product. Each builds a fresh matrix. */
module Arithmetic {
  import opened Results
  import opened Vector3
  import opened Matrices

  /** The elementwise combination of two matrices of one shape. */
  function Zip(a: Matrix, b: Matrix, f: (Vec3, Vec3) -> Vec3): (r: Matrix)
    requires a.rows == b.rows && a.cols == b.cols
    ensures r.rows == a.rows && r.cols == a.cols
    ensures forall i: nat, j: nat | i < a.rows && j < a.cols :: Get(r, i, j) == f(Get(a, i, j), Get(b, i, j))
  {
    Grid(a.rows, a.cols,
      seq(a.rows, i requires 0 <= i < a.rows =>
        seq(a.cols, j requires 0 <= j < a.cols => f(a.cells[i][j], b.cells[i][j]))))
  }

  /** `operator+`. */
  function Plus(a: Matrix, b: Matrix): (r: Result<Matrix>)
    ensures r.Err? <==> a.rows != b.rows || a.cols != b.cols
    ensures r.Err? ==> r.error == DimensionMismatch
    ensures r.Ok? ==> r.value.rows == a.rows && r.value.cols == a.cols
    ensures r.Ok? ==>
      forall i: nat, j: nat | i < a.rows && j < a.cols :: Get(r.value, i, j) == Add(Get(a, i, j), Get(b, i, j))
  {
    if a.rows != b.rows || a.cols != b.cols then Err(DimensionMismatch)
    else Ok(Zip(a, b, Add))
  }

  /** `operator-`. */
  function Minus(a: Matrix, b: Matrix): (r: Result<Matrix>)
    ensures r.Err? <==> a.rows != b.rows || a.cols != b.cols
    ensures r.Err? ==> r.error == DimensionMismatch
    ensures r.Ok? ==> r.value.rows == a.rows && r.value.cols == a.cols
    ensures r.Ok? ==>
      forall i: nat, j: nat | i < a.rows && j < a.cols :: Get(r.value, i, j) == Sub(Get(a, i, j), Get(b, i, j))
  {
    if a.rows != b.rows || a.cols != b.cols then Err(DimensionMismatch)
    else Ok(Zip(a, b, Sub))
  }

  /** With exact components, subtracting what was added gives back the
      original: `(A + B) - B == A`. */
  lemma {:induction false} PlusThenMinus(a: Matrix, b: Matrix)
    requires a.rows == b.rows && a.cols == b.cols
    ensures Plus(a, b).Ok?
    ensures Minus(Plus(a, b).value, b) == Ok(a)
  {
    var s := Plus(a, b).value;
    var d := Minus(s, b).value;
    forall i: nat, j: nat | i < a.rows && j < a.cols
      ensures Get(d, i, j) == Get(a, i, j)
    {
      AddSubCancel(Get(a, i, j), Get(b, i, j));
    }
    Extensionality(d, a);
  }

  /** Addition does not depend on the order of its operands. */
  lemma {:induction false} PlusCommutes(a: Matrix, b: Matrix)
    ensures Plus(a, b) == Plus(b, a)
  {
    if a.rows == b.rows && a.cols == b.cols {
      Extensionality(Plus(a, b).value, Plus(b, a).value);
    }
  }

  // ------------------------------------------------------------- product

  /** The accumulation in the innermost loop of `operator*`: starting from
      the zero vector, `sum = sum + row[k] * col[k].x` for `k` in order. */
  function Accumulate(row: seq<Vec3>, col: seq<Vec3>): Vec3
    requires |row| == |col|
    decreases |row|
  {
    if |row| == 0 then Zero
    else
      var n := |row| - 1;
      Add(Accumulate(row[..n], col[..n]), Scale(row[n], col[n].x))
  }

  /** Row `i` of `a` against column `j` of `b`. */
  function ProductCell(a: Matrix, b: Matrix, i: nat, j: nat): Vec3
    requires a.cols == b.rows && i < a.rows && j < b.cols
  {
    Accumulate(a.cells[i], Column(b, j))
  }

  /** Matrix `operator*`. Each result element scales the vectors of a row
      of `a` by only the `x` component of the matching elements of `b`. */
  function Times(a: Matrix, b: Matrix): (r: Result<Matrix>)
    ensures r.Err? <==> a.cols != b.rows
    ensures r.Err? ==> r.error == DimensionMismatch
    ensures r.Ok? ==> r.value.rows == a.rows && r.value.cols == b.cols
    ensures r.Ok? ==>
      forall i: nat, j: nat | i < a.rows && j < b.cols :: Get(r.value, i, j) == ProductCell(a, b, i, j)
  {
    if a.cols != b.rows then Err(DimensionMismatch)
    else
      Ok(Grid(a.rows, b.cols,
        seq(a.rows, i requires 0 <= i < a.rows =>
          seq(b.cols, j requires 0 <= j < b.cols => ProductCell(a, b, i, j)))))
  }

  /** The ordinary dot product of two real sequences, summed from the front. */
  function Dot(u: seq<real>, v: seq<real>): real
    requires |u| == |v|
  {
    if |u| == 0 then 0.0 else u[0] * v[0] + Dot(u[1..], v[1..])
  }

  lemma {:induction false} DotSnoc(u: seq<real>, v: seq<real>, p: real, q: real)
    requires |u| == |v|
    ensures Dot(u + [p], v + [q]) == Dot(u, v) + p * q
    decreases |u|
  {
    if |u| == 0 {
      assert (u + [p])[1..] == [];
      assert (v + [q])[1..] == [];
    } else {
      assert (u + [p])[1..] == u[1..] + [p];
      assert (v + [q])[1..] == v[1..] + [q];
      DotSnoc(u[1..], v[1..], p, q);
    }
  }

  /** One component of every vector of a sequence. */
  function Components(s: seq<Vec3>, a: Axis): (r: seq<real>)
    ensures |r| == |s|
    ensures forall k | 0 <= k < |s| :: r[k] == Component(s[k], a)
  {
    seq(|s|, k requires 0 <= k < |s| => Component(s[k], a))
  }

  lemma ComponentsSnoc(s: seq<Vec3>, a: Axis)
    requires |s| > 0
    ensures Components(s, a) == Components(s[..|s| - 1], a) + [Component(s[|s| - 1], a)]
  {
  }

  /** Component by component, the accumulated vector is a dot product
      whose right factor is always the `x` components of the column. */
  lemma {:induction false} AccumulateIsDot(row: seq<Vec3>, col: seq<Vec3>, a: Axis)
    requires |row| == |col|
    ensures Component(Accumulate(row, col), a) == Dot(Components(row, a), Components(col, AxisX))
    decreases |row|
  {
    if |row| > 0 {
      var n := |row| - 1;
      var us, vs := Components(row[..n], a), Components(col[..n], AxisX);
      var p, q := Component(row[n], a), Component(col[n], AxisX);
      assert q == col[n].x;
      calc {
        Component(Accumulate(row, col), a);
        { ComponentAddScale(Accumulate(row[..n], col[..n]), row[n], q, a); }
        Component(Accumulate(row[..n], col[..n]), a) + p * q;
        { AccumulateIsDot(row[..n], col[..n], a); }
        Dot(us, vs) + p * q;
        { DotSnoc(us, vs, p, q); }
        Dot(us + [p], vs + [q]);
        { ComponentsSnoc(row, a); ComponentsSnoc(col, AxisX); }
        Dot(Components(row, a), Components(col, AxisX));
      }
    }
  }

  /** Each component of a product cell is the dot product of that
      component along row `i` of `a` with the `x` components down column
      `j` of `b`; for the `x` component this is the ordinary product of the
      `x` parts. */
  lemma {:induction false} TimesComponents(a: Matrix, b: Matrix, i: nat, j: nat, axis: Axis)
    requires a.cols == b.rows && i < a.rows && j < b.cols
    ensures Times(a, b).Ok?
    ensures Component(Get(Times(a, b).value, i, j), axis)
         == Dot(Components(a.cells[i], axis), Components(Column(b, j), AxisX))
  {
    AccumulateIsDot(a.cells[i], Column(b, j), axis);
  }

  /** The product never looks at the `y` or `z` components of its right
      operand: two right operands that agree on `x` give the same product. */
  lemma {:induction false} TimesIgnoresRightYZ(a: Matrix, b: Matrix, b': Matrix)
    requires b.rows == b'.rows && b.cols == b'.cols
    requires forall k: nat, j: nat | k < b.rows && j < b.cols :: Get(b, k, j).x == Get(b', k, j).x
    ensures Times(a, b) == Times(a, b')
  {
    if a.cols == b.rows {
      var p := Times(a, b).value;
      var p' := Times(a, b').value;
      forall i: nat, j: nat | i < a.rows && j < b.cols
        ensures Get(p, i, j) == Get(p', i, j)
      {
        var xs, xs' := Components(Column(b, j), AxisX), Components(Column(b', j), AxisX);
        assert xs == xs' by {
          forall k | 0 <= k < b.rows ensures xs[k] == xs'[k] {
            assert Get(b, k, j).x == Get(b', k, j).x;
          }
        }
        TimesComponents(a, b, i, j, AxisX);
        TimesComponents(a, b', i, j, AxisX);
        TimesComponents(a, b, i, j, AxisY);
        TimesComponents(a, b', i, j, AxisY);
        TimesComponents(a, b, i, j, AxisZ);
        TimesComponents(a, b', i, j, AxisZ);
      }
      Extensionality(p, p');
    }
  }

  // -------------------------------------------------------------- scalar

  /** `operator*(double)`: every element scaled; never fails. */
  function ScaleBy(a: Matrix, s: real): (r: Matrix)
    ensures r.rows == a.rows && r.cols == a.cols
    ensures forall i: nat, j: nat | i < a.rows && j < a.cols :: Get(r, i, j) == Scale(Get(a, i, j), s)
  {
    Grid(a.rows, a.cols,
      seq(a.rows, i requires 0 <= i < a.rows =>
        seq(a.cols, j requires 0 <= j < a.cols => Scale(a.cells[i][j], s))))
  }

  /** Scaling by one gives back the matrix. */
  lemma {:induction false} ScaleByOne(a: Matrix)
    ensures ScaleBy(a, 1.0) == a
  {
    forall i: nat, j: nat | i < a.rows && j < a.cols
      ensures Get(ScaleBy(a, 1.0), i, j) == Get(a, i, j)
    {
      ScaleOne(Get(a, i, j));
    }
    Extensionality(ScaleBy(a, 1.0), a);
  }

  /** Scaling by zero gives the freshly constructed matrix of that shape. */
  lemma {:induction false} ScaleByZero(a: Matrix)
    ensures ScaleBy(a, 0.0) == New(a.rows, a.cols)
  {
    forall i: nat, j: nat | i < a.rows && j < a.cols
      ensures Get(ScaleBy(a, 0.0), i, j) == Get(New(a.rows, a.cols), i, j)
    {
      ScaleZero(Get(a, i, j));
    }
    Extensionality(ScaleBy(a, 0.0), New(a.rows, a.cols));
  }
}
