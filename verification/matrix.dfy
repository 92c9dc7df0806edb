/** Storage layer of `DynamicMatrix`: a `rows x cols` grid of vectors.
    The jagged `Vector3D**` allocation becomes a sequence of rows, and
    ownership (deep copy, move leaves the source empty) becomes value
    semantics. */
module Matrices {
  import opened Results
  import opened Vector3

  /** The three data members of the class. `rows` and `cols` are what
      `getRows()` and `getCols()` report. */
  datatype Grid = Grid(rows: nat, cols: nat, cells: seq<seq<Vec3>>) {
    /** The class invariant: `rows` row buffers, each of `cols` elements. */
    predicate WellFormed() {
      && |cells| == rows
      && forall i :: 0 <= i < |cells| ==> |cells[i]| == cols
    }
  }

  type Matrix = g: Grid | g.WellFormed() witness Grid(0, 0, [])

  /** Element `(i, j)` of a matrix; the unchecked `matrix[i][j]`. */
  function Get(m: Matrix, i: nat, j: nat): Vec3
    requires i < m.rows && j < m.cols
  {
    m.cells[i][j]
  }

  /** Column `c` of `m`, top to bottom. */
  function Column(m: Matrix, c: nat): (col: seq<Vec3>)
    requires c < m.cols
    ensures |col| == m.rows
    ensures forall i: nat | i < m.rows :: col[i] == Get(m, i, c)
  {
    seq(m.rows, i requires 0 <= i < m.rows => m.cells[i][c])
  }

  /** Two matrices of one shape that agree on every element are the same value. */
  lemma {:induction false} Extensionality(a: Matrix, b: Matrix)
    requires a.rows == b.rows && a.cols == b.cols
    requires forall i: nat, j: nat | i < a.rows && j < a.cols :: Get(a, i, j) == Get(b, i, j)
    ensures a == b
  {
    forall i | 0 <= i < a.rows
      ensures a.cells[i] == b.cells[i]
    {
      forall j | 0 <= j < a.cols
        ensures a.cells[i][j] == b.cells[i][j]
      {
        assert Get(a, i, j) == Get(b, i, j);
      }
    }
  }

  /** `DynamicMatrix(rows, cols)`: every element is the default vector. */
  function New(rows: nat, cols: nat): (m: Matrix)
    ensures m.rows == rows && m.cols == cols
    ensures forall i: nat, j: nat | i < rows && j < cols :: Get(m, i, j) == Zero
  {
    Grid(rows, cols, seq(rows, _ => seq(cols, _ => Zero)))
  }

  /** The default constructor `DynamicMatrix()` builds the 0 x 0 matrix. */
  function Empty(): (m: Matrix)
    ensures m.rows == 0 && m.cols == 0 && m.cells == []
    ensures m == New(0, 0)
  {
    New(0, 0)
  }

  /** `at(row, col)`, both the mutable and the const overload: the element,
      or `out_of_range` when either index is past its bound. */
  function At(m: Matrix, row: nat, col: nat): (r: Result<Vec3>)
    ensures r.Err? <==> row >= m.rows || col >= m.cols
    ensures r.Err? ==> r.error == OutOfRange
    ensures r.Ok? ==> r.value == Get(m, row, col)
  {
    if row >= m.rows || col >= m.cols then Err(OutOfRange)
    else Ok(m.cells[row][col])
  }

  /** The copy constructor: fresh storage of the same shape, filled
      element by element from the source. */
  function Copy(m: Matrix): (c: Matrix)
    ensures c == m
  {
    var c := Grid(m.rows, m.cols, seq(m.rows, i requires 0 <= i < m.rows => seq(m.cols, j requires 0 <= j < m.cols => m.cells[i][j])));
    Extensionality(c, m);
    c
  }

  /** Copy assignment `target = source`. Unless both are the same object
      the old storage is released and the source copied; either way the
      target ends up equal to the source. */
  function CopyAssign(target: Matrix, source: Matrix, sameObject: bool): (r: Matrix)
    requires sameObject ==> target == source
    ensures r == source
  {
    if sameObject then target else Copy(source)
  }

  /** The two objects involved in a move: where the data went, and what
      is left in the moved-from object. */
  datatype Moved = Moved(dest: Matrix, source: Matrix)

  /** The move constructor: the new object takes over the storage and the
      source becomes the empty matrix. */
  function MoveConstruct(source: Matrix): (r: Moved)
    ensures r.dest == source
    ensures r.source.rows == 0 && r.source.cols == 0 && r.source.cells == []
  {
    Moved(source, Empty())
  }

  /** Move assignment `dest = std::move(source)`. A self-move changes
      nothing; otherwise the destination's storage is released, it takes
      over the source's, and the source becomes empty. */
  function MoveAssign(dest: Matrix, source: Matrix, sameObject: bool): (r: Moved)
    requires sameObject ==> dest == source
    ensures r.dest == source
    ensures sameObject ==> r.source == source
    ensures !sameObject ==> r.source.rows == 0 && r.source.cols == 0 && r.source.cells == []
  {
    if sameObject then Moved(dest, source) else Moved(source, Empty())
  }
}
