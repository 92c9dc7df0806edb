# DynamicMatrix in Dafny

A verified model of the in-memory engine of `DynamicMatrix`, a resizable
`rows x cols` grid of three-component vectors (`Vector3D`). The model covers
bounds-checked element access, the structural edits that reshape the grid
(`deleteRow`, `deleteColumn`, `insertRow`, `insertColumn`), the in-place
edits that keep the shape (`insertSubmatrix`, `deleteItem`, `addItem`,
`addVectorAt`), the arithmetic operators (`+`, `-`, the matrix `*` that
scales by only the `x` component of the right operand, scalar `*`), and
the comparison operators (`==`, `!=`, and the ordering derived from
`totalMagnitude`). Copy and move become value semantics.

Files, one module each:

- `results.dfy` (`Results`): the exception kinds `OutOfRange`
  (`std::out_of_range`) and `DimensionMismatch` (`std::invalid_argument`),
  and `Option`/`Result`.
- `vector3.dfy` (`Vector3`): `Vec3` with exact `real` components, the zero
  vector, componentwise add, subtract and scale.
- `matrix.dfy` (`Matrices`): `Grid(rows, cols, cells)` and the subset type
  `Matrix` carrying the class invariant (`rows` row buffers of `cols`
  elements each); construction, `at`, copy and move. The fields `rows` and
  `cols` are what `getRows()`/`getCols()` report.
- `structural.dfy` (`Structural`): the mutating members. Each maps the state
  before a call to an `Effect(after, thrown)`: the object's state after the
  call and the exception it threw, if any. All guards are checked before
  any change, so a call that throws `out_of_range` leaves the matrix as it was.
- `arithmetic.dfy` (`Arithmetic`): `+`, `-`, matrix and scalar `*`.
- `comparison.dfy` (`Comparison`): `==`, `!=`, `totalMagnitude` and the
  four ordering operators. The element length `Vector3D::lenght()` is a
  parameter `len: Vec3 -> real`; non-negativity is assumed only where a
  lemma needs it.
- `loops.dfy` (`Loops`): the loop nests of `deleteRow`, `insertSubmatrix`,
  matrix `*`, `==` and `totalMagnitude` as methods, proved to compute what
  the functional definitions say.
- `scenarios.dfy` (`Scenarios`): the scenarios of the unit tests as lemmas.

Writing through the reference returned by the mutable `at` has the same
guard and effect as `addItem`, so `Structural.AddItem` models both.

## Model

| member | source | states |
|---|---|---|
| Matrices.New | src/dynamic_matrix.cpp:7-22 | `DynamicMatrix(rows, cols)` has exactly that shape and every element is the default zero vector |
| Matrices.Empty | include/dynamic_matrix.h:18 | the default-constructed matrix is 0 x 0 with no elements |
| Matrices.At | src/dynamic_matrix.cpp:68-78 | `at(r, c)` throws out-of-range exactly when `r >= rows` or `c >= cols`, and otherwise yields the element at `(r, c)` |
| Matrices.Copy | src/dynamic_matrix.cpp:28-33 | the element-by-element copy into fresh storage is the same value as its source |
| Matrices.CopyAssign | src/dynamic_matrix.cpp:35-46 | after copy assignment, self-assignment included, the target equals the source |
| Matrices.MoveConstruct | src/dynamic_matrix.cpp:48-53 | the new object holds the source's data and the moved-from object is the empty 0 x 0 matrix |
| Matrices.MoveAssign | src/dynamic_matrix.cpp:55-66 | move assignment hands the source's data to the target; the source becomes empty unless it is the same object |
| Structural.DeleteRow | src/dynamic_matrix.cpp:80-95 | throws out-of-range exactly when `row >= rows`, leaving the matrix unchanged; otherwise rows drops by one, cols is kept, old row `i < row` stays at `i` and old row `i > row` moves to `i - 1` |
| Structural.InsertRow | src/dynamic_matrix.cpp:113-132 | throws exactly when `index > rows` (so `index == rows` appends); otherwise rows grows by one, the first `cols` supplied elements sit at `index`, earlier rows stay and later rows move down one |
| Structural.DeleteRowThenInsertRow | src/dynamic_matrix.cpp:80-132 | deleting a row and reinserting its data at the same index restores the matrix |
| Structural.InsertRowThenDeleteRow | src/dynamic_matrix.cpp:80-132 | inserting a row and deleting it at the same index restores the matrix |
| Structural.DeleteColumn | src/dynamic_matrix.cpp:97-111 | throws exactly when `col >= cols`, leaving the matrix unchanged; otherwise cols drops by one, rows is kept, and every element left of `col` stays while every element right of it moves left one |
| Structural.InsertColumn | src/dynamic_matrix.cpp:134-153 | throws exactly when `index > cols`; otherwise cols grows by one, row `i` receives `newColumn[i]` at `index`, elements left of it stay and the rest move right one |
| Structural.DeleteColumnThenInsertColumn | src/dynamic_matrix.cpp:97-153 | deleting a column and reinserting its data at the same index restores the matrix |
| Structural.InsertColumnThenDeleteColumn | src/dynamic_matrix.cpp:97-153 | inserting a column and deleting it at the same index restores the matrix |
| Structural.InsertSubmatrix | src/dynamic_matrix.cpp:155-162 | throws exactly when `startRow + sub.rows > rows` or `startCol + sub.cols > cols`; otherwise the shape is kept, cell `(startRow + r, startCol + c)` becomes `sub[r][c]` and every cell outside the block is unchanged |
| Structural.InsertSubmatrixTwice | src/dynamic_matrix.cpp:155-162 | embedding the same block twice at the same place equals embedding it once, failure included |
| Structural.InsertSubmatrixWhole | src/dynamic_matrix.cpp:155-162 | a block of the matrix's own shape embedded at `(0, 0)` replaces the matrix entirely |
| Structural.DeleteItem | src/dynamic_matrix.cpp:222-227 | throws out of bounds; otherwise exactly the one cell reads back as the zero vector, shape and all other cells unchanged |
| Structural.AddItem | src/dynamic_matrix.cpp:229-234 | throws out of bounds; otherwise exactly the one cell reads back as the given vector, shape and all other cells unchanged |
| Structural.AddVectorAt | src/dynamic_matrix.cpp:236-241 | throws out of bounds; otherwise exactly the one cell reads back as its old value plus the given vector, shape and all other cells unchanged |
| Structural.AddItemSameValue | src/dynamic_matrix.cpp:229-234 | overwriting a cell with its own value leaves the matrix as it was |
| Structural.AddVectorAtTwice | src/dynamic_matrix.cpp:236-241 | two accumulations into one cell equal a single overwrite with the cell plus both vectors |
| Arithmetic.Plus | src/dynamic_matrix.cpp:164-174 | fails with a dimension mismatch exactly when the shapes differ; otherwise same shape, elementwise sum |
| Arithmetic.Minus | src/dynamic_matrix.cpp:176-186 | fails with a dimension mismatch exactly when the shapes differ; otherwise same shape, elementwise difference |
| Arithmetic.PlusThenMinus | src/dynamic_matrix.cpp:164-186 | with exact components, `(A + B) - B == A` for operands of one shape |
| Arithmetic.PlusCommutes | src/dynamic_matrix.cpp:164-174 | `A + B` and `B + A` give the same result, including the same failure |
| Arithmetic.Times | src/dynamic_matrix.cpp:188-202 | fails with a dimension mismatch exactly when `A.cols != B.rows`; otherwise the shape is `A.rows x B.cols` and each cell is the left-to-right accumulation from the zero vector of row `i` of `A` scaled by the `x` components of column `j` of `B` |
| Arithmetic.AccumulateIsDot | src/dynamic_matrix.cpp:195-198 | the accumulated cell has, as each component, the dot product of that component of the row with the `x` components of the column |
| Arithmetic.TimesComponents | src/dynamic_matrix.cpp:188-202 | the `x` components of the product are the ordinary product of the `x` components; `y` and `z` of `A` are weighted by the `x` components of `B` as well |
| Arithmetic.TimesIgnoresRightYZ | src/dynamic_matrix.cpp:197 | the product never depends on the `y` or `z` components of the right operand |
| Arithmetic.ScaleBy | src/dynamic_matrix.cpp:204-211 | scalar `*` keeps the shape and scales every element |
| Arithmetic.ScaleByOne | src/dynamic_matrix.cpp:204-211 | scaling by 1 gives back the matrix |
| Arithmetic.ScaleByZero | src/dynamic_matrix.cpp:204-211 | scaling by 0 gives the all-zero matrix of the same shape |
| Comparison.Equal | src/dynamic_matrix.cpp:243-251 | `==` holds exactly when the two matrices are the same value: a shape mismatch is false, otherwise all elements agree |
| Comparison.NotEqual | src/dynamic_matrix.cpp:253-255 | `!=` holds exactly when the matrices differ |
| Comparison.CopyIsEqual | src/dynamic_matrix.cpp:28-33 | a copy is `==` to, and not `!=` to, its source |
| Comparison.TotalMagnitude | src/dynamic_matrix.cpp:273-282 | with non-negative element lengths the total magnitude is non-negative |
| Comparison.Less | src/dynamic_matrix.cpp:257-259 | `<` holds exactly when the total magnitude of the left operand is smaller |
| Comparison.Greater | src/dynamic_matrix.cpp:261-263 | `>` holds exactly when the total magnitude of the left operand is larger, i.e. exactly when `<` holds with the operands swapped |
| Comparison.LessEq | src/dynamic_matrix.cpp:265-267 | `<=`, defined as the negation of `>`, holds exactly when the left total magnitude is at most the right one |
| Comparison.GreaterEq | src/dynamic_matrix.cpp:269-271 | `>=`, defined as the negation of `<`, holds exactly when the left total magnitude is at least the right one |
| Comparison.OrderingDerivation | src/dynamic_matrix.cpp:257-271 | `<=` (defined as not `>`) is `<` or a magnitude tie, `>=` likewise, `>` is `<` with operands swapped, and any two matrices are related by `<=` one way or the other |
| Comparison.TieGivesBoth | src/dynamic_matrix.cpp:257-271 | matrices of equal total magnitude satisfy both `<=` and `>=` and neither `<` nor `>` |
| Comparison.TieAcrossShapes | src/dynamic_matrix.cpp:257-271 | when the zero vector has length 0, the 0 x 0 and 1 x 1 default matrices are unequal yet each is `<=` and `>=` the other |
| Comparison.DeleteRowMagnitude | src/dynamic_matrix.cpp:273-282 | `deleteRow` removes exactly the deleted row's magnitude, so with non-negative lengths the result is `<=` the original |
| Loops.DeleteRowLoop | src/dynamic_matrix.cpp:80-95 | the loop that fills a new row index of `rows - 1` slots, writing at a position `newI` that advances only for kept rows, computes `DeleteRow` |
| Loops.InsertSubmatrixLoop | src/dynamic_matrix.cpp:155-162 | the cell-by-cell overwrite loop computes `InsertSubmatrix` |
| Loops.ProductLoop | src/dynamic_matrix.cpp:188-202 | the triple loop with a running sum per cell computes `Times` |
| Loops.EqualLoop | src/dynamic_matrix.cpp:243-251 | the early-exit comparison loop computes `Equal` |
| Loops.TotalMagnitudeLoop | src/dynamic_matrix.cpp:273-282 | the running row-major sum of element lengths computes `TotalMagnitude` |
| Scenarios.ProductScenario | tests/dynamic_matrix_tests.cpp:133-160 | the 2 x 3 by 3 x 2 test product has `x` components `[[58, 64], [139, 154]]`, and 2 x 3 by 2 x 2 is a dimension mismatch |
| Scenarios.DeleteRowScenario | tests/dynamic_matrix_tests.cpp:47-58 | deleting row 1 of `[R0, R1, R2]` gives `[R0, R2]`, after which deleting row 2 throws |
| Scenarios.InsertRowScenario | tests/dynamic_matrix_tests.cpp:73-82 | inserting a row at 0 of a 2 x 2 matrix and then at index 2 of the now 3-row matrix, between the two original rows, gives the rows `[new, zero, new, zero]`, so `(0,0).x == 1` and `(0,1).z == 6` |
| Scenarios.InsertColumnScenario | tests/dynamic_matrix_tests.cpp:84-93 | inserting a column at 0 and then at index 2 of the now 3-column matrix gives each row `i` as `[new[i], zero, new[i], zero]`, so `(1,1).y == 0` and `(1,2).z == 6` |
| Scenarios.SubmatrixScenario | tests/dynamic_matrix_tests.cpp:177-202 | in the 4 x 4 matrix with `i + j` at `(i, j)`, the block 100/200/300/400 embedded at (1, 1) reads back in the four covered cells while (0, 0) stays 0 and (3, 3) stays 6; at (3, 3) it throws out-of-range |

## Left out

- `saveToFile` / `loadFromFile`: file I/O with a native-endian raw-byte layout; no file system in the model.
- Stream `operator<<`, `operator>>` and `print`: text I/O over the element's textual form, whose header is not part of this model.
- `allocateMemory`, `deallocateMemory` and the destructor: manual `new[]`/`delete[]` bookkeeping, replaced by value-typed sequences; only the outcome (deep copy, moved-from object empty) is modelled.
- `Vector3D`: its header `vector3d_structure.h` is not available; it is modelled as `Vec3` with exact real components, so IEEE rounding is not modelled and `(A + B) - B == A` holds only in this exact model.
- `Vector3D::lenght()`: a floating-point square root; it is the abstract parameter `len`, and only how the ordering operators derive from the total magnitude is modelled.
- Allocation failure: a `std::bad_alloc` from `new` is not modelled. In the source it can leave `deleteColumn` or `insertColumn` part-way through their per-row replacement, and copy assignment with its old storage already freed and `rows`/`cols` already taken from the source.
- `size_t` width: indices are unbounded `nat`, so the wrap-around of `startRow + submatrix.rows` in `insertSubmatrix` is not modelled.
- Object identity: `this != &other` in the assignment operators is the explicit flag `sameObject`.
- `insertRow` / `insertColumn` take an unsized pointer; the model requires the caller to supply at least `cols` (resp. `rows`) elements, and only when the index is in range, since the source reads nothing on the throwing path and only the first `cols` (resp. `rows`) elements otherwise.
