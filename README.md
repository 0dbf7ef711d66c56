# Math-Py numeric kernel in Dafny

This project models the four containers at the centre of the StarlangSoftware
Math-Py library and proves what their operations compute:

- `Vector` (Math/Vector.py): a list of numbers with a size counter, rewritten
  in place by append, insert, remove and element-wise arithmetic.
- `Matrix` (Math/Matrix.py), its structural and algebraic part:
  - construction modes, element access, row and column extraction;
  - element-wise and scalar arithmetic, vector and matrix products;
  - sums, trace, transpose, block extraction, the symmetry test;
  - the determinant by forward elimination.
- `Tensor` (Math/Tensor.py): an n-dimensional array stored flat in row-major
  order. It covers shape inference and flattening, strides, index
  validation, get and set, reshape, transpose, NumPy-style broadcasting,
  element-wise arithmetic, batched matrix product and sub-tensor extraction.
- `DiscreteDistribution` (Math/DiscreteDistribution.py): an insertion-ordered
  frequency table of strings with a running `sum`.

Each class is a Dafny `class` whose fields are the source's fields, with
`seq` and `map` values that the methods reassign. Its `Valid()` predicate is
the invariant the source maintains (the size counter matches the list, every
row has `col` entries, the data length is the product of the shape, the key
order lists each key exactly once). Every method is proved against
specification functions in a companion module: `VectorSpec`, `MatrixSpec`,
`TensorSpec`, `DistributionSpec`. The properties the library promises are
lemmas about those functions. Examples:

- insert-then-remove restores a vector;
- the identity is neutral for the matrix product;
- the determinant of the identity is 1;
- un-flattening inverts the flat index;
- broadcasting is symmetric and yields a shape both operands broadcast to;
- the smoothed probabilities sum to one.

Python exceptions are modelled as values: an operation that can raise returns
`Result<T>` (`Ok(value)` or `Err(error)`) or `Outcome` (`Pass` or
`Fail(error)`). The error is one of the kinds in module `Errors`:
VectorSizeMismatch, MatrixDimensionMismatch, MatrixRowMismatch,
MatrixColumnMismatch, MatrixRowColumnMismatch, MatrixNotSquare, IndexError,
ValueError, KeyError, ZeroDivisionError and TypeError. Each postcondition
also gives the state the source leaves behind when it raises part-way.

Python list indexing is modelled exactly:

- a negative index counts from the end (`VectorSpec.ListIndex`);
- `list.insert` clamps its position (`VectorSpec.InsertPosition`);
- `list.index` finds the first occurrence (`DistributionSpec.Position`).

Numbers are Dafny `real` (exact arithmetic). Counts are `int`.

Where the library's documented behaviour and its code differ, the model
follows the code:

- `insert` and `remove` are documented to fail when the position is out of
  range. The code calls `list.insert`, which clamps the position and never
  fails. It calls `list.pop`, which accepts negative positions and raises
  IndexError only beyond them.
- `l1Normalize` with a zero sum is documented to produce NaN or infinities.
  Python raises ZeroDivisionError, and the model returns that error.
- Matrix row and column counts are documented to be positive. The code
  accepts 0, and so does the model. It also accepts a negative count, which
  the model does not (see Left out).
- `columnWiseNormalize` divides each row, not each column, by its sum.
- `removeItem` does not change `sum`.
- `determinant` does not pivot, as documented. A zero pivot gives 0 even when
  a row below could be exchanged in. The model reproduces this.

The model follows the code as written everywhere except at the four defects
listed under Findings: tensor broadcasting, and the probability and entropy
of a distribution. The members built on those operations (the tensor
broadcast, element-wise and batched operations, `GetProbability` and
`Entropy`) model the evidently intended behaviour, and the code as written is
modelled beside them.

## Model

| member | source | states |
|---|---|---|
| Vectors.Vector.constructor | Math/Vector.py:21-25 | the vector holds the given values and its size counter equals their number |
| Vectors.Vector.Size | Math/Vector.py:389-390 | the size counter, which the class invariant keeps equal to the length of the list |
| Vectors.Vector.InitAllSame | Math/Vector.py:38-42 | the vector becomes `size` copies of x |
| Vectors.Vector.InitAllZerosExceptOne | Math/Vector.py:58-63 | `size` zeros with x at `index` (negative counts from the end); IndexError exactly when the index is out of range, leaving all zeros |
| Vectors.Vector.Biased | Math/Vector.py:74-79 | a fresh vector with 1.0 prepended and size one larger; the receiver is unchanged |
| Vectors.Vector.Add | Math/Vector.py:89-91 | x is appended, earlier entries unchanged, size grows by one |
| Vectors.Vector.Insert | Math/Vector.py:103-105 | x is inserted at the clamped Python position and later entries shift right; size grows by one |
| Vectors.Vector.Remove | Math/Vector.py:115-117 | the entry at the Python index is deleted and later entries shift left; IndexError exactly when the index is out of range, nothing changing |
| Vectors.Vector.Clear | Math/Vector.py:122-124 | every entry becomes 0.0 and the size is kept |
| Vectors.Vector.MaxIndex | Math/Vector.py:136-143 | the smallest index holding the maximum; IndexError exactly for the empty vector |
| Vectors.Vector.SkipVector | Math/Vector.py:170-176 | a fresh vector of the entries at the Python indices `start`, `start + mod`, ... while below the size; IndexError exactly when an index falls below `-size` first, as it always does for a negative step that enters the loop |
| Vectors.Vector.AddVector | Math/Vector.py:187-191 | VectorSizeMismatch exactly when the sizes differ (nothing changes); otherwise the entry-wise sum |
| Vectors.Vector.Subtract | Math/Vector.py:202-206 | VectorSizeMismatch exactly when the sizes differ (nothing changes); otherwise the entry-wise difference |
| Vectors.Vector.Difference | Math/Vector.py:223-229 | VectorSizeMismatch exactly when the sizes differ; otherwise a fresh vector of differences, receiver unchanged |
| Vectors.Vector.DotProduct | Math/Vector.py:246-252 | VectorSizeMismatch exactly when the sizes differ; otherwise the dot product |
| Vectors.Vector.DotProductWithSelf | Math/Vector.py:263-267 | the dot product of the vector with itself |
| Vectors.Vector.ElementProduct | Math/Vector.py:284-290 | VectorSizeMismatch exactly when the sizes differ; otherwise a fresh vector of entry-wise products |
| Vectors.Vector.Divide | Math/Vector.py:300-302 | every entry divided by the value; ZeroDivisionError exactly for 0 on a non-empty vector, nothing changing |
| Vectors.Vector.Multiply | Math/Vector.py:312-314 | every entry multiplied by the value |
| Vectors.Vector.Product | Math/Vector.py:330-334 | a fresh scaled vector; the receiver is unchanged |
| Vectors.Vector.L1Normalize | Math/Vector.py:340-345 | every entry divided by the (signed) sum; ZeroDivisionError exactly when that sum is 0 on a non-empty vector, nothing changing |
| Vectors.Vector.L2Norm | Math/Vector.py:356-360 | the square root of the dot product with itself |
| Vectors.Vector.CosineSimilarity | Math/Vector.py:376-379 | VectorSizeMismatch exactly when the sizes differ; ZeroDivisionError when either norm is 0; otherwise dot / norm / norm |
| Vectors.Vector.GetValue | Math/Vector.py:405-406 | the entry at a Python index; IndexError exactly outside `-size..size-1` |
| Vectors.Vector.SetValue | Math/Vector.py:418-419 | only the addressed entry changes; IndexError exactly when out of range, nothing changing |
| Vectors.Vector.AddValue | Math/Vector.py:431-432 | only the addressed entry grows by the value; IndexError exactly when out of range |
| VectorSpec.InsertPosition | Math/Vector.py:104 | the position `list.insert` uses is within `0..n` and is `pos` itself when that is in range |
| VectorSpec.ListIndex | Math/Vector.py:116 | a Python index designates an element exactly when `-n <= pos < n`, and then one below n |
| VectorSpec.InsertThenRemove | Math/Vector.py:103-117 | inserting at an in-range position and popping that position restores the list |
| VectorSpec.RemoveThenInsert | Math/Vector.py:103-117 | popping a position and re-inserting the popped entry there restores the list |
| VectorSpec.PlusThenMinus | Math/Vector.py:187-206 | addVector followed by subtract of the same vector restores the receiver |
| VectorSpec.DotIsSumOfTimes | Math/Vector.py:246-290 | the dot product equals the sum of the element-wise product |
| VectorSpec.DotSymmetric | Math/Vector.py:246-252 | the dot product is symmetric |
| VectorSpec.DotSelfNonNegative | Math/Vector.py:263-267 | the dot product of a vector with itself is not negative |
| VectorSpec.SumDivided | Math/Vector.py:340-345 | dividing every entry by c divides the sum by c |
| VectorSpec.SumScaled | Math/Vector.py:312-314 | multiplying every entry by c multiplies the sum by c |
| VectorSpec.L1NormalizedSumsToOne | Math/Vector.py:340-345 | after l1 normalisation with a non-zero sum the entries sum to 1 |
| VectorSpec.StridedAt | Math/Vector.py:170-176 | with a positive step from an index no lower than `-size`, the copy succeeds, entry k is `values[start + k * mod]` read as a Python index, and the copy stops at the first index past the end |
| VectorSpec.StridedFromEnd | Math/Vector.py:170-176 | a negative start reads from the end: three entries, step 1, start -2 give `[v1, v2, v0, v1, v2]` |
| Matrices.Matrix.IdentityMatrix | Math/Matrix.py:54-58 | `Matrix(n)` is the n by n identity |
| Matrices.Matrix.ZeroMatrix | Math/Matrix.py:40-45 | `Matrix(r, c)` is r by c zeros |
| Matrices.Matrix.OuterProduct | Math/Matrix.py:59-65 | `Matrix(u, v)` has entry (i, j) equal to `u[i] * v[j]` |
| Matrices.Matrix.OuterRow | Math/Matrix.py:64-65 | one row of the outer product is filled and no other row changes |
| Matrices.Matrix.DiagonalMatrix | Math/Matrix.py:46-49 | `Matrix(r, c, x)` has x on the diagonal and 0 elsewhere; IndexError exactly when r > c |
| Matrices.Matrix.InitZeros | Math/Matrix.py:67-68 | every entry becomes 0 with the dimensions kept |
| Matrices.Matrix.Clone | Math/Matrix.py:70-71 | a fresh matrix with equal dimensions and entries |
| Matrices.Matrix.RowCount | Math/Matrix.py:134-143 | the row counter is the number of rows |
| Matrices.Matrix.ColumnCount | Math/Matrix.py:163-172 | the column counter is the length of every row |
| Matrices.Matrix.GetValue | Math/Matrix.py:73-89 | the entry at two Python indices; IndexError exactly when either is out of range |
| Matrices.Matrix.SetValue | Math/Matrix.py:91-104 | only the addressed entry changes; IndexError exactly when out of range |
| Matrices.Matrix.AddValue | Math/Matrix.py:106-119 | only the addressed entry grows by the value; IndexError exactly when out of range |
| Matrices.Matrix.Increment | Math/Matrix.py:121-132 | only the addressed entry grows by one; IndexError exactly when out of range |
| Matrices.Matrix.GetRowVector | Math/Matrix.py:145-161 | a vector of the addressed row; IndexError exactly when out of range |
| Matrices.Matrix.GetColumnVector | Math/Matrix.py:174-192 | the entries of a column top to bottom; IndexError only when there is a row and the column is out of range |
| Matrices.Matrix.ColumnWiseNormalize | Math/Matrix.py:194-201 | every row divided by its own sum; ZeroDivisionError at the first non-empty row summing to 0, earlier rows normalised and the rest unchanged |
| Matrices.Matrix.MultiplyWithConstant | Math/Matrix.py:203-214 | every entry multiplied by the constant |
| Matrices.Matrix.DivideByConstant | Math/Matrix.py:216-227 | every entry divided by the constant; ZeroDivisionError exactly for 0 on a non-empty matrix, nothing changing |
| Matrices.Matrix.Add | Math/Matrix.py:229-244 | MatrixDimensionMismatch exactly when the shapes differ (nothing changes); otherwise the entry-wise sum |
| Matrices.Matrix.Subtract | Math/Matrix.py:264-279 | MatrixDimensionMismatch exactly when the shapes differ (nothing changes); otherwise the entry-wise difference |
| Matrices.Matrix.AddRowVector | Math/Matrix.py:246-262 | MatrixColumnMismatch unless the vector has one entry per column; otherwise only the addressed row changes, by the vector |
| Matrices.Matrix.MultiplyWithVectorFromLeft | Math/Matrix.py:298-306 | MatrixRowMismatch exactly when the sizes differ; otherwise entry i is the sum over j of `v[j] * M[j][i]` |
| Matrices.Matrix.MultiplyWithVectorFromRight | Math/Matrix.py:325-333 | MatrixColumnMismatch exactly when the sizes differ; otherwise entry i is the sum over j of `v[j] * M[i][j]` |
| Matrices.Matrix.ColumnSum | Math/Matrix.py:350-353 | the sum of a column; IndexError only when there is a row and the column is out of range |
| Matrices.Matrix.SumOfRows | Math/Matrix.py:365-368 | a fresh vector holding every column sum |
| Matrices.Matrix.RowSum | Math/Matrix.py:377 | the sum of the addressed row; IndexError exactly when out of range |
| Matrices.Matrix.Multiply | Math/Matrix.py:396-405 | MatrixRowColumnMismatch exactly when col differs from m.row; otherwise a fresh row by m.col matrix with entry (i, j) the sum over k of `A[i][k] * B[k][j]` |
| Matrices.Matrix.MultiplyRow | Math/Matrix.py:400-404 | one row of the product is filled and no other row of the result changes |
| Matrices.Matrix.RowTimesColumn | Math/Matrix.py:402-403 | the accumulated `total` is the dot product of a row and a column |
| Matrices.Matrix.ElementProduct | Math/Matrix.py:423-429 | MatrixDimensionMismatch exactly when the shapes differ; otherwise a fresh entry-wise product |
| Matrices.Matrix.ElementProductRow | Math/Matrix.py:427-428 | one row of the entry-wise product is filled and no other row changes |
| Matrices.Matrix.SumOfElements | Math/Matrix.py:441-444 | the sum of all entries, which equals the sum of the row sums and the sum of the column sums |
| Matrices.Matrix.Trace | Math/Matrix.py:455-460 | MatrixNotSquare exactly for a non-square matrix; otherwise the diagonal sum |
| Matrices.Matrix.Transpose | Math/Matrix.py:472-476 | a fresh col by row matrix with entry (j, i) equal to entry (i, j) |
| Matrices.Matrix.Partial | Math/Matrix.py:500-504 | a fresh (rowEnd - rowStart + 1) by (colEnd - colStart + 1) block with entry (i - rowStart, j - colStart) equal to entry (i, j) |
| Matrices.Matrix.IsSymmetric | Math/Matrix.py:516-522 | MatrixNotSquare exactly for a non-square matrix; otherwise true iff entry (i, j) equals entry (j, i) for all i, j |
| Matrices.Matrix.Determinant | Math/Matrix.py:535-547 | MatrixNotSquare exactly for a non-square matrix; otherwise the product of the pivots of forward elimination without pivoting, stopping at the first zero |
| Matrices.SubtractPivotRow | Math/Matrix.py:544-546 | row j loses ratio times the pivot row from the pivot column on; no other row changes |
| Matrices.EliminateRowsBelow | Math/Matrix.py:543-546 | the elimination step clears the pivot column below the pivot on a copy |
| MatrixSpec.LeadingNonZeroRows | Math/Matrix.py:199-201 | the number of leading rows with non-zero sum: all rows before it have one, the row at it does not |
| MatrixSpec.TransposeTwice | Math/Matrix.py:472-476 | transposing twice gives the original matrix |
| MatrixSpec.AddThenSubtract | Math/Matrix.py:229-279 | add(m) then subtract(m) restores the matrix |
| MatrixSpec.MulIdentityRight | Math/Matrix.py:396-405 | the identity is neutral on the right of the product |
| MatrixSpec.MulIdentityLeft | Math/Matrix.py:396-405 | the identity is neutral on the left of the product |
| MatrixSpec.VecMatIsMatVecOfTranspose | Math/Matrix.py:298-333 | multiplying from the left equals multiplying the transpose from the right |
| MatrixSpec.SumPlus | Math/Matrix.py:365-368 | the sum of an entry-wise sum is the sum of the sums |
| MatrixSpec.GridSumIsSumOfColumnSums | Math/Matrix.py:441-444 | the sum of all entries equals the sum of the column sums |
| MatrixSpec.ColumnSumsLastRow | Math/Matrix.py:350-353 | the column sums of a matrix are those of all rows but the last plus the last row |
| MatrixSpec.SumFillZero | Math/Matrix.py:67-68 | a row of zeros sums to 0 |
| MatrixSpec.GridSumIsSumOfRowSums | Math/Matrix.py:441-444 | the sum of all entries equals the sum of the row sums |
| MatrixSpec.TraceIdentity | Math/Matrix.py:455-460 | the trace of the n by n identity is n |
| MatrixSpec.TransposeKeepsDiagonal | Math/Matrix.py:472-476 | transposing keeps the diagonal, hence the trace |
| MatrixSpec.NormalizedRowSumsToOne | Math/Matrix.py:199-201 | a row with non-zero sum sums to 1 after normalisation |
| MatrixSpec.RowNormalizedIdempotent | Math/Matrix.py:199-201 | normalising a row twice is normalising it once |
| MatrixSpec.EliminateUpperTriangular | Math/Matrix.py:543-546 | elimination leaves an upper-triangular matrix unchanged |
| MatrixSpec.DiagProductOfZero | Math/Matrix.py:541-542 | a pivot product that reached 0 stays 0 |
| MatrixSpec.DetFromUpperTriangular | Math/Matrix.py:540-546 | on an upper-triangular matrix the elimination loop multiplies exactly the diagonal entries |
| MatrixSpec.DeterminantUpperTriangular | Math/Matrix.py:535-547 | the determinant of an upper-triangular matrix is the product of its diagonal |
| MatrixSpec.DiagProductIdentity | Math/Matrix.py:540-542 | the diagonal product of the identity is 1 |
| MatrixSpec.DeterminantIdentity | Math/Matrix.py:535-547 | the determinant of the identity is 1 |
| Tensors.Tensor.constructor | Math/Tensor.py:25-27 | a tensor with the given flat data and shape |
| Tensors.Tensor.Create | Math/Tensor.py:9-27 | ValueError exactly when the product of the (given or inferred) shape differs from the number of flattened leaves; otherwise the flattened data with that shape |
| Tensors.Tensor.ComputeStrides | Math/Tensor.py:53-65 | the loop computes the row-major strides |
| Tensors.Tensor.ComputeNumElements | Math/Tensor.py:67-77 | the loop computes the product of the shape |
| Tensors.Tensor.UnflattenIndex | Math/Tensor.py:157-169 | the loop computes the mixed-radix digits of the flat index |
| Tensors.Tensor.FlatIndexOf | Math/Tensor.py:98 | the flat index is the sum of index times stride |
| Tensors.Tensor.ValidateIndices | Math/Tensor.py:79-88 | IndexError exactly unless there is one index per dimension, each within `0..shape[i]-1` |
| Tensors.Tensor.Get | Math/Tensor.py:90-99 | the element at a valid index; IndexError exactly for an invalid one |
| Tensors.Tensor.Set | Math/Tensor.py:101-110 | only the addressed element changes; IndexError exactly for an invalid index, nothing changing |
| Tensors.Tensor.Reshape | Math/Tensor.py:112-121 | ValueError exactly when the element count changes; otherwise the same flat data with the new shape |
| Tensors.Tensor.Transpose | Math/Tensor.py:123-137 | ValueError exactly unless the axes (reversed by default) are a permutation; otherwise shape[i] = old shape[axes[i]] and each element is read through the permuted index |
| Tensors.Tensor.CheckAxes | Math/Tensor.py:132 | the sorted-axes test holds exactly for a permutation of the dimensions |
| Tensors.Tensor.TransposeFlattenedData | Math/Tensor.py:139-155 | the loop builds the transposed buffer |
| Tensors.Tensor.BroadcastShape | Math/Tensor.py:171-193 | the broadcast of two shapes, or ValueError exactly when a right-aligned pair is unequal with neither 1 (the corrected broadcasting, see Findings) |
| Tensors.Tensor.BroadcastTo | Math/Tensor.py:195-214 | ValueError exactly unless every right-aligned dimension is 1 or the target's; otherwise a tensor of the target shape whose elements read the source at the broadcast index (the corrected broadcasting, see Findings) |
| Tensors.Tensor.FitsBroadcast | Math/Tensor.py:202-204 | the shape test of broadcast_to, right-aligned: it agrees with the source's left-aligned test whenever the target has at least as many dimensions (the corrected broadcasting, see Findings) |
| Tensors.Tensor.BroadcastBuffer | Math/Tensor.py:206-212 | the loop builds the broadcast buffer |
| Tensors.Tensor.BroadcastOperands | Math/Tensor.py:223-225 | both operands broadcast to the common shape, or ValueError exactly when there is none (the corrected broadcasting, see Findings) |
| Tensors.Tensor.Add | Math/Tensor.py:216-231 | ValueError exactly when the shapes do not broadcast; otherwise each element is the sum of the broadcast operands there (the corrected broadcasting, see Findings) |
| Tensors.Tensor.Subtract | Math/Tensor.py:233-248 | as Add with the difference (the corrected broadcasting, see Findings) |
| Tensors.Tensor.HadamardProduct | Math/Tensor.py:250-265 | as Add with the product (the corrected broadcasting, see Findings) |
| Tensors.Tensor.Elementwise | Math/Tensor.py:226-230 | the comprehension applies the operator position by position |
| Tensors.Tensor.ReadFlat | Math/Tensor.py:227-228 | reading at an in-range flat position |
| Tensors.Tensor.Multiply | Math/Tensor.py:267-312 | IndexError when either shape is too short to index; ValueError when the inner dimensions differ or the batch shapes do not broadcast; a result has shape batch + (m, n) with each element the sum over k of a[..., row, k] * b[..., k, col] (the corrected broadcasting, see Findings) |
| Tensors.Tensor.MultiplyAligned | Math/Tensor.py:279-312 | the batched product once the inner dimensions agree (the corrected broadcasting, see Findings) |
| Tensors.Tensor.ProductBuffer | Math/Tensor.py:296-310 | the outer loop builds the product buffer |
| Tensors.Tensor.BatchOperands | Math/Tensor.py:286-294 | both operands broadcast to the batch shape followed by their own matrix dimensions (the corrected broadcasting, see Findings) |
| Tensors.Tensor.BatchedDot | Math/Tensor.py:304-308 | the inner loop accumulates one product entry |
| Tensors.Tensor.DotStep | Math/Tensor.py:306-308 | one step of the inner accumulation |
| Tensors.Tensor.ReadBroadcast | Math/Tensor.py:308 | reading a broadcast operand at a valid index reads the source at the broadcast index |
| Tensors.Tensor.PartialBuffer | Math/Tensor.py:329-333 | the loop reads each element at start + offset, or IndexError at the first offset outside the tensor |
| Tensors.Tensor.Partial | Math/Tensor.py:314-335 | ValueError unless start and end have one entry per dimension; otherwise shape end - start, element at o equal to the original at start + o, and IndexError exactly when a non-empty block leaves the tensor |
| TensorSpec.Reverse | Math/Tensor.py:193 | entry i of the reversal is entry n-1-i |
| TensorSpec.DefaultAxes | Math/Tensor.py:131 | the default axes list the dimensions from last to first |
| TensorSpec.IndexOf | Math/Tensor.py:152 | `axes.index(d)` is the first position holding d |
| TensorSpec.BroadcastAssembled | Math/Tensor.py:183-193 | the aligned dimensions followed by the longer shape's leading dimensions, reversed, are the broadcast shape |
| TensorSpec.ProductSnoc | Math/Tensor.py:74-77 | one more dimension multiplies the element count by it |
| TensorSpec.ProductPositive | Math/Tensor.py:60-65 | a non-empty tensor has positive dimensions and positive strides |
| TensorSpec.StridesTail | Math/Tensor.py:60-65 | the first stride is the product of the later dimensions; the rest are the strides of the tail |
| TensorSpec.StridesStep | Math/Tensor.py:60-65 | the last stride is 1 and strides[i] = strides[i+1] * shape[i+1] |
| TensorSpec.FlatIndexInRange | Math/Tensor.py:97-99 | a valid index has a flat index within the data |
| TensorSpec.UnflattenRoundTrip | Math/Tensor.py:157-169 | un-flattening a flat index below the element count gives a valid index that flattens back to it |
| TensorSpec.ValidIndexCons | Math/Tensor.py:83-88 | validity of an index splits into its first component and the rest |
| TensorSpec.FlattenRoundTrip | Math/Tensor.py:157-169 | un-flattening the flat index of a valid index gives that index back |
| TensorSpec.FlatIndexInjective | Math/Tensor.py:108-110 | distinct valid indices address distinct flat slots |
| TensorSpec.FlatIndexOfZeros | Math/Tensor.py:98 | the zero index has flat index 0 |
| TensorSpec.FlatIndexOfLast | Math/Tensor.py:98 | the last index is valid and has flat index count - 1 |
| TensorSpec.FlattenFromLength | Math/Tensor.py:49-51 | flattening equally shaped children gives their count times the child size |
| TensorSpec.RegularFlattenLength | Math/Tensor.py:29-51 | a regular nested list flattens to as many leaves as its inferred shape counts |
| TensorSpec.DefaultAxesIsPermutation | Math/Tensor.py:130-133 | the default axes pass the permutation test |
| TensorSpec.DefaultAxesTwice | Math/Tensor.py:130-135 | transposing a shape twice with the default axes gives it back |
| TensorSpec.UnpermuteValid | Math/Tensor.py:150-153 | every index of the transposed shape maps to a valid index of the original |
| TensorSpec.BroadcastSymmetric | Math/Tensor.py:171-193 | broadcasting is symmetric in its arguments |
| TensorSpec.BroadcastIsCommonTarget | Math/Tensor.py:171-193 | the broadcast shape has the longer length and both shapes broadcast to it |
| TensorSpec.BroadcastableIffCommonTarget | Math/Tensor.py:171-204 | two shapes broadcast exactly when some shape is a target of both |
| TensorSpec.SourceIndexValid | Math/Tensor.py:209-212 | the source index read by a broadcast is valid for the source |
| TensorSpec.SourceIndexSameShape | Math/Tensor.py:209-212 | broadcasting to its own shape reads every index unchanged |
| TensorSpec.BroadcastAsWrittenCounterexample | Math/Tensor.py:186-187 | shapes (1,) and (0,) combine to (1,) as written, to which (0,) does not broadcast; the intended broadcast is (0,) |
| TensorSpec.Updated | Math/Tensor.py:108-110 | set keeps the data length |
| TensorSpec.ElementAfterUpdate | Math/Tensor.py:101-110 | after set, get returns the new value at that index and the old value elsewhere |
| TensorSpec.TransposedDataAt | Math/Tensor.py:147-155 | each element of the transposed buffer is the original read through the permuted index |
| TensorSpec.UnpermuteDefault | Math/Tensor.py:131-152 | with the default axes the original index is the reversed one |
| TensorSpec.BroadcastDataAt | Math/Tensor.py:206-212 | each element of the broadcast buffer is read from its source index |
| TensorSpec.ElementwiseAt | Math/Tensor.py:226-230 | an element-wise result combines the broadcast reads of both operands at every index |
| TensorSpec.BroadcastReadSameShape | Math/Tensor.py:209-212 | reading a tensor broadcast to its own shape is reading it |
| TensorSpec.BroadcastDataSelf | Math/Tensor.py:206-214 | broadcasting to its own shape keeps the data |
| TensorSpec.BroadcastSelf | Math/Tensor.py:183-185 | a shape broadcast with itself is itself |
| TensorSpec.BroadcastsToAppend | Math/Tensor.py:289-290 | appending the same matrix dimensions keeps a shape a broadcast target |
| TensorSpec.ValidIndexAppend | Math/Tensor.py:306-307 | a batch index followed by a matrix index is valid for the joined shape |
| TensorSpec.ValidIndexSplit | Math/Tensor.py:301-302 | a valid index splits into batch and matrix parts |
| TensorSpec.BroadcastToAsWrittenCounterexample | Math/Tensor.py:202-212 | broadcast_to from (1,) to (2, 1) raises IndexError as written, while the shape does broadcast and the intended result holds the element twice |
| TensorSpec.BroadcastColumnOfTwo | Math/Tensor.py:206-212 | the intended broadcast of a one-element tensor to (2, 1) repeats the element |
| TensorSpec.BatchShapeFits | Math/Tensor.py:286-294 | both operands broadcast to the batch shape followed by their matrix dimensions |
| TensorSpec.MatMulDataAt | Math/Tensor.py:296-312 | each element of the product buffer is the batched dot product at its index |
| TensorSpec.PartialShape | Math/Tensor.py:326 | the sub-tensor shape is end - start per dimension |
| TensorSpec.OffsetValid | Math/Tensor.py:330-333 | every offset of an in-bounds block addresses a valid element |
| TensorSpec.OffsetInvalid | Math/Tensor.py:330-333 | an out-of-bounds non-empty block has its first or its last offset outside the tensor |
| TensorSpec.PartialInBounds | Math/Tensor.py:330-333 | a non-empty block whose every offset is valid lies within the tensor |
| Distributions.DiscreteDistribution.constructor | Math/DiscreteDistribution.py:11-13 | an empty table with sum 0 |
| Distributions.DiscreteDistribution.AddItem | Math/DiscreteDistribution.py:24-29 | the item's count grows by 1, a new item going last; sum and the total of the counts grow by 1 |
| Distributions.DiscreteDistribution.RemoveItem | Math/DiscreteDistribution.py:40-44 | an absent item changes nothing; otherwise the count drops by 1 and the key goes at 0; sum is unchanged while the total drops by 1 |
| Distributions.DiscreteDistribution.AddCount | Math/DiscreteDistribution.py:58-62 | one entry of addDistribution: the count grows by v (a new key goes last) and sum by v |
| Distributions.DiscreteDistribution.TakeCount | Math/DiscreteDistribution.py:76-80 | one entry of removeDistribution: the count drops by v, the key goes at exactly 0, and sum drops by v |
| Distributions.DiscreteDistribution.AddEntryAt | Math/DiscreteDistribution.py:57-62 | one loop step of addDistribution extends the merged prefix by one key |
| Distributions.DiscreteDistribution.AddDistribution | Math/DiscreteDistribution.py:56-62 | every count of the other is added, its new keys appended in its order; sum grows by the other's total |
| Distributions.DiscreteDistribution.TakeEntryAt | Math/DiscreteDistribution.py:75-80 | one loop step of removeDistribution; KeyError exactly when the key is absent, nothing changing |
| Distributions.DiscreteDistribution.RemoveDistribution | Math/DiscreteDistribution.py:74-80 | the other's counts are subtracted in its order up to its first key absent here, which raises KeyError; keys reaching 0 go; sum drops by the subtracted total |
| Distributions.DiscreteDistribution.GetIndex | Math/DiscreteDistribution.py:106-107 | the insertion position of a stored item; ValueError exactly for an absent one |
| Distributions.DiscreteDistribution.ContainsItem | Math/DiscreteDistribution.py:123-124 | true exactly for a stored item |
| Distributions.DiscreteDistribution.GetItem | Math/DiscreteDistribution.py:139-140 | the key at a Python index in insertion order; IndexError exactly when out of range |
| Distributions.DiscreteDistribution.GetValue | Math/DiscreteDistribution.py:155-156 | the count of the key at that index, so getValue(i) is getCount(getItem(i)) |
| Distributions.DiscreteDistribution.GetCount | Math/DiscreteDistribution.py:171-172 | the stored count; KeyError exactly for an absent item |
| Distributions.DiscreteDistribution.GetMaxItem | Math/DiscreteDistribution.py:182-189 | the first key with the largest count, or "" when no count exceeds -1 |
| Distributions.DiscreteDistribution.GetMaxItemIncludeTheseOnly | Math/DiscreteDistribution.py:205-215 | the first listed item with the largest count, absent items counting 0, or "" when no count exceeds -1 |
| Distributions.DiscreteDistribution.GetProbability | Math/DiscreteDistribution.py:231-235 | count over sum for a stored item, 0.0 otherwise; ZeroDivisionError exactly for a stored item with sum 0 (the corrected division, see Findings) |
| Distributions.DiscreteDistribution.LaplaceProbability | Math/DiscreteDistribution.py:250-254 | (count + 1) / (sum + number of items + 1), count 0 when absent; ZeroDivisionError exactly when that denominator is 0 |
| Distributions.DiscreteDistribution.Entropy | Math/DiscreteDistribution.py:264-269 | the sum of -p * log2(p) over the items in order; ZeroDivisionError when there is an item and sum is 0; ValueError when a p is not positive (the corrected division, see Findings) |
| Distributions.TotalPrefix | Math/DiscreteDistribution.py:62 | the total over one more key grows by that key's count |
| Distributions.RemoveStep | Math/DiscreteDistribution.py:75 | the next key of a distinct key list is not among the earlier ones |
| Distributions.AddStep | Math/DiscreteDistribution.py:57-61 | the keys appended by the merge grow by the next key exactly when it is new |
| Distributions.MemberAt | Math/DiscreteDistribution.py:57 | every listed key is a member |
| Distributions.FirstMissingAt | Math/DiscreteDistribution.py:75-76 | the first position whose key is absent is where the KeyError is raised |
| Distributions.FirstMissingPast | Math/DiscreteDistribution.py:75-76 | a present key before the first absent one moves that position past it |
| Distributions.LaplaceMassSmoothed | Math/DiscreteDistribution.py:250-254 | the summed smoothed probabilities are the smoothed masses of the counts |
| Distributions.LaplaceSumsToOneFor | Math/DiscreteDistribution.py:250-254 | while sum equals the total, the smoothed probabilities of the stored items plus that of an unseen item add up to 1 |
| Distributions.ProbabilityMassOfIsMass | Math/DiscreteDistribution.py:231-235 | the summed probabilities are the relative frequencies of the counts |
| Distributions.ProbabilitiesSumToOneFor | Math/DiscreteDistribution.py:231-235 | while sum equals the total and is not 0, the probabilities of the stored items add up to 1 |
| Distributions.EntropyNonNegativeFor | Math/DiscreteDistribution.py:264-269 | with positive counts totalling sum, the entropy is defined and not negative |
| Distributions.IndexItemInverse | Math/DiscreteDistribution.py:106-107 | getItem(getIndex(x)) is x and getIndex(getItem(i)) is i |
| DistributionSpec.FirstMissing | Math/DiscreteDistribution.py:75-76 | the position of the first key not present, every earlier one being present |
| DistributionSpec.Position | Math/DiscreteDistribution.py:107 | `list.index` finds the first occurrence, and finds one exactly when the item is listed |
| DistributionSpec.TotalAppend | Math/DiscreteDistribution.py:62 | appending a key adds its count to the total |
| DistributionSpec.TotalUnlisted | Math/DiscreteDistribution.py:26-28 | changing or removing an unlisted key leaves the total alone |
| DistributionSpec.TotalUpdate | Math/DiscreteDistribution.py:26 | changing a listed key's count moves the total by the difference |
| DistributionSpec.TotalDrop | Math/DiscreteDistribution.py:43-44 | popping a listed key lowers the total by its count |
| DistributionSpec.AddCountsStep | Math/DiscreteDistribution.py:58-61 | merging one more key adds its count to the merged map |
| DistributionSpec.TakeCountsStep | Math/DiscreteDistribution.py:76-79 | subtracting one more key lowers its count, or pops it at exactly 0 |
| DistributionSpec.AddCountsMeaning | Math/DiscreteDistribution.py:56-62 | after addDistribution a key is stored exactly when it was stored or is the other's, with the two counts added |
| DistributionSpec.TakeCountsMeaning | Math/DiscreteDistribution.py:74-80 | after removeDistribution a key is stored exactly when it was and did not reach 0, with the other's count subtracted |
| DistributionSpec.MembersMeaning | Math/DiscreteDistribution.py:124 | membership in the key set is membership in the key list |
| DistributionSpec.MembersAppend | Math/DiscreteDistribution.py:28 | appending a key adds it to the key set |
| DistributionSpec.MembersDrop | Math/DiscreteDistribution.py:44 | dropping keys removes them from the key set |
| DistributionSpec.DistinctIndices | Math/DiscreteDistribution.py:6 | the key order lists no key twice |
| DistributionSpec.DistinctPrefix | Math/DiscreteDistribution.py:57 | a prefix of a distinct key list is distinct |
| DistributionSpec.DropMembers | Math/DiscreteDistribution.py:44 | a key survives a drop exactly when it was listed and not dropped |
| DistributionSpec.DropNothing | Math/DiscreteDistribution.py:44 | dropping keys that are not listed changes nothing |
| DistributionSpec.DropTwice | Math/DiscreteDistribution.py:79 | dropping one more key is dropping the larger set |
| DistributionSpec.DropDistinct | Math/DiscreteDistribution.py:44 | dropping keys keeps the key order distinct |
| DistributionSpec.EmptiedStep | Math/DiscreteDistribution.py:76-79 | the keys popped grow by the next key exactly when its count reaches 0 |
| DistributionSpec.SmoothedMassTotal | Math/DiscreteDistribution.py:250-254 | the smoothed masses add up to (total + number of keys) / denominator |
| DistributionSpec.LaplaceSumsToOne | Math/DiscreteDistribution.py:250-254 | while sum equals the total, the smoothed masses and one unseen item's mass add up to 1 |
| DistributionSpec.EntropyStep | Math/DiscreteDistribution.py:266-268 | one more item adds its entropy term and its positivity condition |
| DistributionSpec.EntropyDefinedPrefix | Math/DiscreteDistribution.py:266-268 | once a frequency is not positive, the whole entropy is undefined |
| DistributionSpec.ProbabilityMassTotal | Math/DiscreteDistribution.py:231-235 | the relative frequencies add up to total / denominator |
| DistributionSpec.ProbabilitiesSumToOne | Math/DiscreteDistribution.py:231-235 | when sum equals the total and is not 0, the relative frequencies add up to 1 |
| DistributionSpec.EntropyNonNegative | Math/DiscreteDistribution.py:264-269 | with frequencies in (0, 1] and a logarithm not positive there, the entropy is defined and not negative |
| DistributionSpec.CountAtMostTotal | Math/DiscreteDistribution.py:264-269 | each of a list of positive counts is at most their total |
| DistributionSpec.TotalNonNegative | Math/DiscreteDistribution.py:264-269 | a total of positive counts is not negative |
| DistributionSpec.BuiltinSumCounterexample | Math/DiscreteDistribution.py:233 | for a one-item table, getProbability and entropy raise TypeError as written, while the intended probability is 1 and the intended entropy is 0 |

The arithmetic helper lemmas VectorSpec.MulStep, MatrixSpec.DotZeros, MatrixSpec.DotUnit and the remaining step lemmas of TensorSpec and DistributionSpec without a row only support the proofs above.

## Left out

- Math/Distribution.py is not part of this model. Its special functions are floating-point approximations built on exp, log, sqrt and atan, with tuned coefficients and tolerance-driven bisection loops.
- Matrix.choleskyDecomposition, characteristics and __rotate (Math/Matrix.py:611-736) are left out. They depend on sqrt and on iteration driven by floating-point thresholds.
- Matrix.inverse (Math/Matrix.py:549-609) is left out. It is full-pivot Gauss-Jordan elimination chosen by floating-point magnitude comparisons.
- The random-fill constructor mode (Math/Matrix.py:50-53) is left out because it reads the global random generator.
- Vector.sigmoid (Math/Vector.py:149-151) is left out because it needs exp.
- Vectors.Vector.L2Norm and Vectors.Vector.CosineSimilarity: the square root is a parameter, not math.sqrt, so their contracts hold for whatever function is supplied.
- Distributions.DiscreteDistribution.Entropy: log2 is a parameter, not math.log2. Its non-negativity lemma assumes a logarithm that is not positive on (0, 1].
- Tensor.__repr__ (Math/Tensor.py:337-350) is left out; it only formats a string.
- Math/Eigenvector.py and the stale top-level copies Matrix.py, Vector.py, Distribution.py and Eigenvector.py are not part of this model.
- Floating point: numbers are exact reals. Rounding, NaN, infinities and overflow are not modelled. An equality test in the source, such as a zero pivot or a zero sum, is exact in the model.
- Aliasing: the Vector constructor and Matrix.getRowVector share the caller's or the matrix's list in the source. The model copies the values, so later updates through the other reference are not reflected.
- Matrices.Matrix.Partial requires `rowStart <= rowEnd + 1 <= row` and the same for columns. The model does not cover the IndexError or the negative-index wrap-around that out-of-range bounds cause in the source.
- Tensors.Tensor.Partial requires `start[i] <= end[i]` when both have one entry per dimension. The source would build a negative dimension there.
- Tensors.Tensor.UnflattenIndex requires positive strides. Zero strides arise only for tensors without elements, where the source never calls it.
- Vectors.Vector.SkipVector requires `mod != 0` whenever `start` lies within `-size..size-1`. There the source's loop reads an entry and never ends, because the index does not move. Every other step and start is modelled, including negative ones.
- Vectors.Vector.InitAllSame, Vectors.Vector.InitAllZerosExceptOne, Matrices.Matrix.IdentityMatrix, Matrices.Matrix.ZeroMatrix and Matrices.Matrix.DiagonalMatrix take sizes as `nat`. A negative size is not modelled. The source stores such a size as a negative counter beside an empty list, and `initAllZerosExceptOne` then raises IndexError at any index.
- Tensors.Tensor.Create takes a nested list built from the `Nested` datatype. Shapes and indices are `nat` and `int` sequences, so a negative dimension in a given shape is not modelled.
- Tensors.Tensor.Transpose: an absent axes argument and the empty tuple both fall back to the reversed axes, as `not axes` does in the source. Both are the empty sequence in the model.
- Distributions.DiscreteDistribution.constructor: the keyword-argument initial entries of the OrderedDict constructor are not modelled. The table starts empty.
- Distributions.DiscreteDistribution.AddDistribution and Distributions.DiscreteDistribution.RemoveDistribution require the argument to be a different table. Merging a table into itself while iterating over it is not modelled.
- Distributions.DiscreteDistribution.GetSum returns the stored running sum and has no contract of its own. How sum moves is stated by the updating methods.
- The running sum is an `int`. The source starts it at the float 0.0, so getSum returns a float.

## Findings

| source | as written | input that shows it | evidently intended | confidence | as-written member | corrected member |
|---|---|---|---|---|---|---|
| Math/Tensor.py:186-187 | `_broadcast_shape` combines a dimension of 1 with the other dimension using `max` | shapes (1,) and (0,): the result is (1,), and (0,) cannot be broadcast to it, so `add` then raises ValueError | a dimension of 1 takes the other dimension, so the result is (0,), as in NumPy | medium, not executed | TensorSpec.BroadcastAsWrittenCounterexample | TensorSpec.BroadcastIsCommonTarget |
| Math/Tensor.py:202-212 | `broadcast_to` reads each element with one index per target dimension, and `get` requires one index per source dimension | a tensor of shape (1,) broadcast to (2, 1) raises IndexError; the same happens in `add`, `subtract`, `hadamardProduct` and batched `multiply` whenever the ranks differ and the target has elements; a target with fewer dimensions can also pass the left-aligned shape test, so (2, 3) is accepted against (2,) | the leading target dimensions are dropped from the index, and the result repeats the element | high, not executed | TensorSpec.BroadcastToAsWrittenCounterexample | Tensors.Tensor.BroadcastTo |
| Math/DiscreteDistribution.py:233 | `getProbability` divides a count by Python's builtin `sum` function | any stored item, e.g. a table holding "a" once, raises TypeError | the count divided by the running sum (0.5 for an item held 3 times out of 6) | high, not executed | DistributionSpec.BuiltinSumCounterexample | Distributions.ProbabilitiesSumToOneFor |
| Math/DiscreteDistribution.py:267 | `entropy` divides each count by the builtin `sum` function | any non-empty table raises TypeError | each count divided by the running sum, giving the Shannon entropy | high, not executed | DistributionSpec.BuiltinSumCounterexample | Distributions.EntropyNonNegativeFor |
