/** The dense matrix of numbers: a grid of rows that its methods rewrite in
    place, or read to fill fresh matrices and vectors. */
module Matrices {
  import opened Errors
  import opened VectorSpec
  import opened MatrixSpec
  import opened Vectors

  class Matrix {
    var row: int
    var col: int
    var values: seq<seq<real>>

    /** The row and column counters describe the grid. */
    ghost predicate Valid()
      reads this
    {
      row >= 0 && col >= 0 && IsMatrix(values, row, col)
    }

    /** `Matrix(n)`: the n by n identity. */
    constructor IdentityMatrix(n: nat)
      ensures Valid() && row == n && col == n && values == Identity(n)
    {
      row := n;
      col := n;
      values := [];
      new;
      InitZeros();
      for i := 0 to n
        invariant Valid() && row == n && col == n
        invariant forall a, b :: 0 <= a < n && 0 <= b < n ==> values[a][b] == if a == b && a < i then 1.0 else 0.0
      {
        values := values[i := values[i][i := 1.0]];
      }
      assert forall a :: 0 <= a < n ==> values[a] == Identity(n)[a];
    }

    /** `Matrix(r, c)`: r by c zeros. */
    constructor ZeroMatrix(r: nat, c: nat)
      ensures Valid() && row == r && col == c && values == Zeros(r, c)
    {
      row := r;
      col := c;
      values := [];
      new;
      InitZeros();
    }

    /** `Matrix(u, v)` for two vectors: the outer product, entry (i, j) being `u[i] * v[j]`. */
    constructor OuterProduct(u: Vector, v: Vector)
      requires u.Valid() && v.Valid()
      ensures Valid() && row == u.size && col == v.size && values == Outer(u.values, v.values)
    {
      row := u.size;
      col := v.size;
      values := [];
      new;
      InitZeros();
      for i := 0 to row
        invariant Valid() && row == u.size && col == v.size
        invariant forall a, b :: 0 <= a < i && 0 <= b < col ==> values[a][b] == u.values[a] * v.values[b]
      {
        OuterRow(u, v, i);
      }
      forall a | 0 <= a < row
        ensures values[a] == Outer(u.values, v.values)[a]
      {
        assert forall b :: 0 <= b < col ==> values[a][b] == Outer(u.values, v.values)[a][b];
      }
    }

    /** Row i of the outer product of `u` and `v`, written entry by entry. */
    method OuterRow(u: Vector, v: Vector, i: nat)
      requires Valid() && u.Valid() && v.Valid() && row == u.size && col == v.size && i < row
      modifies this
      ensures Valid() && row == old(row) && col == old(col)
      ensures forall a :: 0 <= a < row && a != i ==> values[a] == old(values[a])
      ensures forall b :: 0 <= b < col ==> values[i][b] == u.values[i] * v.values[b]
    {
      for j := 0 to col
        invariant Valid() && row == old(row) && col == old(col)
        invariant forall a :: 0 <= a < row && a != i ==> values[a] == old(values[a])
        invariant forall b :: 0 <= b < j ==> values[i][b] == u.values[i] * v.values[b]
      {
        values := values[i := values[i][j := u.values[i] * v.values[j]]];
      }
    }

    /** `Matrix(r, c, x)`: x on the diagonal and zero elsewhere. Writing the
        diagonal runs past the last column when there are more rows than
        columns, which raises IndexError. */
    static method DiagonalMatrix(r: nat, c: nat, x: real) returns (res: Result<Matrix>)
      ensures res.Err? <==> r > c
      ensures res.Err? ==> res.error == IndexError
      ensures res.Ok? ==> (fresh(res.value) && res.value.Valid()
        && res.value.row == r && res.value.col == c && res.value.values == Diagonal(r, c, x))
    {
      var m := new Matrix.ZeroMatrix(r, c);
      for i := 0 to r
        invariant m.Valid() && m.row == r && m.col == c && i <= c
        invariant forall a, b :: 0 <= a < r && 0 <= b < c ==> m.values[a][b] == if a == b && a < i then x else 0.0
      {
        if i >= c {
          return Err(IndexError);
        }
        m.values := m.values[i := m.values[i][i := x]];
      }
      assert forall a :: 0 <= a < r ==> m.values[a] == Diagonal(r, c, x)[a];
      res := Ok(m);
    }

    /** Resets every entry to zero, keeping the dimensions. */
    method InitZeros()
      requires row >= 0 && col >= 0
      modifies this
      ensures Valid() && row == old(row) && col == old(col) && values == Zeros(row, col)
    {
      values := Zeros(row, col);
    }

    /** A deep copy: equal contents, sharing nothing with this matrix. */
    method Clone() returns (r: Matrix)
      requires Valid()
      ensures fresh(r) && r.Valid() && r.row == row && r.col == col && r.values == values
    {
      r := new Matrix.ZeroMatrix(row, col);
      r.values := values;
    }

    /** The row counter, which is the number of rows of the grid. */
    function RowCount(): (n: nat)
      reads this
      requires Valid()
      ensures n == |values|
    {
      row
    }

    /** The column counter, which is the length of every row. */
    function ColumnCount(): (n: nat)
      reads this
      requires Valid()
      ensures forall i :: 0 <= i < |values| ==> |values[i]| == n
    {
      col
    }

    /** Entry (rowNo, colNo), either index counting from the end when negative;
        IndexError when either is out of range. */
    function GetValue(rowNo: int, colNo: int): (r: Result<real>)
      reads this
      requires Valid()
      ensures r.Ok? <==> -row <= rowNo < row && -col <= colNo < col
      ensures r.Err? ==> r.error == IndexError
      ensures r.Ok? ==> r.value == values[if rowNo < 0 then rowNo + row else rowNo][if colNo < 0 then colNo + col else colNo]
    {
      match (ListIndex(rowNo, row), ListIndex(colNo, col))
      case (Some(i), Some(j)) => Ok(values[i][j])
      case _ => Err(IndexError)
    }

    /** Overwrites entry (rowNo, colNo); nothing else changes. */
    method SetValue(rowNo: int, colNo: int, value: real) returns (o: Outcome)
      requires Valid()
      modifies this
      ensures Valid() && row == old(row) && col == old(col)
      ensures o.Pass? <==> ListIndex(rowNo, row).Some? && ListIndex(colNo, col).Some?
      ensures o.Fail? ==> o.error == IndexError && values == old(values)
      ensures o.Pass? ==> var i, j := ListIndex(rowNo, row).value, ListIndex(colNo, col).value;
        values == old(values)[i := old(values)[i][j := value]]
    {
      match (ListIndex(rowNo, row), ListIndex(colNo, col))
      case (Some(i), Some(j)) =>
        values := values[i := values[i][j := value]];
        o := Pass;
      case _ =>
        o := Fail(IndexError);
    }

    /** Adds `value` to entry (rowNo, colNo); nothing else changes. */
    method AddValue(rowNo: int, colNo: int, value: real) returns (o: Outcome)
      requires Valid()
      modifies this
      ensures Valid() && row == old(row) && col == old(col)
      ensures o.Pass? <==> ListIndex(rowNo, row).Some? && ListIndex(colNo, col).Some?
      ensures o.Fail? ==> o.error == IndexError && values == old(values)
      ensures o.Pass? ==> var i, j := ListIndex(rowNo, row).value, ListIndex(colNo, col).value;
        values == old(values)[i := old(values)[i][j := old(values)[i][j] + value]]
    {
      match (ListIndex(rowNo, row), ListIndex(colNo, col))
      case (Some(i), Some(j)) =>
        values := values[i := values[i][j := values[i][j] + value]];
        o := Pass;
      case _ =>
        o := Fail(IndexError);
    }

    /** Adds one to entry (rowNo, colNo). */
    method Increment(rowNo: int, colNo: int) returns (o: Outcome)
      requires Valid()
      modifies this
      ensures Valid() && row == old(row) && col == old(col)
      ensures o.Pass? <==> ListIndex(rowNo, row).Some? && ListIndex(colNo, col).Some?
      ensures o.Fail? ==> o.error == IndexError && values == old(values)
      ensures o.Pass? ==> var i, j := ListIndex(rowNo, row).value, ListIndex(colNo, col).value;
        values == old(values)[i := old(values)[i][j := old(values)[i][j] + 1.0]]
    {
      o := AddValue(rowNo, colNo, 1.0);
    }

    /** A vector holding row `rowNo` (negative counts from the end). */
    method GetRowVector(rowNo: int) returns (r: Result<Vector>)
      requires Valid()
      ensures r.Err? <==> ListIndex(rowNo, row).None?
      ensures r.Err? ==> r.error == IndexError
      ensures r.Ok? ==> fresh(r.value) && r.value.Valid() && r.value.values == values[ListIndex(rowNo, row).value]
    {
      match ListIndex(rowNo, row)
      case Some(i) =>
        var v := new Vector(values[i]);
        r := Ok(v);
      case None =>
        r := Err(IndexError);
    }

    /** The entries of column `column` from top to bottom (negative counts from
        the end). The index is only used when there is a row to read, so a
        matrix without rows gives the empty list for any column. */
    method GetColumnVector(column: int) returns (r: Result<seq<real>>)
      requires Valid()
      ensures r.Err? <==> row > 0 && ListIndex(column, col).None?
      ensures r.Err? ==> r.error == IndexError
      ensures row == 0 ==> r == Ok([])
      ensures row > 0 && r.Ok? ==> r.value == Column(values, ListIndex(column, col).value)
    {
      if row == 0 {
        return Ok([]);
      }
      match ListIndex(column, col)
      case None =>
        r := Err(IndexError);
      case Some(j) =>
        var c := [];
        for i := 0 to row
          invariant c == Column(values, j)[..i]
        {
          c := c + [values[i][j]];
        }
        r := Ok(c);
    }

    /** Divides every row by its own sum. A row summing to zero (and holding at
        least one entry) raises ZeroDivisionError; the rows above it stay
        normalised and it and the rows below stay as they were. */
    method ColumnWiseNormalize() returns (o: Outcome)
      requires Valid()
      modifies this
      ensures Valid() && row == old(row) && col == old(col)
      ensures o.Fail? <==> col > 0 && LeadingNonZeroRows(old(values)) < row
      ensures o.Fail? ==> o.error == ZeroDivisionError
      ensures var k := if o.Pass? then row else LeadingNonZeroRows(old(values));
        forall i :: 0 <= i < row ==> values[i] == if i < k then RowNormalized(old(values)[i]) else old(values)[i]
    {
      for i := 0 to row
        invariant Valid() && row == old(row) && col == old(col)
        invariant col == 0 || i <= LeadingNonZeroRows(old(values))
        invariant forall a :: 0 <= a < row ==> values[a] == if a < i then RowNormalized(old(values)[a]) else old(values)[a]
      {
        var total := Sum(values[i]);
        if total == 0.0 {
          if col > 0 {
            return Fail(ZeroDivisionError);
          }
        } else {
          values := values[i := Divided(values[i], total)];
        }
      }
      o := Pass;
    }

    /** Multiplies every entry by `constant`. */
    method MultiplyWithConstant(constant: real)
      requires Valid()
      modifies this
      ensures Valid() && row == old(row) && col == old(col)
      ensures values == MatScaled(old(values), constant)
    {
      for i := 0 to row
        invariant Valid() && row == old(row) && col == old(col)
        invariant forall a :: 0 <= a < row ==> values[a] == if a < i then Scaled(old(values)[a], constant) else old(values)[a]
      {
        values := values[i := Scaled(values[i], constant)];
      }
    }

    /** Divides every entry by `constant`; dividing by zero raises
        ZeroDivisionError at the first entry, so nothing changes. */
    method DivideByConstant(constant: real) returns (o: Outcome)
      requires Valid()
      modifies this
      ensures Valid() && row == old(row) && col == old(col)
      ensures o.Fail? <==> constant == 0.0 && row > 0 && col > 0
      ensures o.Fail? ==> o.error == ZeroDivisionError
      ensures values == if constant == 0.0 then old(values) else MatDivided(old(values), constant)
    {
      for i := 0 to row
        invariant Valid() && row == old(row) && col == old(col)
        invariant constant == 0.0 ==> values == old(values)
        invariant constant == 0.0 && col > 0 ==> i == 0
        invariant constant != 0.0 ==>
          forall a :: 0 <= a < row ==> values[a] == if a < i then Divided(old(values)[a], constant) else old(values)[a]
      {
        if constant == 0.0 {
          if col > 0 {
            return Fail(ZeroDivisionError);
          }
        } else {
          values := values[i := Divided(values[i], constant)];
        }
      }
      o := Pass;
    }

    /** Adds `m` entry by entry; MatrixDimensionMismatch when the shapes differ. */
    method Add(m: Matrix) returns (o: Outcome)
      requires Valid() && m.Valid()
      modifies this
      ensures Valid() && row == old(row) && col == old(col)
      ensures o == if old(row) != old(m.row) || old(col) != old(m.col) then Fail(MatrixDimensionMismatch) else Pass
      ensures values == if o.Fail? then old(values) else MatPlus(old(values), old(m.values), row, col)
    {
      if row != m.row || col != m.col {
        return Fail(MatrixDimensionMismatch);
      }
      ghost var b := m.values;
      for i := 0 to row
        invariant Valid() && row == old(row) && col == old(col)
        invariant m != this ==> m.values == b
        invariant forall a, c :: 0 <= a < row && 0 <= c < col ==>
          values[a][c] == if a < i then old(values)[a][c] + b[a][c] else old(values)[a][c]
      {
        for j := 0 to col
          invariant Valid() && row == old(row) && col == old(col)
          invariant m != this ==> m.values == b
          invariant forall a, c :: 0 <= a < row && 0 <= c < col ==>
            values[a][c] == if a < i || (a == i && c < j) then old(values)[a][c] + b[a][c] else old(values)[a][c]
        {
          values := values[i := values[i][j := values[i][j] + m.values[i][j]]];
        }
      }
      assert forall a :: 0 <= a < row ==> values[a] == MatPlus(old(values), b, row, col)[a];
      o := Pass;
    }

    /** Subtracts `m` entry by entry; MatrixDimensionMismatch when the shapes differ. */
    method Subtract(m: Matrix) returns (o: Outcome)
      requires Valid() && m.Valid()
      modifies this
      ensures Valid() && row == old(row) && col == old(col)
      ensures o == if old(row) != old(m.row) || old(col) != old(m.col) then Fail(MatrixDimensionMismatch) else Pass
      ensures values == if o.Fail? then old(values) else MatMinus(old(values), old(m.values), row, col)
    {
      if row != m.row || col != m.col {
        return Fail(MatrixDimensionMismatch);
      }
      ghost var b := m.values;
      for i := 0 to row
        invariant Valid() && row == old(row) && col == old(col)
        invariant m != this ==> m.values == b
        invariant forall a, c :: 0 <= a < row && 0 <= c < col ==>
          values[a][c] == if a < i then old(values)[a][c] - b[a][c] else old(values)[a][c]
      {
        for j := 0 to col
          invariant Valid() && row == old(row) && col == old(col)
          invariant m != this ==> m.values == b
          invariant forall a, c :: 0 <= a < row && 0 <= c < col ==>
            values[a][c] == if a < i || (a == i && c < j) then old(values)[a][c] - b[a][c] else old(values)[a][c]
        {
          values := values[i := values[i][j := values[i][j] - m.values[i][j]]];
        }
      }
      assert forall a :: 0 <= a < row ==> values[a] == MatMinus(old(values), b, row, col)[a];
      o := Pass;
    }

    /** Adds `v` to row `rowNo` (negative counts from the end); only that row
        changes. MatrixColumnMismatch unless `v` has one entry per column; the
        row index is only used when there is a column to update. */
    method AddRowVector(rowNo: int, v: Vector) returns (o: Outcome)
      requires Valid() && v.Valid()
      modifies this
      ensures Valid() && row == old(row) && col == old(col)
      ensures o.Fail? <==> col != v.size || (col > 0 && ListIndex(rowNo, row).None?)
      ensures o.Fail? ==> o.error == (if col != v.size then MatrixColumnMismatch else IndexError)
      ensures o.Fail? || col == 0 ==> values == old(values)
      ensures o.Pass? && col > 0 ==> var i := ListIndex(rowNo, row).value;
        values == old(values)[i := Plus(old(values)[i], v.values)]
    {
      if col != v.size {
        return Fail(MatrixColumnMismatch);
      }
      if col == 0 {
        return Pass;
      }
      match ListIndex(rowNo, row)
      case None =>
        o := Fail(IndexError);
      case Some(r) =>
        for i := 0 to col
          invariant Valid() && row == old(row) && col == old(col)
          invariant forall a :: 0 <= a < row && a != r ==> values[a] == old(values)[a]
          invariant forall c :: 0 <= c < col ==> values[r][c] == if c < i then old(values)[r][c] + v.values[c] else old(values)[r][c]
        {
          values := values[r := values[r][i := values[r][i] + v.values[i]]];
        }
        assert values[r] == Plus(old(values)[r], v.values);
        o := Pass;
    }

    /** The row vector `v` times this matrix: entry i is the sum over j of
        `v[j] * M[j][i]`. MatrixRowMismatch unless `v` has one entry per row. */
    method MultiplyWithVectorFromLeft(v: Vector) returns (r: Result<Vector>)
      requires Valid() && v.Valid()
      ensures r.Err? <==> row != v.size
      ensures r.Err? ==> r.error == MatrixRowMismatch
      ensures r.Ok? ==> fresh(r.value) && r.value.Valid() && r.value.values == VecMat(v.values, values, col)
    {
      if row != v.size {
        return Err(MatrixRowMismatch);
      }
      var result := new Vector([]);
      for i := 0 to col
        invariant result.Valid() && |result.values| == i
        invariant forall a :: 0 <= a < i ==> result.values[a] == Dot(v.values, Column(values, a))
      {
        var total := RowTimesColumn(v.values, values, i);
        result.Add(total);
      }
      r := Ok(result);
    }

    /** This matrix times the column vector `v`: entry i is the sum over j of
        `v[j] * M[i][j]`. MatrixColumnMismatch unless `v` has one entry per column. */
    method MultiplyWithVectorFromRight(v: Vector) returns (r: Result<Vector>)
      requires Valid() && v.Valid()
      ensures r.Err? <==> col != v.size
      ensures r.Err? ==> r.error == MatrixColumnMismatch
      ensures r.Ok? ==> fresh(r.value) && r.value.Valid() && r.value.values == MatVec(values, v.values)
    {
      if col != v.size {
        return Err(MatrixColumnMismatch);
      }
      var result := new Vector([]);
      for i := 0 to row
        invariant result.Valid() && |result.values| == i
        invariant forall a :: 0 <= a < i ==> result.values[a] == Dot(v.values, values[a])
      {
        var total := 0.0;
        for j := 0 to col
          invariant total == Dot(v.values[..j], values[i][..j])
        {
          total := total + v.values[j] * values[i][j];
          assert v.values[..j + 1][..j] == v.values[..j] && values[i][..j + 1][..j] == values[i][..j];
        }
        assert v.values[..col] == v.values && values[i][..col] == values[i];
        result.Add(total);
      }
      r := Ok(result);
    }

    /** The sum of column `columnNo` (negative counts from the end). The index
        is only used when there is a row to read, so a matrix without rows
        sums to zero for any column. */
    method ColumnSum(columnNo: int) returns (r: Result<real>)
      requires Valid()
      ensures r.Err? <==> row > 0 && ListIndex(columnNo, col).None?
      ensures r.Err? ==> r.error == IndexError
      ensures row == 0 ==> r == Ok(0.0)
      ensures row > 0 && r.Ok? ==> r.value == Sum(Column(values, ListIndex(columnNo, col).value))
    {
      if row == 0 {
        return Ok(0.0);
      }
      match ListIndex(columnNo, col)
      case None =>
        r := Err(IndexError);
      case Some(j) =>
        var column := Column(values, j);
        var total := 0.0;
        for i := 0 to row
          invariant total == Sum(column[..i])
        {
          total := total + values[i][j];
          assert column[..i + 1][..i] == column[..i];
        }
        assert column[..row] == column;
        r := Ok(total);
    }

    /** The column sums, one per column, in a new vector. */
    method SumOfRows() returns (r: Vector)
      requires Valid()
      ensures fresh(r) && r.Valid() && r.values == ColumnSums(values, col)
    {
      r := new Vector([]);
      for i := 0 to col
        invariant r.Valid() && |r.values| == i
        invariant forall a :: 0 <= a < i ==> r.values[a] == Sum(Column(values, a))
      {
        var s := ColumnSum(i);
        if row == 0 {
          assert Column(values, i) == [];
        }
        r.Add(s.value);
      }
    }

    /** The sum of row `rowNo` (negative counts from the end). */
    function RowSum(rowNo: int): (r: Result<real>)
      reads this
      requires Valid()
      ensures r.Err? <==> ListIndex(rowNo, row).None?
      ensures r.Err? ==> r.error == IndexError
      ensures r.Ok? ==> r.value == RowSums(values)[ListIndex(rowNo, row).value]
    {
      match ListIndex(rowNo, row)
      case Some(i) => Ok(Sum(values[i]))
      case None => Err(IndexError)
    }

    /** The matrix product with `m`; MatrixRowColumnMismatch unless this matrix
        has as many columns as `m` has rows. */
    method Multiply(m: Matrix) returns (r: Result<Matrix>)
      requires Valid() && m.Valid()
      ensures r.Err? <==> col != m.row
      ensures r.Err? ==> r.error == MatrixRowColumnMismatch
      ensures r.Ok? ==> (fresh(r.value) && r.value.Valid() && r.value.row == row && r.value.col == m.col
        && r.value.values == MatMul(values, m.values, row, col, m.col))
    {
      if col != m.row {
        return Err(MatrixRowColumnMismatch);
      }
      var result := new Matrix.ZeroMatrix(row, m.col);
      for i := 0 to row
        invariant result.Valid() && result.row == row && result.col == m.col
        invariant forall a, b :: 0 <= a < i && 0 <= b < m.col ==> result.values[a][b] == Dot(values[a], Column(m.values, b))
      {
        MultiplyRow(m, result, i);
      }
      assert forall a :: 0 <= a < row ==> result.values[a] == MatMul(values, m.values, row, col, m.col)[a];
      r := Ok(result);
    }

    /** Row i of the product with `m`, written entry by entry into `result`. */
    method MultiplyRow(m: Matrix, result: Matrix, i: nat)
      requires Valid() && m.Valid() && result.Valid() && col == m.row
      requires result.row == row && result.col == m.col && i < row && result != this && result != m
      modifies result
      ensures result.Valid() && result.row == row && result.col == m.col
      ensures forall a :: 0 <= a < row && a != i ==> result.values[a] == old(result.values[a])
      ensures forall b :: 0 <= b < m.col ==> result.values[i][b] == Dot(values[i], Column(m.values, b))
    {
      for j := 0 to m.col
        invariant result.Valid() && result.row == row && result.col == m.col
        invariant forall a :: 0 <= a < row && a != i ==> result.values[a] == old(result.values[a])
        invariant forall b :: 0 <= b < j ==> result.values[i][b] == Dot(values[i], Column(m.values, b))
      {
        var total := RowTimesColumn(values[i], m.values, j);
        result.values := result.values[i := result.values[i][j := total]];
      }
    }

    /** The accumulation of `a[k] * b[k][j]` over k, from the left. */
    static method RowTimesColumn(a: seq<real>, b: seq<seq<real>>, j: nat) returns (total: real)
      requires |b| == |a| && forall k :: 0 <= k < |b| ==> j < |b[k]|
      ensures total == Dot(a, Column(b, j))
    {
      var column := Column(b, j);
      total := 0.0;
      for k := 0 to |a|
        invariant total == Dot(a[..k], column[..k])
      {
        total := total + a[k] * b[k][j];
        assert a[..k + 1][..k] == a[..k] && column[..k + 1][..k] == column[..k];
      }
      assert a[..|a|] == a && column[..|a|] == column;
    }

    /** The entry-wise product with `m` in a new matrix; MatrixDimensionMismatch
        when the shapes differ. */
    method ElementProduct(m: Matrix) returns (r: Result<Matrix>)
      requires Valid() && m.Valid()
      ensures r.Err? <==> row != m.row || col != m.col
      ensures r.Err? ==> r.error == MatrixDimensionMismatch
      ensures r.Ok? ==> (fresh(r.value) && r.value.Valid() && r.value.row == row && r.value.col == col
        && r.value.values == MatTimes(values, m.values, row, col))
    {
      if row != m.row || col != m.col {
        return Err(MatrixDimensionMismatch);
      }
      var result := new Matrix.ZeroMatrix(row, col);
      for i := 0 to row
        invariant result.Valid() && result.row == row && result.col == col
        invariant forall a, b :: 0 <= a < i && 0 <= b < col ==> result.values[a][b] == values[a][b] * m.values[a][b]
      {
        ElementProductRow(m, result, i);
      }
      forall a | 0 <= a < row
        ensures result.values[a] == MatTimes(values, m.values, row, col)[a]
      {
        assert forall b :: 0 <= b < col ==> result.values[a][b] == MatTimes(values, m.values, row, col)[a][b];
      }
      r := Ok(result);
    }

    /** Row i of the entry-wise product with `m`, written entry by entry into `result`. */
    method ElementProductRow(m: Matrix, result: Matrix, i: nat)
      requires Valid() && m.Valid() && result.Valid() && row == m.row && col == m.col
      requires result.row == row && result.col == col && i < row && result != this && result != m
      modifies result
      ensures result.Valid() && result.row == row && result.col == col
      ensures forall a :: 0 <= a < row && a != i ==> result.values[a] == old(result.values[a])
      ensures forall b :: 0 <= b < col ==> result.values[i][b] == values[i][b] * m.values[i][b]
    {
      for j := 0 to col
        invariant result.Valid() && result.row == row && result.col == col
        invariant forall a :: 0 <= a < row && a != i ==> result.values[a] == old(result.values[a])
        invariant forall b :: 0 <= b < j ==> result.values[i][b] == values[i][b] * m.values[i][b]
      {
        result.values := result.values[i := result.values[i][j := values[i][j] * m.values[i][j]]];
      }
    }

    /** The sum of all entries, added row by row; it is also the sum of the
        row sums and the sum of the column sums. */
    method SumOfElements() returns (r: real)
      requires Valid()
      ensures r == GridSum(values)
      ensures r == Sum(RowSums(values))
      ensures r == Sum(ColumnSums(values, col))
    {
      r := 0.0;
      for i := 0 to row
        invariant r == GridSum(values[..i])
      {
        r := r + Sum(values[i]);
        assert values[..i + 1][..i] == values[..i];
      }
      assert values[..row] == values;
      GridSumIsSumOfRowSums(values);
      GridSumIsSumOfColumnSums(values, col);
    }

    /** The sum of the diagonal; MatrixNotSquare unless the matrix is square. */
    method Trace() returns (r: Result<real>)
      requires Valid()
      ensures r == if row != col then Err(MatrixNotSquare) else Ok(Sum(Diag(values, row)))
    {
      if row != col {
        return Err(MatrixNotSquare);
      }
      var d := Diag(values, row);
      var total := 0.0;
      for i := 0 to row
        invariant total == Sum(d[..i])
      {
        total := total + values[i][i];
        assert d[..i + 1][..i] == d[..i];
      }
      assert d[..row] == d;
      r := Ok(total);
    }

    /** A new col by row matrix with entry (j, i) equal to entry (i, j) of this one. */
    method Transpose() returns (r: Matrix)
      requires Valid()
      ensures fresh(r) && r.Valid() && r.row == col && r.col == row
      ensures r.values == MatrixSpec.Transpose(values, row, col)
    {
      r := new Matrix.ZeroMatrix(col, row);
      for i := 0 to row
        invariant r.Valid() && r.row == col && r.col == row
        invariant forall b, a {:trigger r.values[b][a]} :: 0 <= b < col && 0 <= a < row ==>
          r.values[b][a] == if a < i then values[a][b] else 0.0
      {
        for j := 0 to col
          invariant r.Valid() && r.row == col && r.col == row
          invariant forall b, a {:trigger r.values[b][a]} :: 0 <= b < col && 0 <= a < row ==>
            r.values[b][a] == if a < i || (a == i && b < j) then values[a][b] else 0.0
        {
          r.values := r.values[j := r.values[j][i := values[i][j]]];
        }
      }
      assert forall b :: 0 <= b < col ==> r.values[b] == MatrixSpec.Transpose(values, row, col)[b];
    }

    /** The block of rows rowStart..rowEnd and columns colStart..colEnd, both
        ends included, as a new matrix. */
    method Partial(rowStart: nat, rowEnd: int, colStart: nat, colEnd: int) returns (r: Matrix)
      requires Valid()
      requires rowStart <= rowEnd + 1 <= row && colStart <= colEnd + 1 <= col
      ensures fresh(r) && r.Valid() && r.row == rowEnd - rowStart + 1 && r.col == colEnd - colStart + 1
      ensures r.values == Block(values, rowStart, rowEnd, colStart, colEnd)
    {
      var h, w := rowEnd - rowStart + 1, colEnd - colStart + 1;
      r := new Matrix.ZeroMatrix(h, w);
      for i := rowStart to rowEnd + 1
        invariant r.Valid() && r.row == h && r.col == w
        invariant forall a, b :: 0 <= a < h && 0 <= b < w ==>
          r.values[a][b] == if rowStart + a < i then values[rowStart + a][colStart + b] else 0.0
      {
        for j := colStart to colEnd + 1
          invariant r.Valid() && r.row == h && r.col == w
          invariant forall a, b :: 0 <= a < h && 0 <= b < w ==>
            r.values[a][b] == if rowStart + a < i || (rowStart + a == i && colStart + b < j)
              then values[rowStart + a][colStart + b] else 0.0
        {
          r.values := r.values[i - rowStart := r.values[i - rowStart][j - colStart := values[i][j]]];
        }
      }
      assert forall a :: 0 <= a < h ==> r.values[a] == Block(values, rowStart, rowEnd, colStart, colEnd)[a];
    }

    /** Whether entry (i, j) equals entry (j, i) for every i and j;
        MatrixNotSquare unless the matrix is square. */
    method IsSymmetric() returns (r: Result<bool>)
      requires Valid()
      ensures r == if row != col then Err(MatrixNotSquare) else Ok(Symmetric(values, row))
    {
      if row != col {
        return Err(MatrixNotSquare);
      }
      var i := 0;
      while i < row - 1
        invariant 0 <= i && (row > 0 ==> i <= row - 1)
        invariant forall a, b :: 0 <= a < i && 0 <= b < row ==> values[a][b] == values[b][a]
      {
        for j := 0 to row
          invariant forall a, b :: 0 <= a < i && 0 <= b < row ==> values[a][b] == values[b][a]
          invariant forall b :: 0 <= b < j ==> values[i][b] == values[b][i]
        {
          if values[i][j] != values[j][i] {
            return Ok(false);
          }
        }
        i := i + 1;
      }
      assert forall b :: 0 <= b < row ==> values[row - 1][b] == values[b][row - 1];
      r := Ok(true);
    }

    /** The determinant by elimination without pivoting, on a copy of the
        grid: the pivots are multiplied into the result, which is returned as
        soon as it is zero. MatrixNotSquare unless the matrix is square. */
    method Determinant() returns (r: Result<real>)
      requires Valid()
      ensures r == if row != col then Err(MatrixNotSquare) else Ok(MatrixSpec.Determinant(values, row))
    {
      if row != col {
        return Err(MatrixNotSquare);
      }
      var n := row;
      var c := values;
      var det := 1.0;
      var i := 0;
      while i < n
        invariant 0 <= i <= n && IsMatrix(c, n, n)
        invariant DetFrom(c, n, i, det) == MatrixSpec.Determinant(values, n)
      {
        ghost var before := det;
        det := det * c[i][i];
        if det == 0.0 {
          assert DetFrom(c, n, i, before) == det;
          break;
        }
        c := EliminateRowsBelow(c, n, i);
        i := i + 1;
      }
      r := Ok(det);
    }
  }

  /** Subtracts `c[j][i] / c[i][i]` times pivot row i from columns i onwards
      of row j, one column at a time. */
  method SubtractPivotRow(c: Grid, n: nat, i: nat, j: nat) returns (d: Grid)
    requires IsMatrix(c, n, n) && i < j < n && c[i][i] != 0.0
    ensures IsMatrix(d, n, n)
    ensures forall a :: 0 <= a < n && a != j ==> d[a] == c[a]
    ensures forall q :: 0 <= q < n ==>
      d[j][q] == if q < i then c[j][q] else c[j][q] - c[i][q] * (c[j][i] / c[i][i])
  {
    d := c;
    var ratio := c[j][i] / c[i][i];
    for k := i to n
      invariant IsMatrix(d, n, n)
      invariant forall a :: 0 <= a < n && a != j ==> d[a] == c[a]
      invariant forall q :: 0 <= q < n ==>
        d[j][q] == if i <= q < k then c[j][q] - c[i][q] * ratio else c[j][q]
    {
      d := d[j := d[j][k := d[j][k] - d[i][k] * ratio]];
    }
  }

  /** Eliminates column i below pivot row i, row by row. */
  method EliminateRowsBelow(c: Grid, n: nat, i: nat) returns (d: Grid)
    requires IsMatrix(c, n, n) && i < n && c[i][i] != 0.0
    ensures d == EliminateBelow(c, n, i)
  {
    ghost var e := EliminateBelow(c, n, i);
    d := c;
    for j := i + 1 to n
      invariant IsMatrix(d, n, n)
      invariant forall a :: 0 <= a < n ==> d[a] == if a < j then e[a] else c[a]
    {
      d := SubtractPivotRow(d, n, i, j);
      assert |d[j]| == |e[j]| == n;
      assert forall q :: 0 <= q < n ==> d[j][q] == e[j][q];
    }
    assert d == e;
  }
}
