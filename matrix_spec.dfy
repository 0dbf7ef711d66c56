/** Mathematical meaning of the Matrix operations: functions over a grid of
    reals (a sequence of equally long rows) and the lemmas that relate them.
    The class in module Matrices is proved against these definitions. */
module MatrixSpec {
  import opened VectorSpec

  type Grid = seq<seq<real>>

  /** `m` has `r` rows of `c` entries each. */
  predicate IsMatrix(m: Grid, r: int, c: int)
  {
    |m| == r && forall i :: 0 <= i < |m| ==> |m[i]| == c
  }

  function Zeros(r: nat, c: nat): (z: Grid)
    ensures IsMatrix(z, r, c)
    ensures forall i, j :: 0 <= i < r && 0 <= j < c ==> z[i][j] == 0.0
  {
    seq(r, _ => Fill(c, 0.0))
  }

  /** `x` on the diagonal of an `r` by `c` grid and zero elsewhere. */
  function Diagonal(r: nat, c: nat, x: real): (d: Grid)
    ensures IsMatrix(d, r, c)
    ensures forall i, j :: 0 <= i < r && 0 <= j < c ==> d[i][j] == if i == j then x else 0.0
  {
    seq(r, i => seq(c, j => if i == j then x else 0.0))
  }

  function Identity(n: nat): (d: Grid)
    ensures IsMatrix(d, n, n)
  {
    Diagonal(n, n, 1.0)
  }

  /** The outer product: entry (i, j) is `u[i] * v[j]`. */
  function Outer(u: seq<real>, v: seq<real>): (m: Grid)
    ensures IsMatrix(m, |u|, |v|)
    ensures forall i, j :: 0 <= i < |u| && 0 <= j < |v| ==> m[i][j] == u[i] * v[j]
  {
    seq(|u|, i requires 0 <= i < |u| => seq(|v|, j requires 0 <= j < |v| => u[i] * v[j]))
  }

  function MatPlus(a: Grid, b: Grid, r: nat, c: nat): (m: Grid)
    requires IsMatrix(a, r, c) && IsMatrix(b, r, c)
    ensures IsMatrix(m, r, c)
    ensures forall i, j :: 0 <= i < r && 0 <= j < c ==> m[i][j] == a[i][j] + b[i][j]
  {
    seq(r, i requires 0 <= i < r => Plus(a[i], b[i]))
  }

  function MatMinus(a: Grid, b: Grid, r: nat, c: nat): (m: Grid)
    requires IsMatrix(a, r, c) && IsMatrix(b, r, c)
    ensures IsMatrix(m, r, c)
    ensures forall i, j :: 0 <= i < r && 0 <= j < c ==> m[i][j] == a[i][j] - b[i][j]
  {
    seq(r, i requires 0 <= i < r => Minus(a[i], b[i]))
  }

  /** Entry-wise (Hadamard) product. */
  function MatTimes(a: Grid, b: Grid, r: nat, c: nat): (m: Grid)
    requires IsMatrix(a, r, c) && IsMatrix(b, r, c)
    ensures IsMatrix(m, r, c)
    ensures forall i, j :: 0 <= i < r && 0 <= j < c ==> m[i][j] == a[i][j] * b[i][j]
  {
    seq(r, i requires 0 <= i < r => Times(a[i], b[i]))
  }

  function MatScaled(a: Grid, x: real): (m: Grid)
    ensures |m| == |a| && forall i :: 0 <= i < |a| ==> m[i] == Scaled(a[i], x)
  {
    seq(|a|, i requires 0 <= i < |a| => Scaled(a[i], x))
  }

  function MatDivided(a: Grid, x: real): (m: Grid)
    requires x != 0.0
    ensures |m| == |a| && forall i :: 0 <= i < |a| ==> m[i] == Divided(a[i], x)
  {
    seq(|a|, i requires 0 <= i < |a| => Divided(a[i], x))
  }

  /** Column `j` of a grid whose rows all reach past `j`. */
  function Column(m: Grid, j: nat): (col: seq<real>)
    requires forall i :: 0 <= i < |m| ==> j < |m[i]|
    ensures |col| == |m| && forall i :: 0 <= i < |m| ==> col[i] == m[i][j]
  {
    seq(|m|, i requires 0 <= i < |m| => m[i][j])
  }

  /** The `c` by `r` grid whose entry (j, i) is entry (i, j) of `m`. */
  function Transpose(m: Grid, r: nat, c: nat): (t: Grid)
    requires IsMatrix(m, r, c)
    ensures IsMatrix(t, c, r)
    ensures forall j, i :: 0 <= j < c && 0 <= i < r ==> t[j][i] == m[i][j]
  {
    seq(c, j requires 0 <= j < c => Column(m, j))
  }

  /** The matrix product: entry (i, j) is the dot product of row i of `a` and column j of `b`. */
  function MatMul(a: Grid, b: Grid, n: nat, k: nat, m: nat): (p: Grid)
    requires IsMatrix(a, n, k) && IsMatrix(b, k, m)
    ensures IsMatrix(p, n, m)
    ensures forall i, j :: 0 <= i < n && 0 <= j < m ==> p[i][j] == Dot(a[i], Column(b, j))
  {
    seq(n, i requires 0 <= i < n => seq(m, j requires 0 <= j < m => Dot(a[i], Column(b, j))))
  }

  /** The row vector `v` times `m`: entry i is the sum over j of `v[j] * m[j][i]`. */
  function VecMat(v: seq<real>, m: Grid, c: nat): (w: seq<real>)
    requires IsMatrix(m, |v|, c)
    ensures |w| == c && forall i :: 0 <= i < c ==> w[i] == Dot(v, Column(m, i))
  {
    seq(c, i requires 0 <= i < c => Dot(v, Column(m, i)))
  }

  /** `m` times the column vector `v`: entry i is the sum over j of `v[j] * m[i][j]`. */
  function MatVec(m: Grid, v: seq<real>): (w: seq<real>)
    requires IsMatrix(m, |m|, |v|)
    ensures |w| == |m| && forall i :: 0 <= i < |m| ==> w[i] == Dot(v, m[i])
  {
    seq(|m|, i requires 0 <= i < |m| => Dot(v, m[i]))
  }

  /** The column sums, one per column. */
  function ColumnSums(m: Grid, c: nat): (s: seq<real>)
    requires IsMatrix(m, |m|, c)
    ensures |s| == c && forall j :: 0 <= j < c ==> s[j] == Sum(Column(m, j))
  {
    seq(c, j requires 0 <= j < c => Sum(Column(m, j)))
  }

  /** The row sums, one per row. */
  function RowSums(m: Grid): (s: seq<real>)
    ensures |s| == |m| && forall i :: 0 <= i < |m| ==> s[i] == Sum(m[i])
  {
    seq(|m|, i requires 0 <= i < |m| => Sum(m[i]))
  }

  /** All entries added up row after row. */
  function GridSum(m: Grid): real
  {
    if |m| == 0 then 0.0 else GridSum(m[..|m| - 1]) + Sum(m[|m| - 1])
  }

  /** The diagonal of a square grid. */
  function Diag(m: Grid, n: nat): (d: seq<real>)
    requires IsMatrix(m, n, n)
    ensures |d| == n && forall i :: 0 <= i < n ==> d[i] == m[i][i]
  {
    seq(n, i requires 0 <= i < n => m[i][i])
  }

  ghost predicate Symmetric(m: Grid, n: nat)
    requires IsMatrix(m, n, n)
  {
    forall i, j :: 0 <= i < n && 0 <= j < n ==> m[i][j] == m[j][i]
  }

  /** The block of rows `rs..re` and columns `cs..ce`, both ends included. */
  function Block(m: Grid, rs: nat, re: int, cs: nat, ce: int): (b: Grid)
    requires rs <= re + 1 <= |m| && cs <= ce + 1
    requires forall i :: 0 <= i < |m| ==> ce < |m[i]|
    ensures IsMatrix(b, re - rs + 1, ce - cs + 1)
    ensures forall i, j :: rs <= i <= re && cs <= j <= ce ==> b[i - rs][j - cs] == m[i][j]
  {
    seq(re - rs + 1, i requires 0 <= i < re - rs + 1 => m[rs + i][cs..ce + 1])
  }

  /** A row divided by its own sum; a row summing to zero is left as it is. */
  function RowNormalized(row: seq<real>): (r: seq<real>)
  {
    if Sum(row) == 0.0 then row else Divided(row, Sum(row))
  }

  /** How many rows, from the top, have a nonzero sum before the first that does not. */
  function LeadingNonZeroRows(m: Grid): (k: nat)
    ensures k <= |m|
    ensures forall i :: 0 <= i < k ==> Sum(m[i]) != 0.0
    ensures k < |m| ==> Sum(m[k]) == 0.0
  {
    if |m| == 0 || Sum(m[0]) == 0.0 then 0 else 1 + LeadingNonZeroRows(m[1..])
  }

  // ---------------------------------------------------------------------------
  // Determinant by elimination without pivoting, as the source computes it.

  /** One elimination step: for every row j below pivot row i, subtract
      `m[j][i] / m[i][i]` times row i from columns i onwards of row j. */
  function EliminateBelow(m: Grid, n: nat, i: nat): (e: Grid)
    requires IsMatrix(m, n, n) && i < n && m[i][i] != 0.0
    ensures IsMatrix(e, n, n)
    ensures forall j :: 0 <= j <= i ==> e[j] == m[j]
    ensures forall j, k :: i < j < n && 0 <= k < n ==>
      e[j][k] == if k < i then m[j][k] else m[j][k] - m[i][k] * (m[j][i] / m[i][i])
  {
    seq(n, j requires 0 <= j < n =>
      if j <= i then m[j]
      else (seq(n, k requires 0 <= k < n =>
        if k < i then m[j][k] else m[j][k] - m[i][k] * (m[j][i] / m[i][i]))))
  }

  /** The running product `det` of the pivots from row i on, stopping with zero
      as soon as the product is zero. */
  function DetFrom(m: Grid, n: nat, i: nat, det: real): real
    requires IsMatrix(m, n, n) && i <= n
    decreases n - i
  {
    if i == n then det
    else
      var d := det * m[i][i];
      if d == 0.0 then d
      else DetFrom(EliminateBelow(m, n, i), n, i + 1, d)
  }

  function Determinant(m: Grid, n: nat): real
    requires IsMatrix(m, n, n)
  {
    DetFrom(m, n, 0, 1.0)
  }

  /** `acc` times the diagonal entries from row i on, multiplied in from the left. */
  function DiagProduct(m: Grid, n: nat, i: nat, acc: real): real
    requires IsMatrix(m, n, n) && i <= n
    decreases n - i
  {
    if i == n then acc else DiagProduct(m, n, i + 1, acc * m[i][i])
  }

  ghost predicate UpperTriangular(m: Grid, n: nat)
    requires IsMatrix(m, n, n)
  {
    forall j, k :: 0 <= k < j < n ==> m[j][k] == 0.0
  }

  // ---------------------------------------------------------------------------
  // Lemmas

  /** Transposing twice gives the original grid. */
  lemma TransposeTwice(m: Grid, r: nat, c: nat)
    requires IsMatrix(m, r, c)
    ensures Transpose(Transpose(m, r, c), c, r) == m
  {
    var t := Transpose(Transpose(m, r, c), c, r);
    forall i | 0 <= i < r
      ensures t[i] == m[i]
    {
      assert forall j :: 0 <= j < c ==> t[i][j] == m[i][j];
    }
  }

  /** Adding a grid and then subtracting it gives the original back. */
  lemma AddThenSubtract(a: Grid, b: Grid, r: nat, c: nat)
    requires IsMatrix(a, r, c) && IsMatrix(b, r, c)
    ensures MatMinus(MatPlus(a, b, r, c), b, r, c) == a
  {
    var s := MatMinus(MatPlus(a, b, r, c), b, r, c);
    forall i | 0 <= i < r
      ensures s[i] == a[i]
    {
      assert forall j :: 0 <= j < c ==> s[i][j] == a[i][j];
    }
  }

  /** The dot product with a vector of zeros is zero. */
  lemma {:induction false} DotZeros(a: seq<real>, z: seq<real>)
    requires |a| == |z| && forall k :: 0 <= k < |z| ==> z[k] == 0.0
    ensures Dot(a, z) == 0.0
  {
    if |a| > 0 {
      DotZeros(a[..|a| - 1], z[..|z| - 1]);
    }
  }

  /** The dot product with the j-th unit vector picks out entry j. */
  lemma {:induction false} DotUnit(a: seq<real>, e: seq<real>, j: nat)
    requires |a| == |e| && j < |e|
    requires forall k :: 0 <= k < |e| ==> e[k] == if k == j then 1.0 else 0.0
    ensures Dot(a, e) == a[j]
  {
    var n := |a|;
    if j == n - 1 {
      DotZeros(a[..n - 1], e[..n - 1]);
    } else {
      DotUnit(a[..n - 1], e[..n - 1], j);
    }
  }

  /** The identity is neutral on the right of a product. */
  lemma MulIdentityRight(m: Grid, r: nat, c: nat)
    requires IsMatrix(m, r, c)
    ensures MatMul(m, Identity(c), r, c, c) == m
  {
    var p := MatMul(m, Identity(c), r, c, c);
    forall i | 0 <= i < r
      ensures p[i] == m[i]
    {
      forall j | 0 <= j < c
        ensures p[i][j] == m[i][j]
      {
        DotUnit(m[i], Column(Identity(c), j), j);
      }
    }
  }

  /** The identity is neutral on the left of a product. */
  lemma MulIdentityLeft(m: Grid, r: nat, c: nat)
    requires IsMatrix(m, r, c)
    ensures MatMul(Identity(r), m, r, r, c) == m
  {
    var p := MatMul(Identity(r), m, r, r, c);
    forall i | 0 <= i < r
      ensures p[i] == m[i]
    {
      forall j | 0 <= j < c
        ensures p[i][j] == m[i][j]
      {
        var col := Column(m, j);
        DotSymmetric(Identity(r)[i], col);
        DotUnit(col, Identity(r)[i], i);
      }
    }
  }

  /** Multiplying by a vector from the left is multiplying the transpose from the right. */
  lemma VecMatIsMatVecOfTranspose(v: seq<real>, m: Grid, c: nat)
    requires IsMatrix(m, |v|, c)
    ensures VecMat(v, m, c) == MatVec(Transpose(m, |v|, c), v)
  {
    var t := Transpose(m, |v|, c);
    forall i | 0 <= i < c
      ensures t[i] == Column(m, i)
    {
    }
  }

  lemma {:induction false} SumPlus(a: seq<real>, b: seq<real>)
    requires |a| == |b|
    ensures Sum(Plus(a, b)) == Sum(a) + Sum(b)
  {
    var n := |a|;
    if n > 0 {
      assert Plus(a, b)[..n - 1] == Plus(a[..n - 1], b[..n - 1]);
      SumPlus(a[..n - 1], b[..n - 1]);
    }
  }

  /** Adding all entries row by row is adding the column sums: the order of summation can be swapped. */
  lemma {:induction false} GridSumIsSumOfColumnSums(m: Grid, c: nat)
    requires IsMatrix(m, |m|, c)
    ensures GridSum(m) == Sum(ColumnSums(m, c))
  {
    var n := |m|;
    if n == 0 {
      assert ColumnSums(m, c) == Fill(c, 0.0);
      SumFillZero(c);
    } else {
      var init := m[..n - 1];
      GridSumIsSumOfColumnSums(init, c);
      ColumnSumsLastRow(m, c);
      SumPlus(ColumnSums(init, c), m[n - 1]);
    }
  }

  lemma ColumnSumsLastRow(m: Grid, c: nat)
    requires IsMatrix(m, |m|, c) && |m| > 0
    ensures ColumnSums(m, c) == Plus(ColumnSums(m[..|m| - 1], c), m[|m| - 1])
  {
    var n := |m|;
    forall j | 0 <= j < c
      ensures ColumnSums(m, c)[j] == Plus(ColumnSums(m[..n - 1], c), m[n - 1])[j]
    {
      assert Column(m, j)[..n - 1] == Column(m[..n - 1], j);
    }
  }

  lemma {:induction false} SumFillZero(n: nat)
    ensures Sum(Fill(n, 0.0)) == 0.0
  {
    if n > 0 {
      assert Fill(n, 0.0)[..n - 1] == Fill(n - 1, 0.0);
      SumFillZero(n - 1);
    }
  }

  /** Adding all entries is adding the row sums. */
  lemma {:induction false} GridSumIsSumOfRowSums(m: Grid)
    ensures GridSum(m) == Sum(RowSums(m))
  {
    var n := |m|;
    if n > 0 {
      assert RowSums(m)[..n - 1] == RowSums(m[..n - 1]);
      GridSumIsSumOfRowSums(m[..n - 1]);
    }
  }

  /** The trace of the n by n identity is n. */
  lemma {:induction false} TraceIdentity(n: nat)
    ensures Sum(Diag(Identity(n), n)) == n as real
  {
    if n > 0 {
      assert Diag(Identity(n), n)[..n - 1] == Diag(Identity(n - 1), n - 1);
      TraceIdentity(n - 1);
    }
  }

  /** Transposing keeps the diagonal, hence the trace. */
  lemma TransposeKeepsDiagonal(m: Grid, n: nat)
    requires IsMatrix(m, n, n)
    ensures Diag(Transpose(m, n, n), n) == Diag(m, n)
  {
  }

  /** After normalisation a row with nonzero sum sums to one. */
  lemma NormalizedRowSumsToOne(row: seq<real>)
    requires Sum(row) != 0.0
    ensures Sum(RowNormalized(row)) == 1.0
  {
    L1NormalizedSumsToOne(row);
  }

  /** Normalising an already normalised row changes nothing. */
  lemma RowNormalizedIdempotent(row: seq<real>)
    ensures RowNormalized(RowNormalized(row)) == RowNormalized(row)
  {
    if Sum(row) != 0.0 {
      var r := RowNormalized(row);
      NormalizedRowSumsToOne(row);
      assert forall k :: 0 <= k < |r| ==> Divided(r, 1.0)[k] == r[k];
    }
  }

  /** On an upper-triangular grid, an elimination step changes nothing. */
  lemma EliminateUpperTriangular(m: Grid, n: nat, i: nat)
    requires IsMatrix(m, n, n) && i < n && m[i][i] != 0.0 && UpperTriangular(m, n)
    ensures EliminateBelow(m, n, i) == m
  {
    var e := EliminateBelow(m, n, i);
    forall j | 0 <= j < n
      ensures e[j] == m[j]
    {
      if j > i {
        forall k | 0 <= k < n
          ensures e[j][k] == m[j][k]
        {
          assert m[j][i] / m[i][i] == 0.0;
        }
      }
    }
  }

  /** A product of diagonal entries that starts from zero stays zero. */
  lemma {:induction false} DiagProductOfZero(m: Grid, n: nat, i: nat)
    requires IsMatrix(m, n, n) && i <= n
    ensures DiagProduct(m, n, i, 0.0) == 0.0
    decreases n - i
  {
    if i < n {
      DiagProductOfZero(m, n, i + 1);
    }
  }

  /** On an upper-triangular grid the elimination multiplies the diagonal. */
  lemma {:induction false} DetFromUpperTriangular(m: Grid, n: nat, i: nat, det: real)
    requires IsMatrix(m, n, n) && i <= n && UpperTriangular(m, n)
    ensures DetFrom(m, n, i, det) == DiagProduct(m, n, i, det)
    decreases n - i
  {
    if i < n {
      var d := det * m[i][i];
      if d == 0.0 {
        DiagProductOfZero(m, n, i + 1);
      } else {
        EliminateUpperTriangular(m, n, i);
        DetFromUpperTriangular(m, n, i + 1, d);
      }
    }
  }

  /** The determinant of an upper-triangular matrix is the product of its diagonal. */
  lemma DeterminantUpperTriangular(m: Grid, n: nat)
    requires IsMatrix(m, n, n) && UpperTriangular(m, n)
    ensures Determinant(m, n) == DiagProduct(m, n, 0, 1.0)
  {
    DetFromUpperTriangular(m, n, 0, 1.0);
  }

  lemma {:induction false} DiagProductIdentity(n: nat, i: nat)
    requires i <= n
    ensures DiagProduct(Identity(n), n, i, 1.0) == 1.0
    decreases n - i
  {
    if i < n {
      DiagProductIdentity(n, i + 1);
    }
  }

  /** The determinant of the identity is one. */
  lemma DeterminantIdentity(n: nat)
    ensures Determinant(Identity(n), n) == 1.0
  {
    DeterminantUpperTriangular(Identity(n), n);
    DiagProductIdentity(n, 0);
  }
}
