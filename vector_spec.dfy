/** Mathematical meaning of the Vector operations: functions over `seq<real>`
    and the lemmas that relate them. The class in module Vectors is proved
    against these definitions. */
module VectorSpec {
  import opened Errors

  /** Sum of the entries, accumulated from the left as the source's loops do. */
  function Sum(s: seq<real>): real
  {
    if |s| == 0 then 0.0 else Sum(s[..|s| - 1]) + s[|s| - 1]
  }

  /** Dot product, accumulated from the left. */
  function Dot(a: seq<real>, b: seq<real>): real
    requires |a| == |b|
  {
    if |a| == 0 then 0.0 else Dot(a[..|a| - 1], b[..|b| - 1]) + a[|a| - 1] * b[|b| - 1]
  }

  function Plus(a: seq<real>, b: seq<real>): (r: seq<real>)
    requires |a| == |b|
    ensures |r| == |a| && forall i :: 0 <= i < |a| ==> r[i] == a[i] + b[i]
  {
    seq(|a|, i requires 0 <= i < |a| => a[i] + b[i])
  }

  function Minus(a: seq<real>, b: seq<real>): (r: seq<real>)
    requires |a| == |b|
    ensures |r| == |a| && forall i :: 0 <= i < |a| ==> r[i] == a[i] - b[i]
  {
    seq(|a|, i requires 0 <= i < |a| => a[i] - b[i])
  }

  /** Entry-wise (Hadamard) product. */
  function Times(a: seq<real>, b: seq<real>): (r: seq<real>)
    requires |a| == |b|
    ensures |r| == |a| && forall i :: 0 <= i < |a| ==> r[i] == a[i] * b[i]
  {
    seq(|a|, i requires 0 <= i < |a| => a[i] * b[i])
  }

  function Scaled(s: seq<real>, c: real): (r: seq<real>)
    ensures |r| == |s| && forall i :: 0 <= i < |s| ==> r[i] == s[i] * c
  {
    seq(|s|, i requires 0 <= i < |s| => s[i] * c)
  }

  function Divided(s: seq<real>, c: real): (r: seq<real>)
    requires c != 0.0
    ensures |r| == |s| && forall i :: 0 <= i < |s| ==> r[i] == s[i] / c
  {
    seq(|s|, i requires 0 <= i < |s| => s[i] / c)
  }

  /** `n` copies of `x`. */
  function Fill(n: nat, x: real): (r: seq<real>)
    ensures |r| == n && forall i :: 0 <= i < n ==> r[i] == x
  {
    seq(n, _ => x)
  }

  /** Where Python's `list.insert(pos, x)` puts `x` in a list of length `n`:
      a negative position counts from the end, and the result is clamped to
      `0..n`, so insertion never fails. */
  function InsertPosition(pos: int, n: nat): (p: nat)
    ensures p <= n
    ensures 0 <= pos <= n ==> p == pos
  {
    if pos < 0 then (if pos + n < 0 then 0 else pos + n)
    else if pos > n then n
    else pos
  }

  /** The element a Python list index `pos` (as in `l[pos]`, `l[pos] = x` or
      `l.pop(pos)`) designates in a list of length `n`: a negative position
      counts from the end; None when it is out of range (IndexError). */
  function ListIndex(pos: int, n: nat): (p: Option<nat>)
    ensures p.Some? <==> -(n as int) <= pos < n
    ensures p.Some? ==> p.value < n
    ensures 0 <= pos < n ==> p == Some(pos)
  {
    if 0 <= pos < n then Some(pos)
    else if -(n as int) <= pos < 0 then Some(pos + n)
    else None
  }


  function InsertAt(s: seq<real>, p: nat, x: real): (r: seq<real>)
    requires p <= |s|
  {
    s[..p] + [x] + s[p..]
  }

  function RemoveAt(s: seq<real>, p: nat): (r: seq<real>)
    requires p < |s|
  {
    s[..p] + s[p + 1..]
  }

  /** `k` is the first index holding the largest entry of `s`. */
  ghost predicate IsFirstMax(s: seq<real>, k: int)
  {
    && 0 <= k < |s|
    && (forall j :: 0 <= j < |s| ==> s[j] <= s[k])
    && (forall j :: 0 <= j < k ==> s[j] < s[k])
  }

  /** True when an index `i` of a list of length `n` leaves the loop of
      skipVector: `i >= n` ends it, and `i < -n` makes `l[i]` raise IndexError. */
  predicate StrideStops(i: int, n: nat)
  {
    i >= n || i < -(n as int)
  }

  /** The entries skipVector reads, at `start`, `start + mod`, `start + 2 * mod`, ...
      while the index is below `|s|`, each read as a Python list index; IndexError
      once an index falls below `-|s|`. With `mod == 0` and an index that reads an
      entry the loop never ends, so that case is excluded. */
  function Strided(s: seq<real>, mod: int, start: int): (r: Result<seq<real>>)
    requires mod != 0 || StrideStops(start, |s|)
    ensures start >= |s| ==> r == Ok([])
    ensures start < -|s| ==> r == Err(IndexError)
    ensures r.Err? ==> r.error == IndexError
    ensures mod < 0 && start < |s| ==> r.Err?
    ensures mod > 0 && start >= -|s| ==> r.Ok?
    decreases if StrideStops(start, |s|) then 0 else if mod > 0 then |s| - start else start + |s| + 1
  {
    if start >= |s| then Ok([])
    else if start < -|s| then Err(IndexError)
    else
      var rest := Strided(s, mod, start + mod);
      if rest.Err? then rest else Ok([s[ListIndex(start, |s|).value]] + rest.value)
  }

  // ---------------------------------------------------------------------------
  // Lemmas

  /** Inserting at a position and then popping that position gives the vector back. */
  lemma InsertThenRemove(s: seq<real>, pos: int, x: real)
    requires 0 <= pos <= |s|
    ensures ListIndex(pos, |s| + 1) == Some(InsertPosition(pos, |s|))
    ensures |InsertAt(s, pos, x)| == |s| + 1
    ensures RemoveAt(InsertAt(s, pos, x), pos) == s
  {
    var t := InsertAt(s, pos, x);
    assert t[..pos] == s[..pos];
    assert t[pos + 1..] == s[pos..];
    assert s[..pos] + s[pos..] == s;
  }

  /** Removing a position and inserting the removed entry back there gives the vector back. */
  lemma RemoveThenInsert(s: seq<real>, pos: nat)
    requires pos < |s|
    ensures InsertAt(RemoveAt(s, pos), pos, s[pos]) == s
  {
    var t := RemoveAt(s, pos);
    assert t[..pos] == s[..pos];
    assert t[pos..] == s[pos + 1..];
    assert s[..pos] + [s[pos]] + s[pos + 1..] == s;
  }

  /** Element-wise addition followed by subtraction of the same vector is the identity. */
  lemma PlusThenMinus(a: seq<real>, b: seq<real>)
    requires |a| == |b|
    ensures Minus(Plus(a, b), b) == a
  {
    assert forall i :: 0 <= i < |a| ==> Minus(Plus(a, b), b)[i] == a[i];
  }

  /** The dot product is the sum of the entry-wise product. */
  lemma {:induction false} DotIsSumOfTimes(a: seq<real>, b: seq<real>)
    requires |a| == |b|
    ensures Dot(a, b) == Sum(Times(a, b))
  {
    if |a| > 0 {
      var n := |a|;
      forall i | 0 <= i < n - 1
        ensures Times(a, b)[i] == Times(a[..n - 1], b[..n - 1])[i]
      {
        assert a[..n - 1][i] == a[i] && b[..n - 1][i] == b[i];
      }
      assert Times(a, b)[..n - 1] == Times(a[..n - 1], b[..n - 1]);
      DotIsSumOfTimes(a[..n - 1], b[..n - 1]);
    }
  }

  lemma {:induction false} DotSymmetric(a: seq<real>, b: seq<real>)
    requires |a| == |b|
    ensures Dot(a, b) == Dot(b, a)
  {
    if |a| > 0 {
      DotSymmetric(a[..|a| - 1], b[..|b| - 1]);
    }
  }

  /** The dot product of a vector with itself is a sum of squares, so never negative. */
  lemma {:induction false} DotSelfNonNegative(a: seq<real>)
    ensures Dot(a, a) >= 0.0
  {
    if |a| > 0 {
      DotSelfNonNegative(a[..|a| - 1]);
      var x := a[|a| - 1];
      assert x * x >= 0.0;
    }
  }

  /** Dividing every entry by `c` divides the sum by `c`. */
  lemma {:induction false} SumDivided(s: seq<real>, c: real)
    requires c != 0.0
    ensures Sum(Divided(s, c)) == Sum(s) / c
  {
    if |s| > 0 {
      var n := |s|;
      assert Divided(s, c)[..n - 1] == Divided(s[..n - 1], c);
      SumDivided(s[..n - 1], c);
      assert Sum(s[..n - 1]) / c + s[n - 1] / c == (Sum(s[..n - 1]) + s[n - 1]) / c;
    }
  }

  /** Multiplying every entry by `c` multiplies the sum by `c`. */
  lemma {:induction false} SumScaled(s: seq<real>, c: real)
    ensures Sum(Scaled(s, c)) == Sum(s) * c
  {
    if |s| > 0 {
      var n := |s|;
      forall i | 0 <= i < n - 1
        ensures Scaled(s, c)[i] == Scaled(s[..n - 1], c)[i]
      {
        assert s[..n - 1][i] == s[i];
      }
      assert Scaled(s, c)[..n - 1] == Scaled(s[..n - 1], c);
      SumScaled(s[..n - 1], c);
      assert Sum(s[..n - 1]) * c + s[n - 1] * c == (Sum(s[..n - 1]) + s[n - 1]) * c;
    }
  }

  /** After dividing by its own (nonzero) sum, a vector sums to one. */
  lemma L1NormalizedSumsToOne(s: seq<real>)
    requires Sum(s) != 0.0
    ensures Sum(Divided(s, Sum(s))) == 1.0
  {
    SumDivided(s, Sum(s));
    assert Sum(s) / Sum(s) == 1.0;
  }

  /** With a positive step from an index no lower than `-|s|`, the strided copy
      holds exactly the entries at the Python indices `start + k * mod`, in order,
      and stops at the first index past the end. */
  lemma {:induction false} StridedAt(s: seq<real>, mod: int, start: int)
    requires mod > 0 && start >= -|s|
    ensures Strided(s, mod, start).Ok?
    ensures var r := Strided(s, mod, start).value;
      && (forall k :: 0 <= k < |r| ==>
            ListIndex(start + k * mod, |s|).Some? && r[k] == s[ListIndex(start + k * mod, |s|).value])
      && start + |r| * mod >= |s|
    decreases |s| - start
  {
    var r := Strided(s, mod, start).value;
    if start < |s| {
      StridedAt(s, mod, start + mod);
      var t := Strided(s, mod, start + mod).value;
      assert r == [s[ListIndex(start, |s|).value]] + t;
      forall k | 0 <= k < |r|
        ensures ListIndex(start + k * mod, |s|).Some? && r[k] == s[ListIndex(start + k * mod, |s|).value]
      {
        if k > 0 {
          assert r[k] == t[k - 1];
          MulStep(k, mod);
        }
      }
      MulStep(|r|, mod);
    }
  }

  /** The example of a negative start: on three entries with step 1 from -2 the
      copy reads the last two, then wraps through the whole list. */
  lemma StridedFromEnd(a: real, b: real, c: real)
    ensures Strided([a, b, c], 1, -2).Ok?
    ensures Strided([a, b, c], 1, -2).value == [b, c, a, b, c]
  {
    var s := [a, b, c];
    assert Strided(s, 1, 2).value == [c];
    assert Strided(s, 1, 1).value == [b, c];
    assert Strided(s, 1, 0).value == [a, b, c];
    assert Strided(s, 1, -1).value == [c, a, b, c];
  }

  lemma MulStep(k: nat, mod: int)
    requires k > 0
    ensures mod + (k - 1) * mod == k * mod
  {
  }
}
