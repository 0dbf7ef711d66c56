/** The growable vector of numbers: a list of values that its methods append
    to, insert into, pop from and rewrite in place, next to a `size` counter
    that every mutator keeps equal to the list's length. */
module Vectors {
  import opened Errors
  import opened VectorSpec

  class Vector {
    var values: seq<real>
    /** The counter the loops of the source run up to. */
    var size: int

    ghost predicate Valid()
      reads this
    {
      size == |values|
    }

    /** Wraps the given values; the size is their number. */
    constructor (values: seq<real>)
      ensures Valid() && this.values == values
    {
      this.values := values;
      size := |values|;
    }

    /** The number of values, read from the list itself; it agrees with the counter. */
    function Size(): (n: nat)
      reads this
      requires Valid()
      ensures n == size
    {
      |values|
    }

    /** Resets the vector to `size` copies of `x`. */
    method InitAllSame(size: nat, x: real)
      modifies this
      ensures Valid() && values == Fill(size, x)
    {
      this.size := size;
      values := [];
      for i := 0 to size
        invariant this.size == size && values == Fill(i, x)
      {
        values := values + [x];
      }
    }

    /** Resets the vector to `size` zeros and then stores `x` at `index`;
        the store raises IndexError, after the reset, when `index` is out of range. */
    method InitAllZerosExceptOne(size: nat, index: int, x: real) returns (o: Outcome)
      modifies this
      ensures Valid() && |values| == size
      ensures o.Pass? <==> ListIndex(index, size).Some?
      ensures o.Fail? ==> o.error == IndexError && values == Fill(size, 0.0)
      ensures o.Pass? ==> values == Fill(size, 0.0)[ListIndex(index, size).value := x]
    {
      this.size := size;
      values := [];
      for i := 0 to size
        invariant this.size == size && values == Fill(i, 0.0)
      {
        values := values + [0.0];
      }
      var p := ListIndex(index, size);
      if p.None? {
        return Fail(IndexError);
      }
      values := values[p.value := x];
      o := Pass;
    }

    /** A new vector holding 1.0 followed by a copy of these values. */
    method Biased() returns (r: Vector)
      requires Valid()
      ensures fresh(r) && r.Valid()
      ensures r.values == [1.0] + values && r.Size() == Size() + 1
    {
      r := new Vector([]);
      for i := 0 to |values|
        invariant r.Valid() && r.values == values[..i]
      {
        r.Add(values[i]);
        assert values[..i + 1] == values[..i] + [values[i]];
      }
      assert values[..|values|] == values;
      r.Insert(0, 1.0);
    }

    /** Appends `x`. */
    method Add(x: real)
      requires Valid()
      modifies this
      ensures Valid() && values == old(values) + [x]
    {
      values := values + [x];
      size := size + 1;
    }

    /** Python's `list.insert`: a negative position counts from the end and an
        out-of-range position is clamped, so the vector always grows by one. */
    method Insert(pos: int, x: real)
      requires Valid()
      modifies this
      ensures Valid() && |values| == |old(values)| + 1
      ensures values == InsertAt(old(values), InsertPosition(pos, |old(values)|), x)
    {
      var p := InsertPosition(pos, |values|);
      values := values[..p] + [x] + values[p..];
      size := size + 1;
    }

    /** Python's `list.pop(pos)`: IndexError, with nothing changed, when the
        position is out of range; otherwise the entry goes and the rest shift left. */
    method Remove(pos: int) returns (o: Outcome)
      requires Valid()
      modifies this
      ensures Valid()
      ensures o.Pass? <==> ListIndex(pos, |old(values)|).Some?
      ensures o.Fail? ==> o.error == IndexError && values == old(values)
      ensures o.Pass? ==> values == RemoveAt(old(values), ListIndex(pos, |old(values)|).value)
    {
      var p := ListIndex(pos, |values|);
      if p.None? {
        return Fail(IndexError);
      }
      values := values[..p.value] + values[p.value + 1..];
      size := size - 1;
      o := Pass;
    }

    /** Sets every entry to zero, keeping the size. */
    method Clear()
      requires Valid()
      modifies this
      ensures Valid() && values == Fill(|old(values)|, 0.0)
    {
      for i := 0 to |values|
        invariant |values| == size == |old(values)|
        invariant forall k :: 0 <= k < i ==> values[k] == 0.0
      {
        values := values[i := 0.0];
      }
    }

    /** The first index holding the largest value; IndexError on an empty vector. */
    method MaxIndex() returns (r: Result<nat>)
      requires Valid()
      ensures r.Err? <==> |values| == 0
      ensures r.Err? ==> r.error == IndexError
      ensures r.Ok? ==> IsFirstMax(values, r.value)
    {
      if |values| == 0 {
        return Err(IndexError);
      }
      var index := 0;
      var maxValue := values[0];
      for i := 1 to size
        invariant 0 <= index < i
        invariant maxValue == values[index]
        invariant forall j :: 0 <= j < i ==> values[j] <= maxValue
        invariant forall j :: 0 <= j < index ==> values[j] < maxValue
      {
        if values[i] > maxValue {
          maxValue := values[i];
          index := i;
        }
      }
      r := Ok(index);
    }

    /** A new vector of the entries at `start`, `start + mod`, `start + 2 * mod`, ...
        read while the index is below the size, each as a Python list index;
        IndexError once an index falls below `-size`. The source loops forever
        when `mod == 0` and `start` reads an entry, so that call is excluded. */
    method SkipVector(mod: int, start: int) returns (r: Result<Vector>)
      requires Valid()
      requires mod != 0 || StrideStops(start, size)
      ensures r.Err? <==> Strided(values, mod, start).Err?
      ensures r.Err? ==> r.error == IndexError
      ensures r.Ok? ==> fresh(r.value) && r.value.Valid() && r.value.values == Strided(values, mod, start).value
    {
      var acc := new Vector([]);
      var i := start;
      while i < size
        invariant fresh(acc) && acc.Valid()
        invariant mod != 0 || StrideStops(i, size)
        invariant Strided(values, mod, start).Err? == Strided(values, mod, i).Err?
        invariant Strided(values, mod, i).Ok? ==>
          Strided(values, mod, start).value == acc.values + Strided(values, mod, i).value
        decreases if StrideStops(i, size) then 0 else if mod > 0 then size - i else i + size + 1
      {
        var p := ListIndex(i, size);
        if p.None? {
          return Err(IndexError);
        }
        acc.Add(values[p.value]);
        i := i + mod;
      }
      r := Ok(acc);
    }

    /** Adds `v` entry by entry, in place; VectorSizeMismatch, with nothing
        changed, when the sizes differ. `v` may be this vector itself. */
    method AddVector(v: Vector) returns (o: Outcome)
      requires Valid() && v.Valid()
      modifies this
      ensures Valid() && v.Valid()
      ensures o == if old(size) == old(v.size) then Pass else Fail(VectorSizeMismatch)
      ensures values == if o.Pass? then Plus(old(values), old(v.values)) else old(values)
    {
      if size != v.size {
        return Fail(VectorSizeMismatch);
      }
      ghost var a, b := values, v.values;
      for i := 0 to size
        invariant |values| == |a| == |b| == size
        invariant v.values == if v == this then values else b
        invariant forall k :: 0 <= k < i ==> values[k] == a[k] + b[k]
        invariant forall k :: i <= k < size ==> values[k] == a[k]
      {
        values := values[i := values[i] + v.values[i]];
      }
      o := Pass;
    }

    /** Subtracts `v` entry by entry, in place; VectorSizeMismatch, with nothing
        changed, when the sizes differ. `v` may be this vector itself. */
    method Subtract(v: Vector) returns (o: Outcome)
      requires Valid() && v.Valid()
      modifies this
      ensures Valid() && v.Valid()
      ensures o == if old(size) == old(v.size) then Pass else Fail(VectorSizeMismatch)
      ensures values == if o.Pass? then Minus(old(values), old(v.values)) else old(values)
    {
      if size != v.size {
        return Fail(VectorSizeMismatch);
      }
      ghost var a, b := values, v.values;
      for i := 0 to size
        invariant |values| == |a| == |b| == size
        invariant v.values == if v == this then values else b
        invariant forall k :: 0 <= k < i ==> values[k] == a[k] - b[k]
        invariant forall k :: i <= k < size ==> values[k] == a[k]
      {
        values := values[i := values[i] - v.values[i]];
      }
      o := Pass;
    }

    /** A new vector holding this minus `v`; VectorSizeMismatch when the sizes differ. */
    method Difference(v: Vector) returns (r: Result<Vector>)
      requires Valid() && v.Valid()
      ensures r.Err? <==> size != v.size
      ensures r.Err? ==> r.error == VectorSizeMismatch
      ensures r.Ok? ==> fresh(r.value) && r.value.Valid() && r.value.values == Minus(values, v.values)
    {
      if size != v.size {
        return Err(VectorSizeMismatch);
      }
      var result := new Vector([]);
      for i := 0 to size
        invariant result.Valid() && result.values == Minus(values[..i], v.values[..i])
      {
        result.Add(values[i] - v.values[i]);
      }
      assert values[..size] == values && v.values[..size] == v.values;
      r := Ok(result);
    }

    /** The dot product; VectorSizeMismatch when the sizes differ. */
    method DotProduct(v: Vector) returns (r: Result<real>)
      requires Valid() && v.Valid()
      ensures r == if size != v.size then Err(VectorSizeMismatch) else Ok(Dot(values, v.values))
    {
      if size != v.size {
        return Err(VectorSizeMismatch);
      }
      var result := 0.0;
      for i := 0 to size
        invariant result == Dot(values[..i], v.values[..i])
      {
        result := result + values[i] * v.values[i];
        assert values[..i + 1][..i] == values[..i] && v.values[..i + 1][..i] == v.values[..i];
      }
      assert values[..size] == values && v.values[..size] == v.values;
      r := Ok(result);
    }

    /** The sum of the squares of the entries: the dot product with itself. */
    method DotProductWithSelf() returns (r: real)
      requires Valid()
      ensures r == Dot(values, values)
    {
      r := 0.0;
      for i := 0 to size
        invariant r == Dot(values[..i], values[..i])
      {
        r := r + values[i] * values[i];
        assert values[..i + 1][..i] == values[..i];
      }
      assert values[..size] == values;
    }

    /** A new vector of the entry-wise products; VectorSizeMismatch when the sizes differ. */
    method ElementProduct(v: Vector) returns (r: Result<Vector>)
      requires Valid() && v.Valid()
      ensures r.Err? <==> size != v.size
      ensures r.Err? ==> r.error == VectorSizeMismatch
      ensures r.Ok? ==> fresh(r.value) && r.value.Valid() && r.value.values == Times(values, v.values)
    {
      if size != v.size {
        return Err(VectorSizeMismatch);
      }
      var result := new Vector([]);
      for i := 0 to size
        invariant result.Valid() && |result.values| == i
        invariant forall k :: 0 <= k < i ==> result.values[k] == values[k] * v.values[k]
      {
        result.Add(values[i] * v.values[i]);
      }
      assert forall k :: 0 <= k < size ==> result.values[k] == Times(values, v.values)[k];
      r := Ok(result);
    }

    /** Divides every entry by `value`, in place. Division by zero raises
        ZeroDivisionError at the first entry, so nothing changes. */
    method Divide(value: real) returns (o: Outcome)
      requires Valid()
      modifies this
      ensures Valid()
      ensures o.Fail? <==> value == 0.0 && |old(values)| > 0
      ensures o.Fail? ==> o.error == ZeroDivisionError
      ensures values == if value == 0.0 then old(values) else Divided(old(values), value)
    {
      if value == 0.0 {
        if size > 0 {
          return Fail(ZeroDivisionError);
        }
        return Pass;
      }
      for i := 0 to size
        invariant |values| == size == |old(values)|
        invariant forall k :: 0 <= k < i ==> values[k] == old(values)[k] / value
        invariant forall k :: i <= k < size ==> values[k] == old(values)[k]
      {
        values := values[i := values[i] / value];
      }
      o := Pass;
    }

    /** Multiplies every entry by `value`, in place. */
    method Multiply(value: real)
      requires Valid()
      modifies this
      ensures Valid() && values == Scaled(old(values), value)
    {
      for i := 0 to size
        invariant |values| == size == |old(values)|
        invariant forall k :: 0 <= k < i ==> values[k] == old(values)[k] * value
        invariant forall k :: i <= k < size ==> values[k] == old(values)[k]
      {
        values := values[i := values[i] * value];
      }
      assert forall k :: 0 <= k < size ==> values[k] == Scaled(old(values), value)[k];
    }

    /** A new vector of the entries multiplied by `value`; this one is unchanged. */
    method Product(value: real) returns (r: Vector)
      requires Valid()
      ensures fresh(r) && r.Valid() && r.values == Scaled(values, value)
    {
      r := new Vector([]);
      for i := 0 to size
        invariant r.Valid() && |r.values| == i
        invariant forall k :: 0 <= k < i ==> r.values[k] == values[k] * value
      {
        r.Add(values[i] * value);
      }
      assert forall k :: 0 <= k < size ==> r.values[k] == Scaled(values, value)[k];
    }

    /** Divides every entry by the (algebraic) sum of the entries. A zero sum
        raises ZeroDivisionError at the first division, so nothing changes. */
    method L1Normalize() returns (o: Outcome)
      requires Valid()
      modifies this
      ensures Valid()
      ensures o.Fail? <==> Sum(old(values)) == 0.0 && |old(values)| > 0
      ensures o.Fail? ==> o.error == ZeroDivisionError
      ensures values == if Sum(old(values)) == 0.0 then old(values) else Divided(old(values), Sum(old(values)))
    {
      var total := 0.0;
      for i := 0 to size
        invariant total == Sum(values[..i])
      {
        total := total + values[i];
        assert values[..i + 1][..i] == values[..i];
      }
      assert values[..size] == values;
      o := Divide(total);
    }

    /** The Euclidean norm, given the square root the source takes from its math library. */
    method L2Norm(sqrt: real -> real) returns (r: real)
      requires Valid()
      ensures r == sqrt(Dot(values, values))
    {
      var total := DotProductWithSelf();
      r := sqrt(total);
    }

    /** The cosine of the angle between the two vectors, given the square root:
        VectorSizeMismatch when the sizes differ, and ZeroDivisionError when a norm is zero. */
    method CosineSimilarity(v: Vector, sqrt: real -> real) returns (r: Result<real>)
      requires Valid() && v.Valid()
      ensures r.Err? && r.error == VectorSizeMismatch <==> size != v.size
      ensures size == v.size ==> var na, nb := sqrt(Dot(values, values)), sqrt(Dot(v.values, v.values));
        r == if na == 0.0 || nb == 0.0 then Err(ZeroDivisionError)
             else Ok(Dot(values, v.values) / na / nb)
    {
      if size != v.size {
        return Err(VectorSizeMismatch);
      }
      var dot := DotProduct(v);
      var na := L2Norm(sqrt);
      var nb := v.L2Norm(sqrt);
      if na == 0.0 || nb == 0.0 {
        return Err(ZeroDivisionError);
      }
      r := Ok(dot.value / na / nb);
    }

    /** The entry at a Python list index; IndexError when it is out of range. */
    function GetValue(index: int): (r: Result<real>)
      reads this
      requires Valid()
      ensures r.Ok? <==> -size <= index < size
      ensures r.Err? ==> r.error == IndexError
      ensures r.Ok? ==> r.value == values[if index < 0 then index + size else index]
    {
      match ListIndex(index, |values|)
      case Some(p) => Ok(values[p])
      case None => Err(IndexError)
    }

    /** Overwrites the entry at a Python list index; IndexError, with nothing changed, when it is out of range. */
    method SetValue(index: int, value: real) returns (o: Outcome)
      requires Valid()
      modifies this
      ensures Valid()
      ensures o.Pass? <==> ListIndex(index, |old(values)|).Some?
      ensures o.Fail? ==> o.error == IndexError && values == old(values)
      ensures o.Pass? ==> values == old(values)[ListIndex(index, |old(values)|).value := value]
    {
      var p := ListIndex(index, |values|);
      if p.None? {
        return Fail(IndexError);
      }
      values := values[p.value := value];
      o := Pass;
    }

    /** Adds `value` to the entry at a Python list index; IndexError, with nothing changed, when it is out of range. */
    method AddValue(index: int, value: real) returns (o: Outcome)
      requires Valid()
      modifies this
      ensures Valid()
      ensures o.Pass? <==> ListIndex(index, |old(values)|).Some?
      ensures o.Fail? ==> o.error == IndexError && values == old(values)
      ensures o.Pass? ==> var p := ListIndex(index, |old(values)|).value;
        values == old(values)[p := old(values)[p] + value]
    {
      var p := ListIndex(index, |values|);
      if p.None? {
        return Fail(IndexError);
      }
      values := values[p.value := values[p.value] + value];
      o := Pass;
    }
  }
}
