/** The Tensor class: a flat row-major buffer of numbers with its shape and
    strides. Every operation that builds a new tensor returns a fresh object;
    only Set changes a tensor in place. Errors the source raises are returned
    as `Err`/`Fail` values. */
module Tensors {
  import opened Errors
  import opened TensorSpec

  class Tensor {
    var shape: seq<nat>
    var strides: seq<nat>
    var data: seq<real>

    /** The strides are the row-major strides of the shape and the buffer holds one number per element. */
    ghost predicate Valid()
      reads this
    {
      strides == Strides(shape) && |data| == Product(shape)
    }

    /** Builds a tensor from a flat buffer and a shape that accounts for it
        exactly, as every operation below builds its result. */
    constructor (flat: seq<real>, shape: seq<nat>)
      requires |flat| == Product(shape)
      ensures Valid() && this.shape == shape && data == flat
    {
      var st := ComputeStrides(shape);
      this.shape := shape;
      strides := st;
      data := flat;
    }

    /** Builds a tensor from nested lists, with the shape given or inferred
        from the first item at every level; ValueError when the shape does not
        account for exactly the numbers in the lists. */
    static method Create(d: Nested, shape: Option<seq<nat>>) returns (r: Result<Tensor>)
      ensures var s := if shape.Some? then shape.value else InferShape(d);
        && (r.Err? <==> Product(s) != |Flatten(d)|)
        && (r.Err? ==> r.error == ValueError)
        && (r.Ok? ==> fresh(r.value) && r.value.Valid() && r.value.shape == s && r.value.data == Flatten(d))
    {
      var s := if shape.Some? then shape.value else InferShape(d);
      var flat := Flatten(d);
      var n := ComputeNumElements(s);
      if n != |flat| {
        return Err(ValueError);
      }
      var t := new Tensor(flat, s);
      return Ok(t);
    }

    /** Row-major strides, built from the last dimension towards the first. */
    static method ComputeStrides(shape: seq<nat>) returns (st: seq<nat>)
      ensures st == Strides(shape)
    {
      var rev: seq<nat> := [];
      var product: nat := 1;
      var i := |shape|;
      while i > 0
        invariant 0 <= i <= |shape|
        invariant product == Product(shape[i..])
        invariant |rev| == |shape| - i
        invariant forall j :: 0 <= j < |rev| ==> rev[j] == Product(shape[|shape| - j..])
      {
        i := i - 1;
        rev := rev + [product];
        assert shape[i..][1..] == shape[i + 1..];
        product := product * shape[i];
      }
      st := Reverse(rev);
      forall j | 0 <= j < |shape|
        ensures st[j] == Strides(shape)[j]
      {
        assert st[j] == rev[|shape| - 1 - j];
      }
    }

    /** The element count: the product of the dimensions. */
    static method ComputeNumElements(shape: seq<nat>) returns (n: nat)
      ensures n == Product(shape)
    {
      n := 1;
      for i := 0 to |shape|
        invariant n == Product(shape[..i])
      {
        assert shape[..i + 1] == shape[..i] + [shape[i]];
        ProductSnoc(shape[..i], shape[i]);
        n := n * shape[i];
      }
      assert shape[..|shape|] == shape;
    }

    /** The multi-index of a flat position: floor-divide by each stride and keep the remainder. */
    static method UnflattenIndex(f: int, st: seq<nat>) returns (ix: seq<int>)
      requires Positive(st)
      ensures ix == Unflatten(f, st)
    {
      ix := [];
      var flat := f;
      for k := 0 to |st|
        invariant Positive(st[k..])
        invariant ix + Unflatten(flat, st[k..]) == Unflatten(f, st)
      {
        assert st[k..][1..] == st[k + 1..];
        assert Unflatten(flat, st[k..]) == [flat / st[k]] + Unflatten(flat % st[k], st[k + 1..]);
        ix := ix + [flat / st[k]];
        flat := flat % st[k];
      }
    }

    /** The flat position of a multi-index: the sum of index times stride. */
    static method FlatIndexOf(ix: seq<int>, st: seq<nat>) returns (f: int)
      requires |ix| == |st|
      ensures f == FlatIndex(ix, st)
    {
      f := 0;
      for k := 0 to |ix|
        invariant f + FlatIndex(ix[k..], st[k..]) == FlatIndex(ix, st)
      {
        assert ix[k..][1..] == ix[k + 1..] && st[k..][1..] == st[k + 1..];
        f := f + ix[k] * st[k];
      }
    }

    /** IndexError unless there is one index per dimension, each within its dimension. */
    method ValidateIndices(indices: seq<int>) returns (o: Outcome)
      ensures o == if ValidIndex(indices, shape) then Pass else Fail(IndexError)
    {
      if |indices| != |shape| {
        return Fail(IndexError);
      }
      for i := 0 to |indices|
        invariant forall j :: 0 <= j < i ==> 0 <= indices[j] < shape[j]
      {
        if !(0 <= indices[i] < shape[i]) {
          return Fail(IndexError);
        }
      }
      return Pass;
    }

    /** The element at a valid multi-index; IndexError otherwise. */
    method Get(indices: seq<int>) returns (r: Result<real>)
      requires Valid()
      ensures ValidIndex(indices, shape) ==> r == Ok(Element(shape, data, indices))
      ensures !ValidIndex(indices, shape) ==> r == Err(IndexError)
    {
      var o := ValidateIndices(indices);
      if o.Fail? {
        return Err(o.error);
      }
      var f := FlatIndexOf(indices, strides);
      FlatIndexInRange(indices, shape);
      return Ok(data[f]);
    }

    /** Overwrites the element at a valid multi-index; IndexError and no change otherwise. */
    method Set(indices: seq<int>, value: real) returns (o: Outcome)
      requires Valid()
      modifies this
      ensures Valid() && shape == old(shape)
      ensures o == if ValidIndex(indices, shape) then Pass else Fail(IndexError)
      ensures o.Fail? ==> data == old(data)
      ensures o.Pass? ==> data == Updated(shape, old(data), indices, value)
    {
      o := ValidateIndices(indices);
      if o.Fail? {
        return;
      }
      var f := FlatIndexOf(indices, strides);
      FlatIndexInRange(indices, shape);
      data := data[f := value];
    }

    /** The same buffer under another shape; ValueError when the element counts differ. */
    method Reshape(newShape: seq<nat>) returns (r: Result<Tensor>)
      requires Valid()
      ensures r.Err? <==> Product(newShape) != Product(shape)
      ensures r.Err? ==> r.error == ValueError
      ensures r.Ok? ==> fresh(r.value) && r.value.Valid() && r.value.shape == newShape && r.value.data == data
    {
      var n := ComputeNumElements(newShape);
      var m := ComputeNumElements(shape);
      if n != m {
        return Err(ValueError);
      }
      var t := new Tensor(data, newShape);
      return Ok(t);
    }

    /** Permutes the axes; the empty sequence of axes stands for the reversed
        axes. ValueError unless the axes are a permutation of the dimensions.
        The result's dimension `i` is dimension `axes[i]` of this tensor. */
    method Transpose(axes: seq<int>) returns (r: Result<Tensor>)
      requires Valid()
      ensures var ax := if |axes| == 0 then DefaultAxes(|shape|) else axes;
        && (r.Err? <==> !IsPermutation(ax, |shape|))
        && (r.Err? ==> r.error == ValueError)
        && (r.Ok? ==>
              && fresh(r.value) && r.value.Valid()
              && IsPermutation(ax, |shape|)
              && r.value.shape == Permuted(shape, ax)
              && forall ix :: ValidIndex(ix, r.value.shape) ==>
                   Element(r.value.shape, r.value.data, ix) == PermutedRead(shape, data, ax, ix))
    {
      var ax := axes;
      if |axes| == 0 {
        ax := DefaultAxes(|shape|);
      }
      var ok := CheckAxes(ax, |shape|);
      if !ok {
        return Err(ValueError);
      }
      var newShape := Permuted(shape, ax);
      var flat := TransposeFlattenedData(ax, newShape);
      var t := new Tensor(flat, newShape);
      forall ix | ValidIndex(ix, newShape)
        ensures Element(newShape, t.data, ix) == PermutedRead(shape, data, ax, ix)
      {
        TransposedDataAt(shape, data, ax, ix);
      }
      return Ok(t);
    }

    /** Whether `axes` sorted is 0, 1, ..., n - 1: each entry in range and each axis present. */
    static method CheckAxes(axes: seq<int>, n: nat) returns (ok: bool)
      ensures ok <==> IsPermutation(axes, n)
    {
      if |axes| != n {
        return false;
      }
      for i := 0 to n
        invariant forall j :: 0 <= j < i ==> 0 <= axes[j] < n
      {
        if !(0 <= axes[i] < n) {
          return false;
        }
      }
      for d := 0 to n
        invariant forall e :: 0 <= e < d ==> e in axes
      {
        if d !in axes {
          return false;
        }
      }
      return true;
    }

    /** The buffer of the transposed tensor: for each flat position of the new
        shape, the element at the un-permuted multi-index. */
    method TransposeFlattenedData(axes: seq<int>, newShape: seq<nat>) returns (flat: seq<real>)
      requires Valid() && IsPermutation(axes, |shape|) && newShape == Permuted(shape, axes)
      ensures flat == TransposedData(shape, data, axes)
    {
      var newStrides := ComputeStrides(newShape);
      var n := ComputeNumElements(newShape);
      flat := [];
      for i := 0 to n
        invariant flat == TransposedData(shape, data, axes)[..i]
      {
        UnflattenRoundTrip(i, newShape);
        var newIndices := UnflattenIndex(i, newStrides);
        var original := Unpermute(newIndices, axes);
        UnpermuteValid(newIndices, shape, axes);
        var x := Get(original);
        flat := flat + [x.value];
      }
      assert TransposedData(shape, data, axes)[..n] == TransposedData(shape, data, axes);
    }

    /** The broadcast shape of two shapes, aligned from the right; ValueError
        when an aligned pair of dimensions is unequal and neither is 1. */
    static method BroadcastShape(s1: seq<nat>, s2: seq<nat>) returns (r: Result<seq<nat>>)
      ensures Broadcast(s1, s2).Some? ==> r == Ok(Broadcast(s1, s2).value)
      ensures Broadcast(s1, s2).None? ==> r == Err(ValueError)
    {
      var r1, r2 := Reverse(s1), Reverse(s2);
      var common := if |s1| < |s2| then |s1| else |s2|;
      var rs: seq<nat> := [];
      for k := 0 to common
        invariant |rs| == k
        invariant forall j :: 0 <= j < k ==>
          CombineDim(FromRight(s1, j), FromRight(s2, j)).Some? && rs[j] == CombineDim(FromRight(s1, j), FromRight(s2, j)).value
      {
        var d1, d2 := r1[k], r2[k];
        assert d1 == FromRight(s1, k) && d2 == FromRight(s2, k);
        if d1 == d2 {
          rs := rs + [d1];
        } else if d1 == 1 {
          rs := rs + [d2];
        } else if d2 == 1 {
          rs := rs + [d1];
        } else {
          assert !Broadcastable(s1, s2);
          return Err(ValueError);
        }
      }
      assert Broadcastable(s1, s2);
      var t := Reverse(rs + r1[common..] + r2[common..]);
      BroadcastAssembled(s1, s2, rs);
      return Ok(t);
    }

    /** This tensor broadcast to `target`: ValueError unless every dimension,
        aligned from the right, is 1 or the target's dimension, and the target
        has at least as many dimensions. Each element of the result is read at
        the trailing components of its index, with 0 along dimensions of size
        1. This is the intended behaviour; BroadcastToAsWritten in module
        TensorSpec is the source's. */
    method BroadcastTo(target: seq<nat>) returns (r: Result<Tensor>)
      requires Valid()
      ensures r.Err? <==> !BroadcastsTo(shape, target)
      ensures r.Err? ==> r.error == ValueError
      ensures r.Ok? ==>
        && fresh(r.value) && r.value.Valid() && r.value.shape == target
        && r.value.data == BroadcastData(shape, data, target)
        && forall ix :: ValidIndex(ix, target) ==>
             Element(target, r.value.data, ix) == BroadcastRead(shape, data, target, ix)
    {
      var fits := FitsBroadcast(target);
      if !fits {
        return Err(ValueError);
      }
      var newData := BroadcastBuffer(target);
      var t := new Tensor(newData, target);
      forall ix | ValidIndex(ix, target)
        ensures Element(target, t.data, ix) == BroadcastRead(shape, data, target, ix)
      {
        BroadcastDataAt(shape, data, target, ix);
      }
      return Ok(t);
    }

    /** The shape check of broadcast_to: the shape, padded on the left with
        1s to the target's length, has 1 or the target's dimension everywhere. */
    method FitsBroadcast(target: seq<nat>) returns (fits: bool)
      requires Valid()
      ensures fits == BroadcastsTo(shape, target)
    {
      if |target| < |shape| {
        return false;
      }
      var pad := |target| - |shape|;
      var expanded: seq<nat> := seq(pad, _ => 1) + shape;
      for k := 0 to |target|
        invariant forall j :: 0 <= j < k ==> expanded[j] == target[j] || expanded[j] == 1
      {
        if !(expanded[k] == target[k] || expanded[k] == 1) {
          if k >= pad {
            assert FromRight(shape, |target| - 1 - k) == expanded[k];
          }
          return false;
        }
      }
      assert BroadcastsTo(shape, target) by {
        forall j | 0 <= j < |shape|
          ensures FromRight(shape, j) == 1 || FromRight(shape, j) == FromRight(target, j)
        {
          assert expanded[|target| - 1 - j] == FromRight(shape, j);
        }
      }
      return true;
    }

    /** The data loop of broadcast_to: one element per position of the target,
        read from this tensor at the source index of that position. */
    method BroadcastBuffer(target: seq<nat>) returns (newData: seq<real>)
      requires Valid() && BroadcastsTo(shape, target)
      ensures newData == BroadcastData(shape, data, target)
    {
      var targetStrides := ComputeStrides(target);
      var n := ComputeNumElements(target);
      newData := [];
      for i := 0 to n
        invariant newData == BroadcastData(shape, data, target)[..i]
      {
        UnflattenRoundTrip(i, target);
        var indices := UnflattenIndex(i, targetStrides);
        var original := SourceIndex(indices, shape);
        SourceIndexValid(indices, shape, target);
        var x := Get(original);
        newData := newData + [x.value];
      }
      assert BroadcastData(shape, data, target)[..n] == BroadcastData(shape, data, target);
    }

    /** The common broadcast shape of two tensors and both tensors broadcast to it. */
    method BroadcastOperands(other: Tensor) returns (r: Result<(seq<nat>, Tensor, Tensor)>)
      requires Valid() && other.Valid()
      ensures r.Err? <==> Broadcast(shape, other.shape).None?
      ensures r.Err? ==> r.error == ValueError
      ensures r.Ok? ==>
        var (bs, t1, t2) := r.value;
        && Broadcast(shape, other.shape) == Some(bs)
        && BroadcastsTo(shape, bs) && BroadcastsTo(other.shape, bs)
        && fresh(t1) && t1.Valid() && t1.shape == bs
        && fresh(t2) && t2.Valid() && t2.shape == bs
        && (forall ix :: ValidIndex(ix, bs) ==> Element(bs, t1.data, ix) == BroadcastRead(shape, data, bs, ix))
        && (forall ix :: ValidIndex(ix, bs) ==> Element(bs, t2.data, ix) == BroadcastRead(other.shape, other.data, bs, ix))
    {
      var s := BroadcastShape(shape, other.shape);
      if s.Err? {
        return Err(s.error);
      }
      var bs := s.value;
      BroadcastIsCommonTarget(shape, other.shape);
      var a := BroadcastTo(bs);
      var b := other.BroadcastTo(bs);
      return Ok((bs, a.value, b.value));
    }

    /** Element-wise sum after broadcasting both tensors to their common shape;
        ValueError when the shapes do not broadcast. */
    method Add(other: Tensor) returns (r: Result<Tensor>)
      requires Valid() && other.Valid()
      ensures r.Err? <==> Broadcast(shape, other.shape).None?
      ensures r.Err? ==> r.error == ValueError
      ensures r.Ok? ==>
        var bs := Broadcast(shape, other.shape).value;
        && fresh(r.value) && r.value.Valid() && r.value.shape == bs
        && BroadcastsTo(shape, bs) && BroadcastsTo(other.shape, bs)
        && forall ix :: ValidIndex(ix, bs) ==>
             Element(bs, r.value.data, ix) == BroadcastRead(shape, data, bs, ix) + BroadcastRead(other.shape, other.data, bs, ix)
    {
      var ops := BroadcastOperands(other);
      if ops.Err? {
        return Err(ops.error);
      }
      var (bs, t1, t2) := ops.value;
      var op := (x: real, y: real) => x + y;
      var resultData := Elementwise(t1, t2, op);
      var t := new Tensor(resultData, bs);
      ElementwiseAt(bs, t.data, t1.data, t2.data, op, shape, data, other.shape, other.data);
      return Ok(t);
    }

    /** Element-wise difference after broadcasting both tensors to their common
        shape; ValueError when the shapes do not broadcast. */
    method Subtract(other: Tensor) returns (r: Result<Tensor>)
      requires Valid() && other.Valid()
      ensures r.Err? <==> Broadcast(shape, other.shape).None?
      ensures r.Err? ==> r.error == ValueError
      ensures r.Ok? ==>
        var bs := Broadcast(shape, other.shape).value;
        && fresh(r.value) && r.value.Valid() && r.value.shape == bs
        && BroadcastsTo(shape, bs) && BroadcastsTo(other.shape, bs)
        && forall ix :: ValidIndex(ix, bs) ==>
             Element(bs, r.value.data, ix) == BroadcastRead(shape, data, bs, ix) - BroadcastRead(other.shape, other.data, bs, ix)
    {
      var ops := BroadcastOperands(other);
      if ops.Err? {
        return Err(ops.error);
      }
      var (bs, t1, t2) := ops.value;
      var op := (x: real, y: real) => x - y;
      var resultData := Elementwise(t1, t2, op);
      var t := new Tensor(resultData, bs);
      ElementwiseAt(bs, t.data, t1.data, t2.data, op, shape, data, other.shape, other.data);
      return Ok(t);
    }

    /** Element-wise product after broadcasting both tensors to their common
        shape; ValueError when the shapes do not broadcast. */
    method HadamardProduct(other: Tensor) returns (r: Result<Tensor>)
      requires Valid() && other.Valid()
      ensures r.Err? <==> Broadcast(shape, other.shape).None?
      ensures r.Err? ==> r.error == ValueError
      ensures r.Ok? ==>
        var bs := Broadcast(shape, other.shape).value;
        && fresh(r.value) && r.value.Valid() && r.value.shape == bs
        && BroadcastsTo(shape, bs) && BroadcastsTo(other.shape, bs)
        && forall ix :: ValidIndex(ix, bs) ==>
             Element(bs, r.value.data, ix) == BroadcastRead(shape, data, bs, ix) * BroadcastRead(other.shape, other.data, bs, ix)
    {
      var ops := BroadcastOperands(other);
      if ops.Err? {
        return Err(ops.error);
      }
      var (bs, t1, t2) := ops.value;
      var op := (x: real, y: real) => x * y;
      var resultData := Elementwise(t1, t2, op);
      var t := new Tensor(resultData, bs);
      ElementwiseAt(bs, t.data, t1.data, t2.data, op, shape, data, other.shape, other.data);
      return Ok(t);
    }

    /** For each flat position of two tensors of the same shape, `op` of
        their elements, read through the multi-index of the position. */
    static method Elementwise(t1: Tensor, t2: Tensor, op: (real, real) -> real) returns (resultData: seq<real>)
      requires t1.Valid() && t2.Valid() && t1.shape == t2.shape
      ensures |resultData| == |t1.data|
      ensures forall j :: 0 <= j < |t1.data| ==> resultData[j] == op(t1.data[j], t2.data[j])
    {
      var n := ComputeNumElements(t1.shape);
      resultData := [];
      for i := 0 to n
        invariant |resultData| == i
        invariant forall j :: 0 <= j < i ==> resultData[j] == op(t1.data[j], t2.data[j])
      {
        var a := ReadFlat(t1, i);
        var b := ReadFlat(t2, i);
        resultData := resultData + [op(a, b)];
      }
    }

    /** The element at flat position `i`, read through its multi-index as the
        element-wise operations do. */
    static method ReadFlat(t: Tensor, i: int) returns (x: real)
      requires t.Valid() && 0 <= i < |t.data|
      ensures x == t.data[i]
    {
      UnflattenRoundTrip(i, t.shape);
      var ix := UnflattenIndex(i, t.strides);
      var v := t.Get(ix);
      x := v.value;
    }

    /** Batched matrix product of shapes (..., m, k) and (..., k, n) into
        (..., m, n), broadcasting the batch dimensions when they differ.
        IndexError when this tensor has no dimension or the other fewer than
        two; ValueError when the inner dimensions differ, when this tensor has
        a single dimension, or when the batch shapes do not broadcast. */
    method Multiply(other: Tensor) returns (r: Result<Tensor>)
      requires Valid() && other.Valid()
      ensures |shape| == 0 || |other.shape| < 2 ==> r == Err(IndexError)
      ensures |shape| >= 1 && |other.shape| >= 2 && !MatMulShapes(shape, other.shape) ==> r == Err(ValueError)
      ensures MatMulShapes(shape, other.shape) && BatchShape(shape, other.shape).None? ==> r == Err(ValueError)
      ensures MatMulShapes(shape, other.shape) && BatchShape(shape, other.shape).Some? ==> r.Ok?
      ensures r.Ok? ==>
        && MatMulShapes(shape, other.shape) && BatchShape(shape, other.shape).Some?
        && var rs := BatchShape(shape, other.shape).value + [shape[|shape| - 2], other.shape[|other.shape| - 1]];
        && fresh(r.value) && r.value.Valid() && r.value.shape == rs
        && forall ix :: ValidIndex(ix, rs) ==>
             Element(rs, r.value.data, ix) == MatMulAt(shape, data, other.shape, other.data, ix)
    {
      if |shape| == 0 || |other.shape| < 2 {
        return Err(IndexError);
      }
      if shape[|shape| - 1] != other.shape[|other.shape| - 2] {
        return Err(ValueError);
      }
      if |shape| < 2 {
        return Err(ValueError);
      }
      r := MultiplyAligned(other);
    }

    /** The batched product once the matrix dimensions are known to align. */
    method MultiplyAligned(other: Tensor) returns (r: Result<Tensor>)
      requires Valid() && other.Valid() && MatMulShapes(shape, other.shape)
      ensures r.Err? <==> BatchShape(shape, other.shape).None?
      ensures r.Err? ==> r.error == ValueError
      ensures r.Ok? ==>
        && BatchShape(shape, other.shape).Some?
        && var rs := BatchShape(shape, other.shape).value + [shape[|shape| - 2], other.shape[|other.shape| - 1]];
        && fresh(r.value) && r.value.Valid() && r.value.shape == rs
        && forall ix :: ValidIndex(ix, rs) ==>
             Element(rs, r.value.data, ix) == MatMulAt(shape, data, other.shape, other.data, ix)
    {
      var m, n := shape[|shape| - 2], other.shape[|other.shape| - 1];
      var ops := BatchOperands(other);
      if ops.Err? {
        return Err(ops.error);
      }
      var (bs, a, b) := ops.value;
      var rs := bs + [m, n];
      var resultData := ProductBuffer(a, b, bs, m, n, shape, data, other.shape, other.data);
      var t := new Tensor(resultData, rs);
      forall ix | ValidIndex(ix, rs)
        ensures Element(rs, t.data, ix) == MatMulAt(shape, data, other.shape, other.data, ix)
      {
        MatMulDataAt(shape, data, other.shape, other.data, ix);
      }
      return Ok(t);
    }

    /** The buffer of the batched product of `a` and `b`, which hold the
        operands (`sa`, `da`) and (`sb`, `db`) broadcast to the batch shape
        `bs`: one inner sum per index of the result shape, in row-major order. */
    static method ProductBuffer(a: Tensor, b: Tensor, bs: seq<nat>, m: nat, n: nat,
                                ghost sa: seq<nat>, ghost da: seq<real>, ghost sb: seq<nat>, ghost db: seq<real>)
      returns (resultData: seq<real>)
      requires a.Valid() && b.Valid()
      requires MatMulShapes(sa, sb) && |da| == Product(sa) && |db| == Product(sb)
      requires BatchShape(sa, sb) == Some(bs) && m == sa[|sa| - 2] && n == sb[|sb| - 1]
      requires a.shape == bs + sa[|sa| - 2..] && b.shape == bs + sb[|sb| - 2..]
      requires BroadcastsTo(sa, a.shape) && BroadcastsTo(sb, b.shape)
      requires a.data == BroadcastData(sa, da, a.shape) && b.data == BroadcastData(sb, db, b.shape)
      ensures resultData == MatMulData(sa, da, sb, db)
    {
      var rs := bs + [m, n];
      var resultStrides := ComputeStrides(rs);
      var count := ComputeNumElements(rs);
      resultData := [];
      for i := 0 to count
        invariant resultData == MatMulData(sa, da, sb, db)[..i]
      {
        UnflattenRoundTrip(i, rs);
        var indices := UnflattenIndex(i, resultStrides);
        ValidIndexSplit(indices, bs, [m, n]);
        var batch := indices[..|bs|];
        var row, col := indices[|bs|], indices[|bs| + 1];
        assert indices[|bs|..][0] == row && indices[|bs|..][1] == col;
        var total := BatchedDot(a, b, batch, row, col, sa, da, sb, db, bs);
        resultData := resultData + [total];
      }
      assert MatMulData(sa, da, sb, db)[..count] == MatMulData(sa, da, sb, db);
    }

    /** The batch shape of a product and both operands broadcast to it: this
        tensor and `other` themselves when their batch shapes are equal;
        ValueError when they do not broadcast. */
    method BatchOperands(other: Tensor) returns (r: Result<(seq<nat>, Tensor, Tensor)>)
      requires Valid() && other.Valid() && MatMulShapes(shape, other.shape)
      ensures r.Err? <==> BatchShape(shape, other.shape).None?
      ensures r.Err? ==> r.error == ValueError
      ensures r.Ok? ==>
        var (bs, a, b) := r.value;
        && BatchShape(shape, other.shape) == Some(bs)
        && a.Valid() && a.shape == bs + shape[|shape| - 2..]
        && b.Valid() && b.shape == bs + other.shape[|other.shape| - 2..]
        && BroadcastsTo(shape, a.shape) && BroadcastsTo(other.shape, b.shape)
        && a.data == BroadcastData(shape, data, a.shape)
        && b.data == BroadcastData(other.shape, other.data, b.shape)
    {
      var batchA, batchB := shape[..|shape| - 2], other.shape[..|other.shape| - 2];
      var tailA, tailB := shape[|shape| - 2..], other.shape[|other.shape| - 2..];
      if batchA != batchB {
        var s := BroadcastShape(batchA, batchB);
        if s.Err? {
          return Err(s.error);
        }
        var bs := s.value;
        BatchShapeFits(shape, other.shape);
        var ra := BroadcastTo(bs + tailA);
        var rb := other.BroadcastTo(bs + tailB);
        return Ok((bs, ra.value, rb.value));
      }
      assert batchA + tailA == shape && batchB + tailB == other.shape;
      BroadcastDataSelf(shape, data);
      BroadcastDataSelf(other.shape, other.data);
      return Ok((batchA, this, other));
    }

    /** The sum over the inner index of a[batch, row, k] * b[batch, k, col],
        where `a` and `b` hold the operands (`sa`, `da`) and (`sb`, `db`)
        broadcast to the batch shape `bs`. */
    static method BatchedDot(a: Tensor, b: Tensor, batch: seq<int>, row: int, col: int,
                             ghost sa: seq<nat>, ghost da: seq<real>, ghost sb: seq<nat>, ghost db: seq<real>,
                             ghost bs: seq<nat>) returns (total: real)
      requires a.Valid() && b.Valid()
      requires MatMulShapes(sa, sb) && |da| == Product(sa) && |db| == Product(sb)
      requires a.shape == bs + sa[|sa| - 2..] && b.shape == bs + sb[|sb| - 2..]
      requires BroadcastsTo(sa, a.shape) && BroadcastsTo(sb, b.shape)
      requires a.data == BroadcastData(sa, da, a.shape) && b.data == BroadcastData(sb, db, b.shape)
      requires ValidIndex(batch, bs) && 0 <= row < sa[|sa| - 2] && 0 <= col < sb[|sb| - 1]
      ensures total == MatMulEntry(sa, da, sb, db, bs, batch, row, col, sa[|sa| - 1])
    {
      total := 0.0;
      var inner := a.shape[|a.shape| - 1];
      assert inner == sa[|sa| - 1];
      for k := 0 to inner
        invariant total == MatMulEntry(sa, da, sb, db, bs, batch, row, col, k)
      {
        total := DotStep(a, b, batch, row, col, k, total, sa, da, sb, db, bs);
      }
    }

    /** One term of BatchedDot: adds a[batch, row, k] * b[batch, k, col] to
        the sum over the first `k` values of the inner index. */
    static method DotStep(a: Tensor, b: Tensor, batch: seq<int>, row: int, col: int, k: nat, total: real,
                          ghost sa: seq<nat>, ghost da: seq<real>, ghost sb: seq<nat>, ghost db: seq<real>,
                          ghost bs: seq<nat>) returns (next: real)
      requires a.Valid() && b.Valid()
      requires MatMulShapes(sa, sb) && |da| == Product(sa) && |db| == Product(sb)
      requires a.shape == bs + sa[|sa| - 2..] && b.shape == bs + sb[|sb| - 2..]
      requires BroadcastsTo(sa, a.shape) && BroadcastsTo(sb, b.shape)
      requires a.data == BroadcastData(sa, da, a.shape) && b.data == BroadcastData(sb, db, b.shape)
      requires ValidIndex(batch, bs) && 0 <= row < sa[|sa| - 2] && 0 <= col < sb[|sb| - 1]
      requires k < sa[|sa| - 1] && total == MatMulEntry(sa, da, sb, db, bs, batch, row, col, k)
      ensures next == MatMulEntry(sa, da, sb, db, bs, batch, row, col, k + 1)
    {
      ValidIndexAppend(batch, [row, k], bs, sa[|sa| - 2..]);
      ValidIndexAppend(batch, [k, col], bs, sb[|sb| - 2..]);
      var x := ReadBroadcast(a, batch + [row, k], sa, da);
      var y := ReadBroadcast(b, batch + [k, col], sb, db);
      next := total + x * y;
    }

    /** The element at `ix` of a tensor that holds `d` of shape `s` broadcast
        to its own shape. */
    static method ReadBroadcast(t: Tensor, ix: seq<int>, ghost s: seq<nat>, ghost d: seq<real>) returns (v: real)
      requires t.Valid() && |d| == Product(s) && BroadcastsTo(s, t.shape)
      requires t.data == BroadcastData(s, d, t.shape) && ValidIndex(ix, t.shape)
      ensures v == BroadcastRead(s, d, t.shape, ix)
    {
      var x := t.Get(ix);
      BroadcastDataAt(s, d, t.shape, ix);
      v := x.value;
    }

    /** The data loop of partial for a sub-tensor with elements: each position
        of the sub-tensor is read at its index shifted by `start`; IndexError
        at the first shifted index that leaves this tensor. */
    method PartialBuffer(start: seq<int>, ps: seq<nat>) returns (r: Result<seq<real>>)
      requires Valid() && |start| == |shape| && |ps| == |shape| && Product(ps) > 0
      ensures Positive(Strides(ps))
      ensures r.Err? ==> r.error == IndexError
      ensures r.Err? ==> exists j :: 0 <= j < Product(ps) && !ValidIndex(Offset(start, Unflatten(j, Strides(ps))), shape)
      ensures r.Ok? ==> |r.value| == Product(ps) && forall j :: 0 <= j < Product(ps) ==>
        && ValidIndex(Offset(start, Unflatten(j, Strides(ps))), shape)
        && r.value[j] == Element(shape, data, Offset(start, Unflatten(j, Strides(ps))))
    {
      ProductPositive(ps);
      var psStrides := ComputeStrides(ps);
      var count := ComputeNumElements(ps);
      var subData: seq<real> := [];
      for i := 0 to count
        invariant |subData| == i
        invariant forall j :: 0 <= j < i ==>
          && ValidIndex(Offset(start, Unflatten(j, Strides(ps))), shape)
          && subData[j] == Element(shape, data, Offset(start, Unflatten(j, Strides(ps))))
      {
        UnflattenRoundTrip(i, ps);
        var subIndices := UnflattenIndex(i, psStrides);
        var original := Offset(start, subIndices);
        var x := Get(original);
        if x.Err? {
          return Err(x.error);
        }
        subData := subData + [x.value];
      }
      return Ok(subData);
    }

    /** The sub-tensor from `start` (inclusive) to `end` (exclusive) in every
        dimension. ValueError when either bound has the wrong number of
        components; IndexError when the sub-tensor has elements and the bounds
        leave the tensor. */
    method Partial(start: seq<int>, end: seq<int>) returns (r: Result<Tensor>)
      requires Valid()
      requires |start| == |shape| && |end| == |shape| ==> forall i :: 0 <= i < |start| ==> start[i] <= end[i]
      ensures |start| != |shape| || |end| != |shape| ==> r == Err(ValueError)
      ensures |start| == |shape| && |end| == |shape| ==>
        var ps := PartialShape(start, end);
        && (r.Err? <==> Product(ps) > 0 && !InBounds(start, end, shape))
        && (r.Err? ==> r.error == IndexError)
        && (r.Ok? ==>
              && fresh(r.value) && r.value.Valid() && r.value.shape == ps
              && forall ix :: ValidIndex(ix, ps) && InBounds(start, end, shape) ==>
                   Element(ps, r.value.data, ix) == Element(shape, data, Offset(start, ix)))
    {
      if |start| != |shape| || |end| != |shape| {
        return Err(ValueError);
      }
      var ps := PartialShape(start, end);
      var count := ComputeNumElements(ps);
      var subData: seq<real> := [];
      if count > 0 {
        var x := PartialBuffer(start, ps);
        if x.Err? {
          if InBounds(start, end, shape) {
            var j :| 0 <= j < Product(ps) && !ValidIndex(Offset(start, Unflatten(j, Strides(ps))), shape);
            UnflattenRoundTrip(j, ps);
            OffsetValid(start, end, shape, Unflatten(j, Strides(ps)));
            assert false;
          }
          return Err(x.error);
        }
        subData := x.value;
        PartialInBounds(start, end, shape);
      }
      var t := new Tensor(subData, ps);
      forall ix | ValidIndex(ix, ps) && InBounds(start, end, shape)
        ensures Element(ps, t.data, ix) == Element(shape, data, Offset(start, ix))
      {
        FlatIndexInRange(ix, ps);
        FlattenRoundTrip(ix, ps);
        UnflattenRoundTrip(FlatIndex(ix, Strides(ps)), ps);
      }
      return Ok(t);
    }
  }
}
