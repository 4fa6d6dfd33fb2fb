/** The tensor broadcast kernel (cranelift/mod.rs, lirien_tensor_broadcast_f32), for all ranks and
    shapes. Floats are copied, never computed with, so they are opaque tokens. */
module Broadcast {
  import Bits

  type Shape = seq<nat>

  function Product(dims: Shape): nat {
    if dims == [] then 1 else dims[0] * Product(dims[1..])
  }

  // ----- row-major indexing -----

  /** idx names a cell of dims. */
  ghost predicate Within(dims: Shape, idx: seq<nat>) {
    |idx| == |dims| && forall k | 0 <= k < |dims| :: idx[k] < dims[k]
  }

  /** The row-major position of a cell. */
  function Offset(dims: Shape, idx: seq<nat>): nat
    requires |idx| == |dims|
  {
    if dims == [] then 0 else idx[0] * Product(dims[1..]) + Offset(dims[1..], idx[1..])
  }

  /** The cell at a row-major position. */
  function CellAt(dims: Shape, i: nat): (idx: seq<nat>)
    requires i < Product(dims)
    ensures |idx| == |dims|
  {
    if dims == [] then []
    else
      TailPositive(dims, i);
      [i / Product(dims[1..])] + CellAt(dims[1..], i % Product(dims[1..]))
  }

  lemma TailPositive(dims: Shape, i: nat)
    requires dims != [] && i < Product(dims)
    ensures Product(dims[1..]) > 0
  {
    FactorPositive(dims[0], Product(dims[1..]));
  }

  lemma FactorPositive(a: nat, b: nat)
    ensures a * b > 0 ==> b > 0
  {
  }

  /** Every cell's position is inside the buffer. */
  lemma {:induction false} OffsetInBounds(dims: Shape, idx: seq<nat>)
    requires Within(dims, idx)
    ensures Offset(dims, idx) < Product(dims)
  {
    if dims != [] {
      OffsetInBounds(dims[1..], idx[1..]);
      RowFits(idx[0], dims[0], Offset(dims[1..], idx[1..]), Product(dims[1..]));
    }
  }

  lemma RowFits(a: nat, n: nat, b: nat, m: nat)
    requires a < n && b < m
    ensures a * m + b < n * m
  {
    assert n * m == a * m + (n - a) * m;
    assert (n - a) * m == m + (n - a - 1) * m;
    assert (n - a - 1) * m >= 0;
  }

  lemma QuotientBelow(i: nat, n: nat, m: nat)
    requires m > 0 && i < n * m
    ensures i / m < n
  {
    var q := i / m;
    assert i == m * q + i % m;
    Bits.MulAtLeast(q - n, m);
    assert (q - n) * m == q * m - n * m;
  }

  /** The div/mod walk inverts row-major indexing, one way ... */
  lemma {:induction false} OffsetOfCell(dims: Shape, i: nat)
    requires i < Product(dims)
    ensures Within(dims, CellAt(dims, i)) && Offset(dims, CellAt(dims, i)) == i
  {
    if dims != [] {
      TailPositive(dims, i);
      var m := Product(dims[1..]);
      QuotientBelow(i, dims[0], m);
      OffsetOfCell(dims[1..], i % m);
      var idx := CellAt(dims, i);
      assert idx[0] == i / m && idx[1..] == CellAt(dims[1..], i % m);
      assert Offset(dims, idx) == (i / m) * m + i % m;
    }
  }

  /** ... and the other. */
  lemma {:induction false} CellOfOffset(dims: Shape, idx: seq<nat>)
    requires Within(dims, idx)
    ensures Offset(dims, idx) < Product(dims) && CellAt(dims, Offset(dims, idx)) == idx
  {
    OffsetInBounds(dims, idx);
    if dims != [] {
      OffsetInBounds(dims[1..], idx[1..]);
      CellOfOffset(dims[1..], idx[1..]);
      Bits.DivModUnique(Offset(dims, idx), Product(dims[1..]), idx[0], Offset(dims[1..], idx[1..]));
      assert idx == [idx[0]] + idx[1..];
    }
  }

  /** One step along dimension k moves by the size of what that dimension steps over, 1 for the last. */
  lemma {:induction false} OffsetOfNeighbour(dims: Shape, idx: seq<nat>, k: nat)
    requires |idx| == |dims| && k < |dims|
    ensures Offset(dims, idx[k := idx[k] + 1]) == Offset(dims, idx) + Product(dims[k + 1..])
    ensures k == |dims| - 1 ==> Product(dims[k + 1..]) == 1
    ensures k < |dims| - 1 ==> Product(dims[k + 1..]) == dims[k + 1] * Product(dims[k + 2..])
    decreases k
  {
    var next := idx[k := idx[k] + 1];
    if k == 0 {
      assert next[1..] == idx[1..];
      assert (idx[0] + 1) * Product(dims[1..]) == idx[0] * Product(dims[1..]) + Product(dims[1..]);
    } else {
      assert next[1..] == idx[1..][k - 1 := idx[1..][k - 1] + 1];
      assert dims[1..][k..] == dims[k + 1..];
      OffsetOfNeighbour(dims[1..], idx[1..], k - 1);
    }
    if k < |dims| - 1 { assert dims[k + 1..][0] == dims[k + 1] && dims[k + 1..][1..] == dims[k + 2..]; }
  }

  lemma {:induction false} OffsetOfFirst(dims: Shape, idx: seq<nat>)
    requires |idx| == |dims| && forall k | 0 <= k < |idx| :: idx[k] == 0
    ensures Offset(dims, idx) == 0
  {
    if dims != [] { OffsetOfFirst(dims[1..], idx[1..]); }
  }

  // ----- broadcasting -----

  /** Right-aligned dimensions are equal or 1 in the source. */
  ghost predicate Broadcastable(src: Shape, target: Shape) {
    && |src| <= |target|
    && forall k | 0 <= k < |src| :: src[k] == target[|target| - |src| + k] || src[k] == 1
  }

  /** The source cell a target cell shows: leading dimensions dropped, stretched ones at 0. */
  function SourceCell(src: Shape, idx: seq<nat>): (r: seq<nat>)
    requires |src| <= |idx|
    ensures |r| == |src|
  {
    seq(|src|, k requires 0 <= k < |src| => if src[k] == 1 then 0 else idx[|idx| - |src| + k])
  }

  /** Every source read is of a cell of the source. */
  lemma SourceCellWithin(src: Shape, target: Shape, idx: seq<nat>)
    requires Broadcastable(src, target) && Within(target, idx)
    ensures Within(src, SourceCell(src, idx))
  {
  }

  /** Target cell idx shows cell of the source: counted from the last dimension they have the same coordinates,
      but where the source has length 1. */
  ghost predicate Shows(src: Shape, idx: seq<nat>, cell: seq<nat>) {
    Within(src, cell) && |src| <= |idx|
    && forall k | 0 <= k < |src| :: src[k] == 1 || cell[k] == idx[|idx| - |src| + k]
  }

  /** A target cell shows exactly one cell of the source; with equal shapes, itself. */
  lemma ShownCell(src: Shape, target: Shape, idx: seq<nat>, cell: seq<nat>)
    requires Broadcastable(src, target) && Within(target, idx)
    ensures Shows(src, idx, cell) <==> cell == SourceCell(src, idx)
    ensures src == target ==> SourceCell(src, idx) == idx
  {
    SourceCellWithin(src, target, idx);
    if Shows(src, idx, cell) {
      forall k | 0 <= k < |src| ensures cell[k] == SourceCell(src, idx)[k] { }
    }
    if src == target {
      forall k | 0 <= k < |src| ensures SourceCell(src, idx)[k] == idx[k] { }
    }
  }

  /** The distance between neighbours along each dimension. */
  function RowStride(dims: Shape, k: nat): nat
    requires k < |dims|
  {
    Product(dims[k + 1..])
  }

  function BroadcastStride(src: Shape, target: Shape, t: nat): nat
    requires |src| <= |target| && t < |target|
  {
    var pad := |target| - |src|;
    if t < pad then 0
    else if src[t - pad] == target[t] then RowStride(src, t - pad)
    else 0
  }

  function BroadcastStrides(src: Shape, target: Shape): (r: seq<nat>)
    requires |src| <= |target|
    ensures |r| == |target|
  {
    seq(|target|, t requires 0 <= t < |target| => BroadcastStride(src, target, t))
  }

  /** The source position the kernel accumulates while splitting i over the target's dimensions. */
  function Accumulated(target: Shape, strides: seq<nat>, i: nat): nat
    requires |strides| == |target| && i < Product(target)
  {
    if target == [] then 0
    else
      TailPositive(target, i);
      Term(i, Product(target[1..]), strides[0]) + Accumulated(target[1..], strides[1..], i % Product(target[1..]))
  }

  function Term(i: nat, length: nat, stride: nat): nat
    requires length > 0
  {
    i / length * stride
  }

  lemma TailStrides(src: Shape, target: Shape)
    requires |src| <= |target| && target != []
    ensures |src| < |target| ==> BroadcastStrides(src, target)[1..] == BroadcastStrides(src, target[1..])
    ensures |src| == |target| ==> BroadcastStrides(src, target)[1..] == BroadcastStrides(src[1..], target[1..])
  {
    var bs := BroadcastStrides(src, target);
    if |src| == |target| {
      forall t | 0 <= t < |target| - 1 ensures bs[1..][t] == BroadcastStride(src[1..], target[1..], t) {
        assert src[t + 1 + 1..] == src[1..][t + 1..];
      }
    }
  }

  /** The accumulated position is the position of the source cell. */
  lemma {:induction false} AccumulatedIsOffset(src: Shape, target: Shape, i: nat)
    requires Broadcastable(src, target) && i < Product(target)
    ensures Accumulated(target, BroadcastStrides(src, target), i) == Offset(src, SourceCell(src, CellAt(target, i)))
  {
    if target != [] {
      TailPositive(target, i);
      TailStrides(src, target);
      var m := Product(target[1..]);
      var idx := CellAt(target, i);
      assert idx[1..] == CellAt(target[1..], i % m);
      if |src| < |target| {
        AccumulatedIsOffset(src, target[1..], i % m);
        assert SourceCell(src, idx) == SourceCell(src, idx[1..]);
        assert Term(i, m, BroadcastStrides(src, target)[0]) == 0;
      } else {
        TailCell(src, target, idx);
        AccumulatedIsOffset(src[1..], target[1..], i % m);
        HeadTerm(src, target, i);
      }
    }
  }

  lemma TailCell(src: Shape, target: Shape, idx: seq<nat>)
    requires Broadcastable(src, target) && |src| == |target| == |idx| > 0
    ensures Broadcastable(src[1..], target[1..]) && SourceCell(src, idx)[1..] == SourceCell(src[1..], idx[1..])
  {
    assert forall k | 0 <= k < |src| - 1 :: src[1..][k] == src[k + 1];
  }

  /** The first dimension contributes its coordinate times the source's row length, or nothing. */
  lemma HeadTerm(src: Shape, target: Shape, i: nat)
    requires Broadcastable(src, target) && |src| == |target| > 0 && i < Product(target)
    ensures Product(target[1..]) > 0
    ensures Term(i, Product(target[1..]), BroadcastStrides(src, target)[0])
         == SourceCell(src, CellAt(target, i))[0] * Product(src[1..])
  {
    TailPositive(target, i);
    QuotientBelow(i, target[0], Product(target[1..]));
    assert CellAt(target, i)[0] == i / Product(target[1..]);
    assert BroadcastStrides(src, target)[0] == BroadcastStride(src, target, 0);
    if src[0] == 1 {
      assert SourceCell(src, CellAt(target, i))[0] == 0;
    } else {
      assert BroadcastStride(src, target, 0) == Product(src[1..]);
    }
  }

  // ----- the kernel -----

  method SourceStrides(dims: Shape) returns (strides: array<nat>)
    ensures fresh(strides) && strides.Length == |dims|
    ensures forall k | 0 <= k < |dims| :: strides[k] == RowStride(dims, k)
  {
    strides := new nat[|dims|](_ => 1);
    var i := |dims| - 1;
    while i > 0
      invariant -1 <= i < |dims|
      invariant forall k | 0 <= k < |dims| :: k >= i ==> strides[k] == RowStride(dims, k)
    {
      i := i - 1;
      assert dims[i + 1..][0] == dims[i + 1] && dims[i + 1..][1..] == dims[i + 2..];
      strides[i] := strides[i + 1] * dims[i + 1];
    }
  }

  method KernelStrides(src: Shape, target: Shape) returns (strides: array<nat>)
    requires |src| <= |target|
    ensures fresh(strides) && strides[..] == BroadcastStrides(src, target)
  {
    var srcStrides := SourceStrides(src);
    strides := new nat[|target|](_ => 0);
    for i := 0 to |target|
      invariant strides.Length == |target| && srcStrides.Length == |src|
      invariant forall k | 0 <= k < |src| :: srcStrides[k] == RowStride(src, k)
      invariant forall t | 0 <= t < |target| - i :: strides[t] == 0
      invariant forall t | |target| - i <= t < |target| :: strides[t] == BroadcastStride(src, target, t)
    {
      var t, s := |target| - 1 - i, |src| - 1 - i;
      if s >= 0 {
        if src[s] == target[t] {
          strides[t] := srcStrides[s];
        } else if src[s] == 1 {
          strides[t] := 0;
        }
      }
    }
  }

  method TotalSize(dims: Shape) returns (total: nat)
    ensures total == Product(dims)
  {
    total := 1;
    for k := 0 to |dims|
      invariant total * Product(dims[k..]) == Product(dims)
    {
      assert dims[k..][0] == dims[k] && dims[k..][1..] == dims[k + 1..];
      assert total * (dims[k] * Product(dims[k + 1..])) == (total * dims[k]) * Product(dims[k + 1..]);
      total := total * dims[k];
    }
  }

  /** The inner loop: splits a position over the target's dimensions. */
  method SourceOffset(target: Shape, strides: array<nat>, total: nat, i: nat) returns (offset: nat)
    requires strides.Length == |target| && total == Product(target) && i < total
    ensures offset == Accumulated(target, strides[..], i)
  {
    var curr := i;
    offset := 0;
    var stride := total;
    for j := 0 to |target|
      invariant stride == Product(target[j..]) && curr < stride
      invariant offset + Accumulated(target[j..], strides[..][j..], curr) == Accumulated(target, strides[..], i)
    {
      assert target[j..][0] == target[j] && target[j..][1..] == target[j + 1..];
      assert strides[..][j..][1..] == strides[..][j + 1..];
      TailPositive(target[j..], curr);
      NextStride(target[j], Product(target[j + 1..]));
      stride := stride / target[j];
      var dim := curr / stride;
      offset := offset + dim * strides[j];
      curr := curr % stride;
    }
  }

  lemma NextStride(d: nat, m: nat)
    requires d * m > 0
    ensures d > 0 && d * m / d == m
  {
    assert d > 0;
    Bits.DivModUnique(d * m, d, m, 0);
  }

  /** The kernel reads the source cell shown at position i, which is inside the source. */
  lemma ReadInBounds(src: Shape, target: Shape, i: nat)
    requires Broadcastable(src, target) && i < Product(target)
    ensures Accumulated(target, BroadcastStrides(src, target), i) == Offset(src, SourceCell(src, CellAt(target, i)))
    ensures Offset(src, SourceCell(src, CellAt(target, i))) < Product(src)
  {
    AccumulatedIsOffset(src, target, i);
    OffsetOfCell(target, i);
    SourceCellWithin(src, target, CellAt(target, i));
    OffsetInBounds(src, SourceCell(src, CellAt(target, i)));
  }

  /** Each target cell holds the source cell it shows, and every source read is in bounds. */
  method Broadcast<T(0)>(src: array<T>, srcDims: Shape, targetDims: Shape) returns (dest: array<T>)
    requires Broadcastable(srcDims, targetDims) && src.Length == Product(srcDims)
    ensures fresh(dest) && dest.Length == Product(targetDims)
    ensures forall idx | Within(targetDims, idx) ::
              Offset(targetDims, idx) < dest.Length && Offset(srcDims, SourceCell(srcDims, idx)) < src.Length
              && dest[Offset(targetDims, idx)] == src[Offset(srcDims, SourceCell(srcDims, idx))]
    ensures forall idx, cell | Within(targetDims, idx) && Shows(srcDims, idx, cell) ::
              Offset(targetDims, idx) < dest.Length && Offset(srcDims, cell) < src.Length
              && dest[Offset(targetDims, idx)] == src[Offset(srcDims, cell)]
  {
    var total := TotalSize(targetDims);
    dest := new T[total];
    var strides := KernelStrides(srcDims, targetDims);
    for i := 0 to total
      invariant strides[..] == BroadcastStrides(srcDims, targetDims)
      invariant forall k | 0 <= k < i ::
        var cell := SourceCell(srcDims, CellAt(targetDims, k));
        Offset(srcDims, cell) < src.Length && dest[k] == src[Offset(srcDims, cell)]
    {
      var offset := SourceOffset(targetDims, strides, total, i);
      ReadInBounds(srcDims, targetDims, i);
      dest[i] := src[offset];
    }
    forall idx | Within(targetDims, idx)
      ensures Offset(targetDims, idx) < dest.Length && Offset(srcDims, SourceCell(srcDims, idx)) < src.Length
        && dest[Offset(targetDims, idx)] == src[Offset(srcDims, SourceCell(srcDims, idx))]
    {
      CellOfOffset(targetDims, idx);
    }
    forall idx, cell | Within(targetDims, idx) && Shows(srcDims, idx, cell)
      ensures cell == SourceCell(srcDims, idx)
    {
      ShownCell(srcDims, targetDims, idx, cell);
    }
  }
}
