/** The growable list of the run-time (cranelift/mod.rs, ListHeader): bytes in one allocation that
    doubles when full. It behaves as a sequence of elements, and growing is cheap over a whole run. */
module GrowList {
  import opened Types

  type Byte = bv8

  /** The first n elements of e bytes each. */
  function Chunks(bytes: seq<Byte>, e: nat, n: nat): (r: seq<seq<Byte>>)
    requires n * e <= |bytes|
    ensures |r| == n
  {
    if n == 0 then []
    else
      MulMonotone(n - 1, n, e);
      Chunks(bytes, e, n - 1) + [bytes[(n - 1) * e..n * e]]
  }

  lemma MulMonotone(a: nat, b: nat, e: nat)
    requires a <= b
    ensures a * e <= b * e
  {
  }

  lemma {:induction false} ChunkAt(bytes: seq<Byte>, e: nat, n: nat, k: nat)
    requires n * e <= |bytes| && k < n
    ensures k * e + e == (k + 1) * e <= |bytes|
    ensures Chunks(bytes, e, n)[k] == bytes[k * e..k * e + e]
  {
    MulMonotone(k + 1, n, e);
    MulMonotone(n - 1, n, e);
    assert k * e + e == (k + 1) * e;
    if k < n - 1 { ChunkAt(bytes, e, n - 1, k); }
  }

  /** Where element k of a list lies in its allocation. */
  lemma ElementAt(bytes: seq<Byte>, e: nat, n: nat, cap: nat, k: nat, at: nat)
    requires |bytes| == cap * e && k < n <= cap && at == k * e
    ensures n * e <= |bytes| && at + e <= |bytes| && bytes[at..at + e] == Chunks(bytes, e, n)[k]
  {
    MulMonotone(n, cap, e);
    ChunkAt(bytes, e, n, k);
  }

  /** Elements are determined by their own bytes. */
  lemma {:induction false} SameChunks(x: seq<Byte>, y: seq<Byte>, e: nat, n: nat)
    requires n * e <= |x| && n * e <= |y| && x[..n * e] == y[..n * e]
    ensures Chunks(x, e, n) == Chunks(y, e, n)
  {
    if n > 0 {
      MulMonotone(n - 1, n, e);
      assert x[..(n - 1) * e] == x[..n * e][..(n - 1) * e];
      assert y[..(n - 1) * e] == y[..n * e][..(n - 1) * e];
      SameChunks(x, y, e, n - 1);
      assert x[(n - 1) * e..n * e] == x[..n * e][(n - 1) * e..];
      assert y[(n - 1) * e..n * e] == y[..n * e][(n - 1) * e..];
    }
  }

  /** The bytes with one stretch overwritten. */
  function Overwrite(bytes: seq<Byte>, at: nat, item: seq<Byte>): (r: seq<Byte>)
    requires at + |item| <= |bytes|
    ensures |r| == |bytes|
  {
    bytes[..at] + item + bytes[at + |item|..]
  }

  /** Overwriting one element's bytes replaces that element and no other. */
  lemma {:induction false} OverwriteChunk(bytes: seq<Byte>, e: nat, n: nat, k: nat, item: seq<Byte>)
    requires n * e <= |bytes| && k < n && |item| == e
    ensures k * e + e <= |bytes|
    ensures Chunks(Overwrite(bytes, k * e, item), e, n) == Chunks(bytes, e, n)[k := item]
  {
    ChunkAt(bytes, e, n, k);
    var after := Overwrite(bytes, k * e, item);
    forall j | 0 <= j < n ensures Chunks(after, e, n)[j] == Chunks(bytes, e, n)[k := item][j] {
      ChunkAt(bytes, e, n, j);
      ChunkAt(after, e, n, j);
      if j < k {
        MulMonotone(j + 1, k, e);
      } else if j > k {
        MulMonotone(k + 1, j, e);
      }
      assert after[j * e..j * e + e] == if j == k then item else bytes[j * e..j * e + e];
    }
  }

  /** Writing just past n elements adds one. */
  lemma AppendChunk(bytes: seq<Byte>, e: nat, n: nat, item: seq<Byte>)
    requires (n + 1) * e <= |bytes| && |item| == e
    ensures n * e + e <= |bytes|
    ensures Chunks(Overwrite(bytes, n * e, item), e, n + 1) == Chunks(bytes, e, n) + [item]
  {
    assert n * e + e == (n + 1) * e;
    var after := Overwrite(bytes, n * e, item);
    assert after[..n * e] == bytes[..n * e];
    SameChunks(bytes, after, e, n);
    assert after[n * e..(n + 1) * e] == item;
  }

  class ListHeader {
    var data: array?<Byte>
    var len: nat
    var cap: nat
    /** Elements copied by reallocations so far. */
    ghost var moved: nat

    /** len <= cap; the allocation holds cap elements; capacities double, so what has been moved is
        less than what is in use. */
    ghost predicate Valid(e: nat)
      reads this, data
    {
      && len <= cap
      && (data == null <==> cap == 0)
      && (data != null ==> data.Length == cap * e)
      && moved == (if cap == 0 then 0 else cap - 4)
      && (cap == 0 || cap == 4 || (cap > 4 && cap < 2 * len))
    }

    ghost function Contents(e: nat): (s: seq<seq<Byte>>)
      reads this, data
      requires Valid(e)
      ensures |s| == len
    {
      if data == null then []
      else
        MulMonotone(len, cap, e);
        Chunks(data[..], e, len)
    }

    constructor ()
      ensures forall e :: Valid(e) && Contents(e) == []
      ensures len == 0 && cap == 0 && moved == 0 && data == null
    {
      data, len, cap, moved := null, 0, 0, 0;
    }

    /** Doubles a full allocation, keeping its bytes. */
    method Grow(e: nat)
      requires Valid(e) && e > 0 && len == cap
      modifies this
      ensures data != null && fresh(data) && cap == (if old(cap) == 0 then 4 else 2 * old(cap)) && len == old(len)
      ensures data.Length == cap * e && len * e <= cap * e
      ensures moved == old(moved) + old(cap)
      ensures Chunks(data[..], e, len) == old(Contents(e))
    {
      var newCap := if cap == 0 then 4 else cap * 2;
      MulMonotone(cap, newCap, e);
      var newData := new Byte[newCap * e];
      if data != null {
        var oldData: array<Byte> := data;
        CopyInto(newData, 0, oldData[..]);
        assert newData[..][..len * e] == oldData[..][..len * e];
        SameChunks(newData[..], oldData[..], e, len);
      }
      moved := moved + cap;
      data, cap := newData, newCap;
    }

    method Append(item: seq<Byte>, e: nat)
      requires Valid(e) && e > 0 && |item| == e
      modifies this, data
      ensures Valid(e) && Contents(e) == old(Contents(e)) + [item]
      ensures data == old(data) || fresh(data)
      ensures moved == old(moved) + if old(len) == old(cap) then old(cap) else 0
    {
      if len == cap {
        Grow(e);
      }
      MulMonotone(len + 1, cap, e);
      AppendChunk(data[..], e, len, item);
      CopyInto(data, len * e, item);
      len := len + 1;
    }

    /** The number of elements. */
    method Length(ghost e: nat) returns (n: nat)
      requires Valid(e)
      ensures n == |Contents(e)|
    {
      n := len;
    }

    /** The byte offset of an element; out of bounds is an error. */
    method Get(index: nat, e: nat) returns (r: Option<nat>)
      requires Valid(e)
      ensures r.Some? <==> index < len
      ensures r.Some? ==> data != null && r.value + e <= data.Length
                          && data[r.value..r.value + e] == Contents(e)[index]
    {
      if index >= len {
        return None;
      }
      var at := index * e;
      ElementAt(data[..], e, len, cap, index, at);
      return Some(at);
    }

    method Set(index: nat, item: seq<Byte>, e: nat) returns (ok: bool)
      requires Valid(e) && |item| == e
      modifies data
      ensures Valid(e) && ok == (index < len)
      ensures Contents(e) == if ok then old(Contents(e))[index := item] else old(Contents(e))
    {
      if index >= len {
        return false;
      }
      MulMonotone(len, cap, e);
      ChunkAt(data[..], e, len, index);
      OverwriteChunk(data[..], e, len, index, item);
      CopyInto(data, index * e, item);
      return true;
    }
  }

  method CopyInto(dst: array<Byte>, at: nat, item: seq<Byte>)
    requires at + |item| <= dst.Length
    modifies dst
    ensures dst[..] == Overwrite(old(dst[..]), at, item)
  {
    var i := 0;
    while i < |item|
      invariant 0 <= i <= |item|
      invariant dst[..] == Overwrite(old(dst[..]), at, item[..i])
    {
      assert item[..i + 1] == item[..i] + [item[i]];
      dst[at + i] := item[i];
      i := i + 1;
    }
    assert item[..|item|] == item;
  }

  /** A list filled by appends holds exactly the items, and its reallocations have moved fewer than
      two elements per append. */
  method FromItems(items: seq<seq<Byte>>, e: nat) returns (list: ListHeader)
    requires e > 0 && forall x | x in items :: |x| == e
    ensures fresh(list) && list.Valid(e) && list.Contents(e) == items
    ensures items != [] ==> list.moved < 2 * |items|
    ensures items == [] ==> list.moved == 0
  {
    list := new ListHeader();
    for k := 0 to |items|
      invariant fresh(list) && list.Valid(e) && list.Contents(e) == items[..k]
      invariant list.data != null ==> fresh(list.data)
    {
      list.Append(items[k], e);
    }
  }
}
