/** C-style memory layout (ir/types.rs size and align, verifier/mod.rs get_leaf_offsets,
    builder/mod.rs get_field_offset). */
module Layout {
  import opened Types
  import Bits

  datatype Field = Field(name: string, ty: Type)
  type Layouts = map<string, seq<Field>>

  // ----- acyclic tables -----

  type Rank = map<string, nat>

  function RankOf(rank: Rank, n: string): nat {
    if n in rank then rank[n] else 0
  }

  /** How deep by-value nesting can go below a type. */
  function Height(t: Type, rank: Rank): nat {
    match t
    case Struct(n) => RankOf(rank, n) + 1
    case Enum(n) => RankOf(rank, n) + 1
    case Array(inner, len) => if len.Some? then Height(inner, rank) else 0
    case Tuple(items) => MaxHeight(items, rank)
    case Refined(inner, _) => Height(inner, rank)
    case Literal(inner, _) => Height(inner, rank)
    case Optional(inner) => Height(inner, rank)
    case _ => 0
  }

  function MaxHeight(ts: seq<Type>, rank: Rank): (h: nat)
    ensures forall k | 0 <= k < |ts| :: Height(ts[k], rank) <= h
  {
    if ts == [] then 0
    else
      var h, rest := Height(ts[0], rank), MaxHeight(ts[1..], rank);
      if h > rest then h else rest
  }

  /** No type contains itself by value: fields rank strictly below the type that holds them. */
  ghost predicate Acyclic(L: Layouts, rank: Rank) {
    forall n {:trigger Ranked(L, rank, n)} | n in L :: Ranked(L, rank, n)
  }

  ghost predicate Ranked(L: Layouts, rank: Rank, n: string)
    requires n in L
  {
    MaxHeight(FieldTypes(L[n]), rank) <= RankOf(rank, n)
  }

  /** The field types of a named type. */
  function Members(L: Layouts, ghost rank: Rank, n: string): (ts: seq<Type>)
    requires Acyclic(L, rank) && n in L
    ensures ts == FieldTypes(L[n]) && MaxHeight(ts, rank) <= RankOf(rank, n)
  {
    assert Ranked(L, rank, n);
    FieldTypes(L[n])
  }

  function FieldTypes(fields: seq<Field>): (ts: seq<Type>)
    ensures |ts| == |fields|
    ensures forall k | 0 <= k < |fields| :: ts[k] == fields[k].ty
  {
    seq(|fields|, k requires 0 <= k < |fields| => fields[k].ty)
  }

  function Nodes(t: Type): nat {
    match t
    case Array(inner, _) => 1 + Nodes(inner)
    case Tuple(items) => 1 + AllNodes(items)
    case Refined(inner, _) => 1 + Nodes(inner)
    case Literal(inner, _) => 1 + Nodes(inner)
    case Optional(inner) => 1 + Nodes(inner)
    case _ => 1
  }

  function AllNodes(ts: seq<Type>): nat {
    if ts == [] then 0 else AllNodes(ts[..|ts| - 1]) + Nodes(ts[|ts| - 1])
  }

  lemma {:induction false} NodesAt(ts: seq<Type>, k: nat)
    requires k < |ts|
    ensures Nodes(ts[k]) <= AllNodes(ts)
  {
    if k < |ts| - 1 { NodesAt(ts[..|ts| - 1], k); }
  }

  lemma {:induction false} MaxHeightPrefix(ts: seq<Type>, rank: Rank, k: nat)
    requires k <= |ts|
    ensures MaxHeight(ts[..k], rank) <= MaxHeight(ts, rank)
  {
    if k > 0 {
      assert ts[..k][0] == ts[0] && ts[..k][1..] == ts[1..][..k - 1];
      MaxHeightPrefix(ts[1..], rank, k - 1);
    }
  }

  // ----- the mask -----

  /** x & !m, bit by bit. */
  function AndNot(x: nat, m: nat): nat {
    if x == 0 then 0 else 2 * AndNot(x / 2, m / 2) + if m % 2 == 1 then 0 else x % 2
  }

  /** (offset + align - 1) & !(align - 1) */
  function Align(offset: nat, align: nat): nat
    requires align > 0
  {
    AndNot(offset + align - 1, align - 1)
  }

  /** Clearing the low k bits rounds down to a multiple of 2^k. */
  lemma {:induction false} ClearLowBits(x: nat, k: nat)
    ensures AndNot(x, Bits.Pow2(k) - 1) == x - x % Bits.Pow2(k)
  {
    if k == 0 {
      NothingCleared(x);
    } else if x > 0 {
      var p := Bits.Pow2(k - 1);
      assert Bits.Pow2(k) == 2 * p;
      assert (2 * p - 1) / 2 == p - 1 && (2 * p - 1) % 2 == 1;
      ClearLowBits(x / 2, k - 1);
      HalfMod(x, p);
    } else {
      Bits.DivModUnique(0, Bits.Pow2(k), 0, 0);
    }
  }

  lemma {:induction false} NothingCleared(x: nat)
    ensures AndNot(x, 0) == x
  {
    if x > 0 { NothingCleared(x / 2); }
  }

  lemma HalfMod(x: nat, p: nat)
    requires p > 0
    ensures x - x % (2 * p) == 2 * (x / 2 - (x / 2) % p)
  {
    var q, r := (x / 2) / p, (x / 2) % p;
    assert x / 2 == p * q + r;
    assert x == (2 * p) * q + (2 * r + x % 2);
    assert q * (2 * p) == (2 * p) * q;
    Bits.DivModUnique(x, 2 * p, q, 2 * r + x % 2);
  }

  /** The alignments that occur. */
  predicate IsAlignment(a: nat) {
    a == 1 || a == 2 || a == 4 || a == 8 || a == 16
  }

  lemma MaskOfPower(offset: nat, k: nat)
    ensures var a := Bits.Pow2(k);
            Align(offset, a) % a == 0 && offset <= Align(offset, a) < offset + a
  {
    var a := Bits.Pow2(k);
    var x := offset + a - 1;
    ClearLowBits(x, k);
    RoundDown(x, a);
    assert Align(offset, a) == AndNot(x, a - 1);
  }

  lemma RoundDown(x: nat, a: nat)
    requires a > 0
    ensures (x - x % a) % a == 0 && x - a < x - x % a <= x
  {
    var q := x / a;
    assert x - x % a == q * a;
    Bits.DivModUnique(q * a, a, q, 0);
  }

  /** The next multiple of align from offset on. */
  function NextMultiple(offset: nat, align: nat): nat
    requires align > 0
    decreases offset
  {
    if offset == 0 then 0
    else align + NextMultiple(if offset <= align then 0 else offset - align, align)
  }

  lemma {:induction false} NextMultipleIs(offset: nat, align: nat)
    requires align > 0
    ensures NextMultiple(offset, align) % align == 0
    ensures offset <= NextMultiple(offset, align) < offset + align
    decreases offset
  {
    if offset == 0 {
      Bits.DivModUnique(0, align, 0, 0);
    } else {
      var rest := if offset <= align then 0 else offset - align;
      NextMultipleIs(rest, align);
      var r := NextMultiple(rest, align);
      Bits.DivModUnique(align + r, align, r / align + 1, 0);
    }
  }

  /** Two multiples less than align apart are the same. */
  lemma SameMultiple(x: nat, y: nat, align: nat)
    requires align > 0 && x % align == 0 && y % align == 0 && x - align < y < x + align
    ensures x == y
  {
    var d := x / align - y / align;
    assert d * align == x - y;
    Bits.MulAtLeast(d, align);
  }

  /** The mask rounds up to the next multiple. */
  lemma MaskRoundsUp(offset: nat, align: nat)
    requires IsAlignment(align)
    ensures Align(offset, align) == NextMultiple(offset, align)
  {
    var k := if align == 1 then 0 else if align == 2 then 1 else if align == 4 then 2 else if align == 8 then 3 else 4;
    PowerOfFew();
    MaskOfPower(offset, k);
    NextMultipleIs(offset, align);
    SameMultiple(Align(offset, align), NextMultiple(offset, align), align);
  }

  lemma PowerOfFew()
    ensures Bits.Pow2(0) == 1 && Bits.Pow2(1) == 2 && Bits.Pow2(2) == 4 && Bits.Pow2(3) == 8 && Bits.Pow2(4) == 16
  {
    assert Bits.Pow2(1) == 2 * Bits.Pow2(0);
    assert Bits.Pow2(2) == 2 * Bits.Pow2(1);
    assert Bits.Pow2(3) == 2 * Bits.Pow2(2);
    assert Bits.Pow2(4) == 2 * Bits.Pow2(3);
  }

  // ----- size and alignment -----

  /** Type::align */
  function AlignOf(t: Type, L: Layouts, rank: Rank): nat
    requires Acyclic(L, rank)
    decreases Height(t, rank), Nodes(t), 0
  {
    match t
    case I8 | U8 | Bool => 1
    case I16 | U16 => 2
    case I32 | U32 | F32 => 4
    case Simd => 16
    case Array(inner, len) => if len.Some? then AlignOf(inner, L, rank) else 8
    case Struct(n) => if n in L then MaxAlign(Members(L, rank, n), L, rank) else 1
    case Enum(n) => if n in L then MaxAlign(Members(L, rank, n), L, rank) else 1
    case Tuple(items) => MaxAlign(items, L, rank)
    case Refined(inner, _) => AlignOf(inner, L, rank)
    case Literal(inner, _) => AlignOf(inner, L, rank)
    case Optional(inner) => AlignOf(inner, L, rank)
    case _ => 8
  }

  function MaxAlign(ts: seq<Type>, L: Layouts, rank: Rank): nat
    requires Acyclic(L, rank)
    decreases MaxHeight(ts, rank), AllNodes(ts), 1 + |ts|
  {
    if ts == [] then 1
    else
      MaxHeightPrefix(ts, rank, |ts| - 1);
      var m, a := MaxAlign(ts[..|ts| - 1], L, rank), AlignOf(ts[|ts| - 1], L, rank);
      if a > m then a else m
  }

  /** Every alignment is a power of two up to 16. */
  lemma {:induction false} AlignmentOk(t: Type, L: Layouts, rank: Rank)
    requires Acyclic(L, rank)
    ensures IsAlignment(AlignOf(t, L, rank))
    decreases Height(t, rank), Nodes(t), 0
  {
    if t.Struct? || t.Enum? {
      if t.name in L { MaxAlignOk(Members(L, rank, t.name), L, rank); }
    } else if t.Tuple? {
      MaxAlignOk(t.items, L, rank);
    } else if t.Refined? || t.Literal? || t.Optional? || (t.Array? && t.len.Some?) {
      AlignmentOk(t.elem, L, rank);
    }
  }

  lemma {:induction false} MaxAlignOk(ts: seq<Type>, L: Layouts, rank: Rank)
    requires Acyclic(L, rank)
    ensures IsAlignment(MaxAlign(ts, L, rank))
    ensures forall k | 0 <= k < |ts| :: AlignOf(ts[k], L, rank) <= MaxAlign(ts, L, rank)
    decreases MaxHeight(ts, rank), AllNodes(ts), 1 + |ts|
  {
    if ts != [] {
      MaxHeightPrefix(ts, rank, |ts| - 1);
      MaxAlignOk(ts[..|ts| - 1], L, rank);
      AlignmentOk(ts[|ts| - 1], L, rank);
    }
  }

  function ScalarSize(t: Type): nat {
    match t
    case I8 | U8 | Bool => 1
    case I16 | U16 => 2
    case I32 | U32 | F32 => 4
    case Simd => 16
    case Buffer(_) => 16
    case _ => 8
  }

  /** len elements of one size, end to end. */
  function Repeated(len: nat, size: nat): nat {
    if len == 0 then 0 else Repeated(len - 1, size) + size
  }

  lemma {:induction false} RepeatedIsProduct(len: nat, size: nat)
    ensures Repeated(len, size) == len * size
  {
    if len > 0 { RepeatedIsProduct(len - 1, size); }
  }

  lemma RepeatedAligned(len: nat, size: nat, a: nat)
    requires a > 0 && size % a == 0
    ensures Repeated(len, size) % a == 0
  {
    RepeatedIsProduct(len, size);
    MultipleOf(len, size, a);
  }

  /** Type::size */
  function SizeOf(t: Type, L: Layouts, rank: Rank): nat
    requires Acyclic(L, rank)
    decreases Height(t, rank), Nodes(t), 0
  {
    match t
    case Array(inner, len) => if len.Some? then Repeated(len.value, SizeOf(inner, L, rank)) else 8
    case Struct(n) => if n in L then Padded(Members(L, rank, n), L, rank) else 0
    case Tuple(items) => Padded(items, L, rank)
    case Enum(n) =>
      if n in L then Tagged(MaxSize(Members(L, rank, n), L, rank), FieldsAlign(Members(L, rank, n), L, rank)) else 0
    case Refined(inner, _) => SizeOf(inner, L, rank)
    case Literal(inner, _) => SizeOf(inner, L, rank)
    case Optional(inner) =>
      AlignmentOk(inner, L, rank);
      Tagged(SizeOf(inner, L, rank), AlignOf(inner, L, rank))
    case _ => ScalarSize(t)
  }

  /** MaxAlign, known to be positive. */
  function FieldsAlign(ts: seq<Type>, L: Layouts, rank: Rank): (a: nat)
    requires Acyclic(L, rank)
    ensures a > 0
  {
    MaxAlignOk(ts, L, rank);
    MaxAlign(ts, L, rank)
  }

  function TypeAlign(t: Type, L: Layouts, rank: Rank): (a: nat)
    requires Acyclic(L, rank)
    ensures a > 0
  {
    AlignmentOk(t, L, rank);
    AlignOf(t, L, rank)
  }

  /** A tag byte, the payload at its alignment, and padding at the end. */
  function Tagged(payload: nat, align: nat): nat
    requires align > 0
  {
    NextMultiple(NextMultiple(1, align) + payload, align)
  }

  /** Fields one after the other, each at its alignment, and padding at the end. */
  function Padded(ts: seq<Type>, L: Layouts, rank: Rank): nat
    requires Acyclic(L, rank)
    decreases MaxHeight(ts, rank), AllNodes(ts), 2 + |ts|
  {
    NextMultiple(FieldsEnd(ts, L, rank), FieldsAlign(ts, L, rank))
  }

  /** Where the last field ends. */
  function FieldsEnd(ts: seq<Type>, L: Layouts, rank: Rank): nat
    requires Acyclic(L, rank)
    decreases MaxHeight(ts, rank), AllNodes(ts), 1 + |ts|
  {
    if ts == [] then 0
    else
      MaxHeightPrefix(ts, rank, |ts| - 1);
      NextMultiple(FieldsEnd(ts[..|ts| - 1], L, rank), TypeAlign(ts[|ts| - 1], L, rank)) + SizeOf(ts[|ts| - 1], L, rank)
  }

  /** Where field k starts. */
  function FieldAt(ts: seq<Type>, L: Layouts, rank: Rank, k: nat): nat
    requires Acyclic(L, rank) && k < |ts|
  {
    NextMultiple(FieldsEnd(ts[..k], L, rank), TypeAlign(ts[k], L, rank))
  }

  function MaxSize(ts: seq<Type>, L: Layouts, rank: Rank): nat
    requires Acyclic(L, rank)
    decreases MaxHeight(ts, rank), AllNodes(ts), 1 + |ts|
  {
    if ts == [] then 0
    else
      MaxHeightPrefix(ts, rank, |ts| - 1);
      var m, s := MaxSize(ts[..|ts| - 1], L, rank), SizeOf(ts[|ts| - 1], L, rank);
      if s > m then s else m
  }

  lemma MultipleOf(s: nat, size: nat, a: nat)
    requires a > 0 && size % a == 0
    ensures (s * size) % a == 0
  {
    var q := size / a;
    assert size == a * q;
    assert s * size == (s * q) * a by { assert s * (a * q) == (s * q) * a; }
    Bits.DivModUnique(s * size, a, s * q, 0);
  }

  lemma PaddedCovers(ts: seq<Type>, L: Layouts, rank: Rank)
    requires Acyclic(L, rank)
    ensures FieldsEnd(ts, L, rank) <= Padded(ts, L, rank)
  {
    MaxAlignOk(ts, L, rank);
    NextMultipleIs(FieldsEnd(ts, L, rank), FieldsAlign(ts, L, rank));
  }

  lemma PaddedAligned(ts: seq<Type>, L: Layouts, rank: Rank)
    requires Acyclic(L, rank)
    ensures Padded(ts, L, rank) % FieldsAlign(ts, L, rank) == 0
  {
    MaxAlignOk(ts, L, rank);
    NextMultipleIs(FieldsEnd(ts, L, rank), FieldsAlign(ts, L, rank));
  }

  lemma TaggedAligned(payload: nat, align: nat)
    requires IsAlignment(align)
    ensures Tagged(payload, align) % align == 0
  {
    NextMultipleIs(NextMultiple(1, align) + payload, align);
  }

  /** Alignment divides size, so arrays of a type keep every element aligned. */
  lemma {:induction false} AlignDividesSize(t: Type, L: Layouts, rank: Rank)
    requires Acyclic(L, rank)
    ensures SizeOf(t, L, rank) % TypeAlign(t, L, rank) == 0
    decreases t
  {
    match t
    case Array(inner, len) =>
      if len.Some? {
        AlignDividesSize(inner, L, rank);
        RepeatedAligned(len.value, SizeOf(inner, L, rank), TypeAlign(inner, L, rank));
      }
    case Struct(n) => if n in L { PaddedAligned(Members(L, rank, n), L, rank); }
    case Tuple(items) => PaddedAligned(items, L, rank);
    case Enum(n) =>
      if n in L {
        var ts := Members(L, rank, n);
        MaxAlignOk(ts, L, rank);
        TaggedAligned(MaxSize(ts, L, rank), FieldsAlign(ts, L, rank));
      }
    case Refined(inner, _) => AlignDividesSize(inner, L, rank);
    case Literal(inner, _) => AlignDividesSize(inner, L, rank);
    case Optional(inner) =>
      AlignmentOk(inner, L, rank);
      TaggedAligned(SizeOf(inner, L, rank), TypeAlign(inner, L, rank));
    case _ =>
  }

  // ----- leaves -----

  type Leaf = (nat, Type)

  /** get_leaf_offsets */
  function Leaves(t: Type, L: Layouts, rank: Rank, base: nat): seq<Leaf>
    requires Acyclic(L, rank)
    decreases Height(t, rank), Nodes(t), 0
  {
    match t
    case Struct(n) => if n in L then LeavesOf(Members(L, rank, n), L, rank, base) else []
    case Tuple(items) => LeavesOf(items, L, rank, base)
    case Refined(inner, _) => Leaves(inner, L, rank, base)
    case Literal(inner, _) => Leaves(inner, L, rank, base)
    case _ => [(base, t)]
  }

  function LeavesOf(ts: seq<Type>, L: Layouts, rank: Rank, base: nat): seq<Leaf>
    requires Acyclic(L, rank)
    decreases MaxHeight(ts, rank), AllNodes(ts), 1 + |ts|
  {
    if ts == [] then []
    else
      MaxHeightPrefix(ts, rank, |ts| - 1);
      LeavesOf(ts[..|ts| - 1], L, rank, base)
        + Leaves(ts[|ts| - 1], L, rank, base + FieldAt(ts, L, rank, |ts| - 1))
  }

  function EndOf(x: Leaf, L: Layouts, rank: Rank): nat
    requires Acyclic(L, rank)
  {
    x.0 + SizeOf(x.1, L, rank)
  }

  /** Leaf i is inside [lo, hi] and aligned. */
  ghost predicate LeafIn(xs: seq<Leaf>, i: nat, L: Layouts, rank: Rank, lo: nat, hi: nat)
    requires Acyclic(L, rank)
  {
    i < |xs| ==> lo <= xs[i].0 && EndOf(xs[i], L, rank) <= hi && xs[i].0 % TypeAlign(xs[i].1, L, rank) == 0
  }

  /** Leaf i ends before leaf j starts. */
  ghost predicate LeafBefore(xs: seq<Leaf>, i: nat, j: nat, L: Layouts, rank: Rank)
    requires Acyclic(L, rank)
  {
    i < j < |xs| ==> EndOf(xs[i], L, rank) <= xs[j].0
  }

  /** Leaves inside [lo, hi], each aligned, one after the other without overlap. */
  ghost predicate Packed(xs: seq<Leaf>, L: Layouts, rank: Rank, lo: nat, hi: nat)
    requires Acyclic(L, rank)
  {
    && (forall i: nat {:trigger LeafIn(xs, i, L, rank, lo, hi)} :: LeafIn(xs, i, L, rank, lo, hi))
    && (forall i: nat, j: nat {:trigger LeafBefore(xs, i, j, L, rank)} :: LeafBefore(xs, i, j, L, rank))
  }

  lemma PackedAppend(xs: seq<Leaf>, ys: seq<Leaf>, L: Layouts, rank: Rank, lo: nat, mid: nat, mid': nat, hi: nat)
    requires Acyclic(L, rank) && Packed(xs, L, rank, lo, mid) && Packed(ys, L, rank, mid', hi)
    requires lo <= mid <= mid' <= hi
    ensures Packed(xs + ys, L, rank, lo, hi)
  {
    forall i: nat ensures LeafIn(xs + ys, i, L, rank, lo, hi) { AppendedIn(xs, ys, i, L, rank, lo, mid, mid', hi); }
    forall i: nat, j: nat ensures LeafBefore(xs + ys, i, j, L, rank) {
      if i < |xs| { AppendedIn(xs, ys, i, L, rank, lo, mid, mid', hi); }
      if |xs| <= j { AppendedIn(xs, ys, j, L, rank, lo, mid, mid', hi); }
      assert LeafBefore(xs, i, j, L, rank);
      if |xs| <= i < j { assert LeafBefore(ys, i - |xs|, j - |xs|, L, rank); }
    }
  }

  /** A leaf of the first list ends by mid, one of the second starts from mid' on. */
  lemma AppendedIn(xs: seq<Leaf>, ys: seq<Leaf>, i: nat, L: Layouts, rank: Rank, lo: nat, mid: nat, mid': nat, hi: nat)
    requires Acyclic(L, rank) && Packed(xs, L, rank, lo, mid) && Packed(ys, L, rank, mid', hi)
    requires lo <= mid <= mid' <= hi
    ensures LeafIn(xs + ys, i, L, rank, lo, hi)
    ensures i < |xs| ==> EndOf(xs[i], L, rank) <= mid
    ensures |xs| <= i < |xs + ys| ==> mid' <= (xs + ys)[i].0
  {
    assert LeafIn(xs, i, L, rank, lo, mid);
    if |xs| <= i { assert LeafIn(ys, i - |xs|, L, rank, mid', hi); }
  }

  /** A multiple of a larger alignment is a multiple of a smaller one. */
  lemma AlignmentsDivide(x: nat, big: nat, small: nat)
    requires IsAlignment(big) && IsAlignment(small) && small <= big && x % big == 0
    ensures x % small == 0
  {
    assert big % small == 0;
    assert x == (x / big) * big;
    MultipleOf(x / big, big, small);
  }

  lemma SumAligned(x: nat, y: nat, a: nat)
    requires IsAlignment(a) && x % a == 0 && y % a == 0
    ensures (x + y) % a == 0
  {
  }

  /** The leaves of an aligned object are aligned, inside it, and pairwise disjoint. */
  lemma {:induction false} LeavesPacked(t: Type, L: Layouts, rank: Rank, base: nat)
    requires Acyclic(L, rank) && base % TypeAlign(t, L, rank) == 0
    ensures Packed(Leaves(t, L, rank, base), L, rank, base, base + SizeOf(t, L, rank))
    decreases Height(t, rank), Nodes(t), 0
  {
    if t.Struct? {
      if t.name in L { RecordPacked(Members(L, rank, t.name), L, rank, base); }
    } else if t.Tuple? {
      RecordPacked(t.items, L, rank, base);
    } else if t.Refined? || t.Literal? {
      LeavesPacked(t.elem, L, rank, base);
    } else {
      LeafPacked(t, L, rank, base);
    }
  }

  lemma LeafPacked(t: Type, L: Layouts, rank: Rank, base: nat)
    requires Acyclic(L, rank) && base % TypeAlign(t, L, rank) == 0
    ensures Packed([(base, t)], L, rank, base, base + SizeOf(t, L, rank))
  {
  }

  /** The leaves of a record, with padding at its end. */
  lemma {:induction false} RecordPacked(ts: seq<Type>, L: Layouts, rank: Rank, base: nat)
    requires Acyclic(L, rank) && base % FieldsAlign(ts, L, rank) == 0
    ensures Packed(LeavesOf(ts, L, rank, base), L, rank, base, base + Padded(ts, L, rank))
    decreases MaxHeight(ts, rank), AllNodes(ts), 2 + |ts|
  {
    FieldsPacked(ts, L, rank, base);
    PaddedCovers(ts, L, rank);
    PackedWider(LeavesOf(ts, L, rank, base), L, rank, base, base + FieldsEnd(ts, L, rank), base + Padded(ts, L, rank));
  }

  lemma PackedWider(xs: seq<Leaf>, L: Layouts, rank: Rank, lo: nat, hi: nat, hi': nat)
    requires Acyclic(L, rank) && Packed(xs, L, rank, lo, hi) && hi <= hi'
    ensures Packed(xs, L, rank, lo, hi')
  {
    forall i: nat ensures LeafIn(xs, i, L, rank, lo, hi') { assert LeafIn(xs, i, L, rank, lo, hi); }
    forall i: nat, j: nat ensures LeafBefore(xs, i, j, L, rank) { assert LeafBefore(xs, i, j, L, rank); }
  }

  /** Field k is aligned if the whole is. */
  lemma FieldPlaced(ts: seq<Type>, L: Layouts, rank: Rank, base: nat, k: nat)
    requires Acyclic(L, rank) && k < |ts| && base % FieldsAlign(ts, L, rank) == 0
    ensures (base + FieldAt(ts, L, rank, k)) % TypeAlign(ts[k], L, rank) == 0
  {
    MaxAlignOk(ts, L, rank);
    AlignmentOk(ts[k], L, rank);
    PlacedAligned(base, FieldsEnd(ts[..k], L, rank), FieldsAlign(ts, L, rank), TypeAlign(ts[k], L, rank));
  }

  /** An offset rounded up inside an aligned object is aligned in memory. */
  lemma PlacedAligned(base: nat, offset: nat, whole: nat, a: nat)
    requires IsAlignment(whole) && IsAlignment(a) && a <= whole && base % whole == 0
    ensures (base + NextMultiple(offset, a)) % a == 0
  {
    AlignmentsDivide(base, whole, a);
    NextMultipleIs(offset, a);
    SumAligned(base, NextMultiple(offset, a), a);
  }

  lemma PrefixAligned(ts: seq<Type>, L: Layouts, rank: Rank, base: nat)
    requires Acyclic(L, rank) && ts != [] && base % FieldsAlign(ts, L, rank) == 0
    ensures base % FieldsAlign(ts[..|ts| - 1], L, rank) == 0
  {
    MaxAlignOk(ts, L, rank);
    MaxAlignOk(ts[..|ts| - 1], L, rank);
    AlignmentsDivide(base, FieldsAlign(ts, L, rank), FieldsAlign(ts[..|ts| - 1], L, rank));
  }

  lemma FieldsEndNext(ts: seq<Type>, L: Layouts, rank: Rank, k: nat)
    requires Acyclic(L, rank) && k < |ts|
    ensures FieldsEnd(ts[..k + 1], L, rank) == FieldAt(ts, L, rank, k) + SizeOf(ts[k], L, rank)
  {
    assert ts[..k + 1][..k] == ts[..k];
  }

  lemma LeavesOfNext(ts: seq<Type>, L: Layouts, rank: Rank, base: nat, k: nat)
    requires Acyclic(L, rank) && k < |ts|
    ensures LeavesOf(ts[..k + 1], L, rank, base)
         == LeavesOf(ts[..k], L, rank, base) + Leaves(ts[k], L, rank, base + FieldAt(ts, L, rank, k))
  {
    assert ts[..k + 1][..k] == ts[..k];
    assert FieldAt(ts[..k + 1], L, rank, k) == FieldAt(ts, L, rank, k);
  }

  lemma {:induction false} FieldsPacked(ts: seq<Type>, L: Layouts, rank: Rank, base: nat)
    requires Acyclic(L, rank) && base % FieldsAlign(ts, L, rank) == 0
    ensures Packed(LeavesOf(ts, L, rank, base), L, rank, base, base + FieldsEnd(ts, L, rank))
    decreases MaxHeight(ts, rank), AllNodes(ts), 1 + |ts|
  {
    if ts != [] {
      var n := |ts| - 1;
      MaxHeightPrefix(ts, rank, n);
      PrefixAligned(ts, L, rank, base);
      FieldsPacked(ts[..n], L, rank, base);
      FieldPacked(ts, L, rank, base, n);
      LastPacked(ts, L, rank, base, n);
    }
  }

  /** The leaves of field k. */
  lemma {:induction false} FieldPacked(ts: seq<Type>, L: Layouts, rank: Rank, base: nat, k: nat)
    requires Acyclic(L, rank) && k < |ts| && base % FieldsAlign(ts, L, rank) == 0
    ensures var at := base + FieldAt(ts, L, rank, k);
            Packed(Leaves(ts[k], L, rank, at), L, rank, at, at + SizeOf(ts[k], L, rank))
    decreases MaxHeight(ts, rank), AllNodes(ts), 1
  {
    NodesAt(ts, k);
    FieldPlaced(ts, L, rank, base, k);
    LeavesPacked(ts[k], L, rank, base + FieldAt(ts, L, rank, k));
  }

  lemma LastPacked(ts: seq<Type>, L: Layouts, rank: Rank, base: nat, n: nat)
    requires Acyclic(L, rank) && n + 1 == |ts|
    requires Packed(LeavesOf(ts[..n], L, rank, base), L, rank, base, base + FieldsEnd(ts[..n], L, rank))
    requires var at := base + FieldAt(ts, L, rank, n);
             Packed(Leaves(ts[n], L, rank, at), L, rank, at, at + SizeOf(ts[n], L, rank))
    ensures Packed(LeavesOf(ts, L, rank, base), L, rank, base, base + FieldsEnd(ts, L, rank))
  {
    var at := FieldAt(ts, L, rank, n);
    LastLeaves(ts, L, rank, base, n);
    NextMultipleIs(FieldsEnd(ts[..n], L, rank), TypeAlign(ts[n], L, rank));
    PackedAppend(LeavesOf(ts[..n], L, rank, base), Leaves(ts[n], L, rank, base + at), L, rank,
                 base, base + FieldsEnd(ts[..n], L, rank), base + at, base + FieldsEnd(ts, L, rank));
  }

  lemma LastLeaves(ts: seq<Type>, L: Layouts, rank: Rank, base: nat, n: nat)
    requires Acyclic(L, rank) && n + 1 == |ts|
    ensures FieldsEnd(ts, L, rank) == FieldAt(ts, L, rank, n) + SizeOf(ts[n], L, rank)
    ensures LeavesOf(ts, L, rank, base)
         == LeavesOf(ts[..n], L, rank, base) + Leaves(ts[n], L, rank, base + FieldAt(ts, L, rank, n))
  {
    assert ts[..n + 1] == ts;
    FieldsEndNext(ts, L, rank, n);
    LeavesOfNext(ts, L, rank, base, n);
  }

  // ----- field offsets -----

  /** The leaves of field k are a stretch of the leaves of the whole, at the field's offset. */
  lemma {:induction false} FieldLeaves(ts: seq<Type>, L: Layouts, rank: Rank, base: nat, k: nat)
    returns (before: seq<Leaf>, after: seq<Leaf>)
    requires Acyclic(L, rank) && k < |ts|
    ensures LeavesOf(ts, L, rank, base)
         == before + Leaves(ts[k], L, rank, base + FieldAt(ts, L, rank, k)) + after
    decreases |ts|
  {
    var n := |ts| - 1;
    assert ts[..n + 1] == ts;
    LeavesOfNext(ts, L, rank, base, n);
    if k == n {
      before, after := LeavesOf(ts[..n], L, rank, base), [];
    } else {
      var last := Leaves(ts[n], L, rank, base + FieldAt(ts, L, rank, n));
      var pre, post := FieldLeaves(ts[..n], L, rank, base, k);
      assert ts[..n][..k] == ts[..k];
      Regroup(pre, Leaves(ts[k], L, rank, base + FieldAt(ts, L, rank, k)), post, last);
      before, after := pre, post + last;
    }
  }

  lemma Regroup(x: seq<Leaf>, y: seq<Leaf>, z: seq<Leaf>, w: seq<Leaf>)
    ensures x + y + z + w == x + y + (z + w)
  {
  }

  lemma Regrouped(x: seq<Leaf>, y: seq<Leaf>, z: seq<Leaf>)
    ensures x + y + z == x + (y + z)
  {
  }

  ghost predicate FirstNamed(fields: seq<Field>, name: string, k: nat) {
    k < |fields| && fields[k].name == name && forall j | 0 <= j < k :: fields[j].name != name
  }

  /** Where the first field of that name starts, if there is one. */
  ghost predicate IsOffsetIn(fields: seq<Field>, L: Layouts, rank: Rank, name: string, r: Option<nat>)
    requires Acyclic(L, rank)
  {
    && (r.None? ==> forall k | 0 <= k < |fields| :: fields[k].name != name)
    && (r.Some? ==> exists k: nat :: FirstNamed(fields, name, k) && r.value == FieldAt(FieldTypes(fields), L, rank, k))
  }

  /** get_field_offset */
  ghost predicate IsFieldOffset(L: Layouts, rank: Rank, n: string, name: string, r: Option<nat>)
    requires Acyclic(L, rank)
  {
    if n in L then IsOffsetIn(L[n], L, rank, name, r) else r == None
  }

  lemma StructLeaves(L: Layouts, rank: Rank, n: string, base: nat)
    requires Acyclic(L, rank) && n in L
    ensures Leaves(Struct(n), L, rank, base) == LeavesOf(FieldTypes(L[n]), L, rank, base)
  {
  }

  /** The offset of a field is where the leaf walk puts that field's leaves. */
  lemma FieldOffsetAgrees(L: Layouts, rank: Rank, n: string, name: string, r: Option<nat>, base: nat)
    returns (k: nat, before: seq<Leaf>, after: seq<Leaf>)
    requires Acyclic(L, rank) && n in L && IsOffsetIn(L[n], L, rank, name, r) && r.Some?
    ensures FirstNamed(L[n], name, k)
    ensures Leaves(Struct(n), L, rank, base) == before + Leaves(L[n][k].ty, L, rank, base + r.value) + after
  {
    k := FieldFound(L[n], L, rank, name, r);
    before, after := LeavesAt(L, rank, n, base, k);
  }

  lemma LeavesAt(L: Layouts, rank: Rank, n: string, base: nat, k: nat) returns (before: seq<Leaf>, after: seq<Leaf>)
    requires Acyclic(L, rank) && n in L && k < |L[n]|
    ensures var ts := FieldTypes(L[n]);
            Leaves(Struct(n), L, rank, base) == before + Leaves(ts[k], L, rank, base + FieldAt(ts, L, rank, k)) + after
  {
    before, after := FieldLeaves(FieldTypes(L[n]), L, rank, base, k);
    StructLeaves(L, rank, n, base);
  }

  lemma FieldFound(fields: seq<Field>, L: Layouts, rank: Rank, name: string, r: Option<nat>) returns (k: nat)
    requires Acyclic(L, rank) && IsOffsetIn(fields, L, rank, name, r) && r.Some?
    ensures FirstNamed(fields, name, k) && r.value == FieldAt(FieldTypes(fields), L, rank, k)
  {
    k :| FirstNamed(fields, name, k) && r.value == FieldAt(FieldTypes(fields), L, rank, k);
  }

  // ----- the operations -----

  /** The running maximum of `align` over a list. */
  method ComputeMaxAlign(ts: seq<Type>, L: Layouts, ghost rank: Rank) returns (m: nat)
    requires Acyclic(L, rank)
    ensures m == FieldsAlign(ts, L, rank)
    decreases MaxHeight(ts, rank), AllNodes(ts), 1
  {
    m := 1;
    for k := 0 to |ts|
      invariant m == MaxAlign(ts[..k], L, rank)
    {
      NodesAt(ts, k);
      assert ts[..k + 1][..k] == ts[..k];
      var a := ComputeAlign(ts[k], L, rank);
      if a > m {
        m := a;
      }
    }
    assert ts[..|ts|] == ts;
  }

  method ComputeAlign(t: Type, L: Layouts, ghost rank: Rank) returns (a: nat)
    requires Acyclic(L, rank)
    ensures a == TypeAlign(t, L, rank)
    decreases Height(t, rank), Nodes(t), 0
  {
    match t {
      case I8 | U8 | Bool => a := 1;
      case I16 | U16 => a := 2;
      case I32 | U32 | F32 => a := 4;
      case Simd => a := 16;
      case Array(inner, len) =>
        if len.Some? { a := ComputeAlign(inner, L, rank); } else { a := 8; }
      case Struct(n) =>
        if n in L { a := ComputeMaxAlign(Members(L, rank, n), L, rank); } else { a := 1; }
      case Enum(n) =>
        if n in L { a := ComputeMaxAlign(Members(L, rank, n), L, rank); } else { a := 1; }
      case Tuple(items) => a := ComputeMaxAlign(items, L, rank);
      case Refined(inner, _) => a := ComputeAlign(inner, L, rank);
      case Literal(inner, _) => a := ComputeAlign(inner, L, rank);
      case Optional(inner) => a := ComputeAlign(inner, L, rank);
      case _ => a := 8;
    }
  }

  /** The next offset aligned for a field of type t. */
  method Place(offset: nat, t: Type, L: Layouts, ghost rank: Rank) returns (at: nat)
    requires Acyclic(L, rank)
    ensures at == NextMultiple(offset, TypeAlign(t, L, rank))
  {
    var align := ComputeAlign(t, L, rank);
    AlignmentOk(t, L, rank);
    MaskRoundsUp(offset, align);
    at := Align(offset, align);
  }

  /** The offset loop of `size`. */
  method ComputeFieldsEnd(ts: seq<Type>, L: Layouts, ghost rank: Rank) returns (offset: nat)
    requires Acyclic(L, rank)
    ensures offset == FieldsEnd(ts, L, rank)
    decreases MaxHeight(ts, rank), AllNodes(ts), 2
  {
    offset := 0;
    for k := 0 to |ts|
      invariant offset == FieldsEnd(ts[..k], L, rank)
    {
      NodesAt(ts, k);
      FieldsEndNext(ts, L, rank, k);
      offset := Place(offset, ts[k], L, rank);
      var size := ComputeSize(ts[k], L, rank);
      offset := offset + size;
    }
    assert ts[..|ts|] == ts;
  }

  method ComputeMaxSize(ts: seq<Type>, L: Layouts, ghost rank: Rank) returns (m: nat)
    requires Acyclic(L, rank)
    ensures m == MaxSize(ts, L, rank)
    decreases MaxHeight(ts, rank), AllNodes(ts), 2
  {
    m := 0;
    for k := 0 to |ts|
      invariant m == MaxSize(ts[..k], L, rank)
    {
      NodesAt(ts, k);
      assert ts[..k + 1][..k] == ts[..k];
      var s := ComputeSize(ts[k], L, rank);
      if s > m {
        m := s;
      }
    }
    assert ts[..|ts|] == ts;
  }

  method ComputePadded(ts: seq<Type>, L: Layouts, ghost rank: Rank) returns (size: nat)
    requires Acyclic(L, rank)
    ensures size == Padded(ts, L, rank)
    decreases MaxHeight(ts, rank), AllNodes(ts), 3
  {
    var offset := ComputeFieldsEnd(ts, L, rank);
    var total := ComputeMaxAlign(ts, L, rank);
    MaxAlignOk(ts, L, rank);
    MaskRoundsUp(offset, total);
    size := Align(offset, total);
  }

  method TaggedSize(payload: nat, align: nat) returns (size: nat)
    requires IsAlignment(align)
    ensures size == Tagged(payload, align)
  {
    var tag := Align(1, align);
    MaskRoundsUp(1, align);
    MaskRoundsUp(tag + payload, align);
    size := Align(tag + payload, align);
  }

  method ComputeTagged(ts: seq<Type>, L: Layouts, ghost rank: Rank) returns (size: nat)
    requires Acyclic(L, rank)
    ensures size == Tagged(MaxSize(ts, L, rank), FieldsAlign(ts, L, rank))
    decreases MaxHeight(ts, rank), AllNodes(ts), 3
  {
    var payload := ComputeMaxSize(ts, L, rank);
    var align := ComputeMaxAlign(ts, L, rank);
    MaxAlignOk(ts, L, rank);
    size := TaggedSize(payload, align);
  }

  method ComputeSize(t: Type, L: Layouts, ghost rank: Rank) returns (size: nat)
    requires Acyclic(L, rank)
    ensures size == SizeOf(t, L, rank)
    decreases Height(t, rank), Nodes(t), 1
  {
    if t.Struct? || t.Tuple? || t.Enum? || t.Optional? {
      size := ComputeCompositeSize(t, L, rank);
    } else if t.Array? && t.len.Some? {
      size := ComputeArraySize(t.elem, t.len.value, L, rank);
    } else if t.Refined? || t.Literal? {
      size := ComputeSize(t.elem, L, rank);
    } else {
      size := ScalarSize(t);
    }
  }

  method ComputeArraySize(elem: Type, len: nat, L: Layouts, ghost rank: Rank) returns (size: nat)
    requires Acyclic(L, rank)
    ensures size == Repeated(len, SizeOf(elem, L, rank))
    decreases Height(elem, rank), Nodes(elem), 2
  {
    var s := ComputeSize(elem, L, rank);
    RepeatedIsProduct(len, s);
    size := len * s;
  }

  method ComputeOptional(inner: Type, L: Layouts, ghost rank: Rank) returns (size: nat)
    requires Acyclic(L, rank)
    ensures size == Tagged(SizeOf(inner, L, rank), TypeAlign(inner, L, rank))
    decreases Height(inner, rank), Nodes(inner), 2
  {
    var align := ComputeAlign(inner, L, rank);
    var payload := ComputeSize(inner, L, rank);
    AlignmentOk(inner, L, rank);
    size := TaggedSize(payload, align);
  }

  /** Records, unions and options. */
  method ComputeCompositeSize(t: Type, L: Layouts, ghost rank: Rank) returns (size: nat)
    requires Acyclic(L, rank)
    requires t.Struct? || t.Tuple? || t.Enum? || t.Optional?
    ensures size == SizeOf(t, L, rank)
    decreases Height(t, rank), Nodes(t), 0
  {
    if t.Tuple? {
      size := ComputePadded(t.items, L, rank);
    } else if t.Optional? {
      size := ComputeOptional(t.elem, L, rank);
    } else if t.name !in L {
      size := 0;
    } else if t.Struct? {
      size := ComputePadded(Members(L, rank, t.name), L, rank);
    } else {
      size := ComputeTagged(Members(L, rank, t.name), L, rank);
    }
  }

  /** Appends the leaves of a type to the list so far. */
  method GetLeafOffsets(t: Type, L: Layouts, ghost rank: Rank, base: nat, offsets: seq<Leaf>) returns (out: seq<Leaf>)
    requires Acyclic(L, rank)
    ensures out == offsets + Leaves(t, L, rank, base)
    decreases Height(t, rank), Nodes(t), 0
  {
    match t {
      case Struct(n) =>
        if n in L { out := GetFieldsLeafOffsets(Members(L, rank, n), L, rank, base, offsets); } else { out := offsets; }
      case Tuple(items) => out := GetFieldsLeafOffsets(items, L, rank, base, offsets);
      case Refined(inner, _) => out := GetLeafOffsets(inner, L, rank, base, offsets);
      case Literal(inner, _) => out := GetLeafOffsets(inner, L, rank, base, offsets);
      case _ => out := offsets + [(base, t)];
    }
  }

  /** One more field: its leaves at the next aligned offset, and where it ends. */
  method AppendField(t: Type, L: Layouts, ghost rank: Rank, base: nat, offset: nat, out: seq<Leaf>)
    returns (out': seq<Leaf>, end: nat)
    requires Acyclic(L, rank)
    ensures var at := NextMultiple(offset, TypeAlign(t, L, rank));
            out' == out + Leaves(t, L, rank, base + at) && end == at + SizeOf(t, L, rank)
    decreases Height(t, rank), Nodes(t), 2
  {
    var at := Place(offset, t, L, rank);
    out' := GetLeafOffsets(t, L, rank, base + at, out);
    var size := ComputeSize(t, L, rank);
    end := at + size;
  }

  method WalkField(ts: seq<Type>, k: nat, L: Layouts, ghost rank: Rank, base: nat, offset: nat, out: seq<Leaf>,
                   ghost offsets: seq<Leaf>)
    returns (out': seq<Leaf>, end: nat)
    requires Acyclic(L, rank) && k < |ts| && Walked(ts, L, rank, base, offsets, k, offset, out)
    ensures Walked(ts, L, rank, base, offsets, k + 1, end, out')
    decreases MaxHeight(ts, rank), AllNodes(ts), 3
  {
    NodesAt(ts, k);
    out', end := AppendField(ts[k], L, rank, base, offset, out);
    WalkedNext(ts, L, rank, base, offsets, k, offset, out);
  }

  method GetFieldsLeafOffsets(ts: seq<Type>, L: Layouts, ghost rank: Rank, base: nat, offsets: seq<Leaf>)
    returns (out: seq<Leaf>)
    requires Acyclic(L, rank)
    ensures out == offsets + LeavesOf(ts, L, rank, base)
    decreases MaxHeight(ts, rank), AllNodes(ts), 4
  {
    var offset := 0;
    out := offsets;
    for k := 0 to |ts|
      invariant Walked(ts, L, rank, base, offsets, k, offset, out)
    {
      out, offset := WalkField(ts, k, L, rank, base, offset, out, offsets);
    }
    AllWalked(ts, L, rank, base, offsets, offset, out);
  }

  lemma AllWalked(ts: seq<Type>, L: Layouts, rank: Rank, base: nat, offsets: seq<Leaf>, offset: nat, out: seq<Leaf>)
    requires Acyclic(L, rank) && Walked(ts, L, rank, base, offsets, |ts|, offset, out)
    ensures out == offsets + LeavesOf(ts, L, rank, base)
  {
    assert ts[..|ts|] == ts;
  }

  /** The first k fields are done. */
  ghost predicate Walked(ts: seq<Type>, L: Layouts, rank: Rank, base: nat, offsets: seq<Leaf>, k: nat, offset: nat,
                         out: seq<Leaf>)
    requires Acyclic(L, rank) && k <= |ts|
  {
    offset == FieldsEnd(ts[..k], L, rank) && out == offsets + LeavesOf(ts[..k], L, rank, base)
  }

  lemma WalkedNext(ts: seq<Type>, L: Layouts, rank: Rank, base: nat, offsets: seq<Leaf>, k: nat, offset: nat,
                   out: seq<Leaf>)
    requires Acyclic(L, rank) && k < |ts| && Walked(ts, L, rank, base, offsets, k, offset, out)
    ensures var at := NextMultiple(offset, TypeAlign(ts[k], L, rank));
            Walked(ts, L, rank, base, offsets, k + 1, at + SizeOf(ts[k], L, rank),
                   out + Leaves(ts[k], L, rank, base + at))
  {
    FieldsEndNext(ts, L, rank, k);
    LeavesAppended(offsets, ts, L, rank, base, k);
  }

  lemma LeavesAppended(offsets: seq<Leaf>, ts: seq<Type>, L: Layouts, rank: Rank, base: nat, k: nat)
    requires Acyclic(L, rank) && k < |ts|
    ensures offsets + LeavesOf(ts[..k], L, rank, base) + Leaves(ts[k], L, rank, base + FieldAt(ts, L, rank, k))
         == offsets + LeavesOf(ts[..k + 1], L, rank, base)
  {
    LeavesOfNext(ts, L, rank, base, k);
    Regrouped(offsets, LeavesOf(ts[..k], L, rank, base), Leaves(ts[k], L, rank, base + FieldAt(ts, L, rank, k)));
  }

  method GetFieldOffset(L: Layouts, ghost rank: Rank, n: string, name: string) returns (r: Option<nat>)
    requires Acyclic(L, rank)
    ensures IsFieldOffset(L, rank, n, name, r)
  {
    if n !in L {
      return None;
    }
    r := OffsetIn(L[n], L, rank, name);
  }

  /** The first k fields have other names. */
  ghost predicate Scanned(fields: seq<Field>, L: Layouts, rank: Rank, name: string, k: nat, offset: nat)
    requires Acyclic(L, rank) && k <= |fields|
  {
    offset == FieldsEnd(FieldTypes(fields)[..k], L, rank) && forall j | 0 <= j < k :: fields[j].name != name
  }

  lemma ScannedNext(fields: seq<Field>, L: Layouts, rank: Rank, name: string, k: nat, offset: nat)
    requires Acyclic(L, rank) && k < |fields| && Scanned(fields, L, rank, name, k, offset)
    ensures var at := NextMultiple(offset, TypeAlign(fields[k].ty, L, rank));
            if fields[k].name == name then IsOffsetIn(fields, L, rank, name, Some(at))
            else Scanned(fields, L, rank, name, k + 1, at + SizeOf(fields[k].ty, L, rank))
  {
    FieldsEndNext(FieldTypes(fields), L, rank, k);
    if fields[k].name == name { assert FirstNamed(fields, name, k); }
  }

  method OffsetIn(fields: seq<Field>, L: Layouts, ghost rank: Rank, name: string) returns (r: Option<nat>)
    requires Acyclic(L, rank)
    ensures IsOffsetIn(fields, L, rank, name, r)
  {
    var offset := 0;
    for k := 0 to |fields|
      invariant Scanned(fields, L, rank, name, k, offset)
    {
      ScannedNext(fields, L, rank, name, k, offset);
      offset := Place(offset, fields[k].ty, L, rank);
      if fields[k].name == name {
        return Some(offset);
      }
      var size := ComputeSize(fields[k].ty, L, rank);
      offset := offset + size;
    }
    return None;
  }
}
