/** Room and tightness of the layouts (ir/types.rs): every part of a type has its bytes, at its alignment, and
    no more padding than that takes. */
module LayoutBounds {
  import opened Types
  import opened Layout
  import Bits

  // ----- scalars -----

  /** A scalar takes the fewest bytes that hold its bits, and is aligned to its size. */
  lemma {:induction false} ScalarFits(t: Type, L: Layouts, rank: Rank)
    requires Acyclic(L, rank) && IntBitWidth(t).Some?
    ensures 8 * SizeOf(t, L, rank) - 8 < IntBitWidth(t).value <= 8 * SizeOf(t, L, rank)
    ensures IntBitWidth(t).value >= 8 ==> 8 * SizeOf(t, L, rank) == IntBitWidth(t).value
    ensures AlignOf(t, L, rank) == SizeOf(t, L, rank)
    decreases t
  {
    if t.Refined? || t.Literal? { ScalarFits(t.elem, L, rank); }
  }

  /** What is held by address is one 64-bit word, a buffer two, a vector 128 bits. */
  lemma WordFits(t: Type, L: Layouts, rank: Rank)
    requires Acyclic(L, rank)
    ensures (t.Pointer? || t.List? || t.Str? || t.FnPointer? || t.Tensor? || (t.Array? && t.len.None?)) ==>
              8 * SizeOf(t, L, rank) == 64 && 8 * AlignOf(t, L, rank) == 64
    ensures t.Buffer? ==> 8 * SizeOf(t, L, rank) == 2 * 64 && 8 * AlignOf(t, L, rank) == 64
    ensures t.Simd? ==> 8 * SizeOf(t, L, rank) == 128 && 8 * AlignOf(t, L, rank) == 128
  {
  }

  // ----- alignments -----

  lemma Divides(a: nat, b: nat)
    requires IsAlignment(a) && IsAlignment(b) && a <= b
    ensures b % a == 0
  {
  }

  /** m is the least alignment that suits every type of the list. */
  ghost predicate SuitsAll(ts: seq<Type>, L: Layouts, rank: Rank, m: nat)
    requires Acyclic(L, rank)
  {
    m > 0 && forall k | 0 <= k < |ts| :: m % TypeAlign(ts[k], L, rank) == 0
  }

  lemma {:induction false} MaxAlignAttained(ts: seq<Type>, L: Layouts, rank: Rank)
    requires Acyclic(L, rank)
    ensures MaxAlign(ts, L, rank) == 1
         || exists k :: 0 <= k < |ts| && TypeAlign(ts[k], L, rank) == MaxAlign(ts, L, rank)
    decreases |ts|
  {
    if ts != [] {
      var rest := ts[..|ts| - 1];
      MaxAlignAttained(rest, L, rank);
      if MaxAlign(ts, L, rank) == MaxAlign(rest, L, rank) {
        if k :| 0 <= k < |rest| && TypeAlign(rest[k], L, rank) == MaxAlign(rest, L, rank) { assert ts[k] == rest[k]; }
      } else {
        assert TypeAlign(ts[|ts| - 1], L, rank) == MaxAlign(ts, L, rank);
      }
    }
  }

  lemma MaxAlignSuits(ts: seq<Type>, L: Layouts, rank: Rank)
    requires Acyclic(L, rank)
    ensures SuitsAll(ts, L, rank, MaxAlign(ts, L, rank))
    ensures forall m | SuitsAll(ts, L, rank, m) :: MaxAlign(ts, L, rank) <= m
  {
    MaxAlignOk(ts, L, rank);
    forall k | 0 <= k < |ts| ensures MaxAlign(ts, L, rank) % TypeAlign(ts[k], L, rank) == 0 {
      AlignmentOk(ts[k], L, rank);
      Divides(AlignOf(ts[k], L, rank), MaxAlign(ts, L, rank));
    }
    MaxAlignAttained(ts, L, rank);
    forall m | SuitsAll(ts, L, rank, m) ensures MaxAlign(ts, L, rank) <= m {
      if k :| 0 <= k < |ts| && TypeAlign(ts[k], L, rank) == MaxAlign(ts, L, rank) {
        NoSmallerMultiple(m, TypeAlign(ts[k], L, rank));
      }
    }
  }

  lemma NoSmallerMultiple(m: nat, a: nat)
    requires m > 0 && a > 0 && m % a == 0
    ensures a <= m
  {
    if m < a { Bits.DivModUnique(m, a, 0, m); }
  }

  /** A composite has the least alignment that suits all its parts. */
  lemma TupleAlignment(items: seq<Type>, L: Layouts, rank: Rank)
    requires Acyclic(L, rank)
    ensures SuitsAll(items, L, rank, AlignOf(Tuple(items), L, rank))
    ensures forall m | SuitsAll(items, L, rank, m) :: AlignOf(Tuple(items), L, rank) <= m
  {
    MaxAlignSuits(items, L, rank);
  }

  lemma NamedAlignment(n: string, t: Type, L: Layouts, rank: Rank)
    requires Acyclic(L, rank) && n in L && (t == Struct(n) || t == Enum(n))
    ensures SuitsAll(FieldTypes(L[n]), L, rank, AlignOf(t, L, rank))
    ensures forall m | SuitsAll(FieldTypes(L[n]), L, rank, m) :: AlignOf(t, L, rank) <= m
  {
    MaxAlignSuits(Members(L, rank, n), L, rank);
  }

  lemma PayloadAlignment(t: Type, L: Layouts, rank: Rank)
    requires Acyclic(L, rank)
    ensures SuitsAll([t], L, rank, AlignOf(Optional(t), L, rank))
    ensures forall m | SuitsAll([t], L, rank, m) :: AlignOf(Optional(t), L, rank) <= m
  {
    MaxAlignSuits([t], L, rank);
    AlignmentOk(t, L, rank);
    assert [t][..0] == [] && MaxAlign([t][..0], L, rank) == 1;
  }

  // ----- tags -----

  /** whole bytes hold a tag byte and, at offset o, size bytes aligned to align, with no unneeded padding. */
  ghost predicate HoldsTagged(whole: nat, o: nat, size: nat, align: nat)
    requires align > 0
  {
    1 <= o < 1 + align && o % align == 0 && o + size <= whole < o + size + align && whole % align == 0
  }

  lemma TaggedHolds(payload: nat, align: nat) returns (o: nat)
    requires align > 0
    ensures HoldsTagged(Tagged(payload, align), o, payload, align)
  {
    o := NextMultiple(1, align);
    NextMultipleIs(1, align);
    NextMultipleIs(o + payload, align);
  }

  /** An option has room for its tag and, behind it, for its payload. */
  lemma OptionalHolds(t: Type, L: Layouts, rank: Rank) returns (o: nat)
    requires Acyclic(L, rank)
    ensures 1 <= o < 1 + TypeAlign(t, L, rank) && o % TypeAlign(t, L, rank) == 0
    ensures o + SizeOf(t, L, rank) <= SizeOf(Optional(t), L, rank) < o + SizeOf(t, L, rank) + TypeAlign(t, L, rank)
    ensures SizeOf(Optional(t), L, rank) % TypeAlign(t, L, rank) == 0
  {
    o := TaggedHolds(SizeOf(t, L, rank), TypeAlign(t, L, rank));
  }

  lemma {:induction false} MaxSizeAttained(ts: seq<Type>, L: Layouts, rank: Rank)
    requires Acyclic(L, rank)
    ensures forall k | 0 <= k < |ts| :: SizeOf(ts[k], L, rank) <= MaxSize(ts, L, rank)
    ensures MaxSize(ts, L, rank) == 0 || exists k :: 0 <= k < |ts| && SizeOf(ts[k], L, rank) == MaxSize(ts, L, rank)
    decreases |ts|
  {
    if ts != [] {
      var rest := ts[..|ts| - 1];
      MaxSizeAttained(rest, L, rank);
      forall k | 0 <= k < |ts| ensures SizeOf(ts[k], L, rank) <= MaxSize(ts, L, rank) {
        if k < |ts| - 1 { assert ts[k] == rest[k]; }
      }
      if MaxSize(ts, L, rank) == MaxSize(rest, L, rank) {
        if k :| 0 <= k < |rest| && SizeOf(rest[k], L, rank) == MaxSize(rest, L, rank) { assert ts[k] == rest[k]; }
      } else {
        assert SizeOf(ts[|ts| - 1], L, rank) == MaxSize(ts, L, rank);
      }
    }
  }

  /** A union has room for its tag and, at one offset that suits them all, for each of its variants; the
      largest leaves less than one alignment unused. */
  lemma EnumHolds(n: string, L: Layouts, rank: Rank) returns (o: nat)
    requires Acyclic(L, rank) && n in L
    ensures var a, whole := TypeAlign(Enum(n), L, rank), SizeOf(Enum(n), L, rank);
            && 1 <= o < 1 + a && o % a == 0 && whole % a == 0
            && (forall k | 0 <= k < |L[n]| ::
                  a % TypeAlign(L[n][k].ty, L, rank) == 0 && o + SizeOf(L[n][k].ty, L, rank) <= whole)
            && (L[n] == [] ==> whole == 1)
            && (L[n] != [] ==> exists k :: 0 <= k < |L[n]| && whole < o + SizeOf(L[n][k].ty, L, rank) + a)
  {
    var ts := Members(L, rank, n);
    o := TaggedHolds(MaxSize(ts, L, rank), FieldsAlign(ts, L, rank));
    MaxAlignSuits(ts, L, rank);
    MaxSizeAttained(ts, L, rank);
    forall k | 0 <= k < |L[n]|
      ensures TypeAlign(Enum(n), L, rank) % TypeAlign(L[n][k].ty, L, rank) == 0
      ensures o + SizeOf(L[n][k].ty, L, rank) <= SizeOf(Enum(n), L, rank)
    {
      assert ts[k] == L[n][k].ty;
    }
    if L[n] != [] {
      var k :| 0 <= k < |ts| && SizeOf(ts[k], L, rank) == MaxSize(ts, L, rank);
      assert ts[k] == L[n][k].ty;
    }
  }

  // ----- records and arrays -----

  /** Field k starts where the field before it ends, after the least padding that aligns it; the record ends
      where the last one does, after the least padding that aligns the record. */
  lemma FieldsTight(ts: seq<Type>, L: Layouts, rank: Rank, k: nat)
    requires Acyclic(L, rank) && k < |ts|
    ensures FieldAt(ts, L, rank, k) % TypeAlign(ts[k], L, rank) == 0
    ensures k == 0 ==> FieldAt(ts, L, rank, k) == 0
    ensures k > 0 ==>
              var end := FieldAt(ts, L, rank, k - 1) + SizeOf(ts[k - 1], L, rank);
              end <= FieldAt(ts, L, rank, k) < end + TypeAlign(ts[k], L, rank)
  {
    NextMultipleIs(FieldsEnd(ts[..k], L, rank), TypeAlign(ts[k], L, rank));
    if k > 0 { FieldsEndNext(ts, L, rank, k - 1); }
  }

  lemma RecordTight(ts: seq<Type>, L: Layouts, rank: Rank)
    requires Acyclic(L, rank)
    ensures var a, whole := TypeAlign(Tuple(ts), L, rank), SizeOf(Tuple(ts), L, rank);
            && whole % a == 0 && (ts == [] ==> whole == 0)
            && (ts != [] ==>
                  var end := FieldAt(ts, L, rank, |ts| - 1) + SizeOf(ts[|ts| - 1], L, rank);
                  end <= whole < end + a)
  {
    NextMultipleIs(FieldsEnd(ts, L, rank), FieldsAlign(ts, L, rank));
    if ts != [] {
      FieldsEndNext(ts, L, rank, |ts| - 1);
      assert ts[..|ts| - 1 + 1] == ts;
    }
  }

  /** A named record is laid out as the tuple of its fields. */
  lemma StructIsTuple(n: string, L: Layouts, rank: Rank)
    requires Acyclic(L, rank) && n in L
    ensures SizeOf(Struct(n), L, rank) == SizeOf(Tuple(FieldTypes(L[n])), L, rank)
    ensures AlignOf(Struct(n), L, rank) == AlignOf(Tuple(FieldTypes(L[n])), L, rank)
  {
    assert Members(L, rank, n) == FieldTypes(L[n]);
  }

  /** A name the table does not list stands for nothing. */
  lemma UnlistedIsEmpty(n: string, L: Layouts, rank: Rank, base: nat)
    requires Acyclic(L, rank) && n !in L
    ensures SizeOf(Struct(n), L, rank) == SizeOf(Enum(n), L, rank) == SizeOf(Tuple([]), L, rank) == 0
    ensures AlignOf(Struct(n), L, rank) == AlignOf(Enum(n), L, rank) == AlignOf(Tuple([]), L, rank) == 1
    ensures Leaves(Struct(n), L, rank, base) == Leaves(Tuple([]), L, rank, base) == []
  {
    RecordTight([], L, rank);
  }

  /** Element k of an array stands k element sizes in, aligned and inside. */
  lemma ElementsFit(t: Type, len: nat, k: nat, L: Layouts, rank: Rank)
    requires Acyclic(L, rank) && k < len
    ensures SizeOf(Array(t, Some(len)), L, rank) == len * SizeOf(t, L, rank)
    ensures (k * SizeOf(t, L, rank)) % TypeAlign(t, L, rank) == 0
    ensures k * SizeOf(t, L, rank) + SizeOf(t, L, rank) <= SizeOf(Array(t, Some(len)), L, rank)
    ensures AlignOf(Array(t, Some(len)), L, rank) == AlignOf(t, L, rank)
  {
    var s := SizeOf(t, L, rank);
    RepeatedIsProduct(len, s);
    AlignDividesSize(t, L, rank);
    MultipleOf(k, s, TypeAlign(t, L, rank));
    EndInside(len, k, s);
  }

  lemma EndInside(len: nat, k: nat, s: nat)
    requires k < len
    ensures k * s + s <= len * s
  {
    var rest := len - k - 1;
    assert len * s == k * s + s + rest * s;
  }

  // ----- which leaves -----

  /** Following the field numbers of path from a type at base leads to u at o. */
  ghost predicate Leads(t: Type, L: Layouts, rank: Rank, path: seq<nat>, base: nat, o: nat, u: Type)
    requires Acyclic(L, rank)
    decreases |path|, t
  {
    match t
    case Struct(n) =>
      n in L && path != [] && path[0] < |L[n]|
      && Leads(L[n][path[0]].ty, L, rank, path[1..], base + FieldAt(FieldTypes(L[n]), L, rank, path[0]), o, u)
    case Tuple(items) =>
      path != [] && path[0] < |items|
      && Leads(items[path[0]], L, rank, path[1..], base + FieldAt(items, L, rank, path[0]), o, u)
    case Refined(inner, _) => Leads(inner, L, rank, path, base, o, u)
    case Literal(inner, _) => Leads(inner, L, rank, path, base, o, u)
    case _ => path == [] && o == base && u == t
  }

  /** t is a record of fields ts. */
  ghost predicate IsRecord(t: Type, ts: seq<Type>, L: Layouts) {
    t == Tuple(ts) || (t.Struct? && t.name in L && ts == FieldTypes(L[t.name]))
  }

  lemma LeadsOn(t: Type, ts: seq<Type>, L: Layouts, rank: Rank, path: seq<nat>, base: nat, o: nat, u: Type)
    requires Acyclic(L, rank) && IsRecord(t, ts, L)
    ensures Leads(t, L, rank, path, base, o, u)
       <==> path != [] && path[0] < |ts|
            && Leads(ts[path[0]], L, rank, path[1..], base + FieldAt(ts, L, rank, path[0]), o, u)
  {
    if t.Struct? {
      LeadsOnNamed(t.name, L, rank, path, base, o, u);
    } else {
      LeadsOnItem(ts, L, rank, path, base, o, u);
    }
  }

  lemma LeadsOnItem(ts: seq<Type>, L: Layouts, rank: Rank, path: seq<nat>, base: nat, o: nat, u: Type)
    requires Acyclic(L, rank)
    ensures Leads(Tuple(ts), L, rank, path, base, o, u)
       <==> path != [] && path[0] < |ts|
            && Leads(ts[path[0]], L, rank, path[1..], base + FieldAt(ts, L, rank, path[0]), o, u)
  {
  }

  lemma LeadsOnNamed(n: string, L: Layouts, rank: Rank, path: seq<nat>, base: nat, o: nat, u: Type)
    requires Acyclic(L, rank) && n in L
    ensures Leads(Struct(n), L, rank, path, base, o, u)
       <==> path != [] && path[0] < |L[n]|
            && Leads(FieldTypes(L[n])[path[0]], L, rank, path[1..],
                     base + FieldAt(FieldTypes(L[n]), L, rank, path[0]), o, u)
  {
  }

  lemma RecordLeaves(t: Type, ts: seq<Type>, L: Layouts, rank: Rank, base: nat)
    requires Acyclic(L, rank) && IsRecord(t, ts, L)
    ensures Leaves(t, L, rank, base) == LeavesOf(ts, L, rank, base)
  {
    if t.Struct? { StructLeaves(L, rank, t.name, base); }
  }

  lemma LeadsInside(t: Type, L: Layouts, rank: Rank, path: seq<nat>, base: nat, o: nat, u: Type)
    requires Acyclic(L, rank) && (t.Refined? || t.Literal?)
    ensures Leads(t, L, rank, path, base, o, u) <==> Leads(t.elem, L, rank, path, base, o, u)
  {
  }

  lemma LeadsHere(t: Type, L: Layouts, rank: Rank, path: seq<nat>, base: nat, o: nat, u: Type)
    requires Acyclic(L, rank) && !t.Struct? && !t.Tuple? && !t.Refined? && !t.Literal?
    ensures Leads(t, L, rank, path, base, o, u) <==> path == [] && o == base && u == t
  {
  }

  /** x is a leaf of field k. */
  ghost predicate InField(ts: seq<Type>, L: Layouts, rank: Rank, base: nat, x: Leaf, k: nat)
    requires Acyclic(L, rank)
  {
    k < |ts| && x in Leaves(ts[k], L, rank, base + FieldAt(ts, L, rank, k))
  }

  lemma InEither(xs: seq<Leaf>, ys: seq<Leaf>, x: Leaf)
    ensures x in xs + ys <==> x in xs || x in ys
  {
  }

  /** x is a leaf of one of the first n fields. */
  ghost predicate InFirst(ts: seq<Type>, L: Layouts, rank: Rank, base: nat, x: Leaf, n: nat)
    requires Acyclic(L, rank)
  {
    exists k: nat :: k < n && InField(ts, L, rank, base, x, k)
  }

  lemma InFirstNext(ts: seq<Type>, L: Layouts, rank: Rank, base: nat, x: Leaf, n: nat)
    requires Acyclic(L, rank) && n < |ts|
    ensures InFirst(ts, L, rank, base, x, n + 1)
       <==> InFirst(ts, L, rank, base, x, n) || InField(ts, L, rank, base, x, n)
  {
  }

  lemma LeafOfNext(ts: seq<Type>, L: Layouts, rank: Rank, base: nat, x: Leaf, n: nat)
    requires Acyclic(L, rank) && n < |ts|
    ensures x in LeavesOf(ts[..n + 1], L, rank, base)
       <==> x in LeavesOf(ts[..n], L, rank, base) || InField(ts, L, rank, base, x, n)
  {
    LeavesOfNext(ts, L, rank, base, n);
    InEither(LeavesOf(ts[..n], L, rank, base), Leaves(ts[n], L, rank, base + FieldAt(ts, L, rank, n)), x);
  }

  lemma {:induction false} LeafOfFirst(ts: seq<Type>, n: nat, L: Layouts, rank: Rank, base: nat, x: Leaf)
    requires Acyclic(L, rank) && n <= |ts|
    ensures x in LeavesOf(ts[..n], L, rank, base) <==> InFirst(ts, L, rank, base, x, n)
  {
    if n > 0 {
      LeafOfFirst(ts, n - 1, L, rank, base, x);
      LeafOfNext(ts, L, rank, base, x, n - 1);
      InFirstNext(ts, L, rank, base, x, n - 1);
    }
  }

  lemma LeafOfField(ts: seq<Type>, L: Layouts, rank: Rank, base: nat, x: Leaf)
    requires Acyclic(L, rank)
    ensures x in LeavesOf(ts, L, rank, base) <==> InFirst(ts, L, rank, base, x, |ts|)
  {
    LeafOfFirst(ts, |ts|, L, rank, base, x);
    assert ts[..|ts|] == ts;
  }

  /** Whatever a path through the records and tuples of a type leads to is one of its leaves, at the sum of
      the field offsets on the way. */
  lemma {:induction false} PathHasLeaf(t: Type, L: Layouts, rank: Rank, path: seq<nat>, base: nat, o: nat, u: Type)
    requires Acyclic(L, rank) && Leads(t, L, rank, path, base, o, u)
    ensures (o, u) in Leaves(t, L, rank, base)
    decreases |path|, t, 1
  {
    if t.Struct? {
      FieldHasLeaf(t, FieldTypes(L[t.name]), L, rank, path, base, o, u);
    } else if t.Tuple? {
      FieldHasLeaf(t, t.items, L, rank, path, base, o, u);
    } else if t.Refined? || t.Literal? {
      LeadsInside(t, L, rank, path, base, o, u);
      PathHasLeaf(t.elem, L, rank, path, base, o, u);
    } else {
      LeadsHere(t, L, rank, path, base, o, u);
    }
  }

  lemma {:induction false} FieldHasLeaf(t: Type, ts: seq<Type>, L: Layouts, rank: Rank, path: seq<nat>, base: nat,
                                        o: nat, u: Type)
    requires Acyclic(L, rank) && IsRecord(t, ts, L)
    requires Leads(t, L, rank, path, base, o, u)
    ensures (o, u) in LeavesOf(ts, L, rank, base)
    decreases |path|, t, 0
  {
    LeadsOn(t, ts, L, rank, path, base, o, u);
    var k := path[0];
    PathHasLeaf(ts[k], L, rank, path[1..], base + FieldAt(ts, L, rank, k), o, u);
    assert InField(ts, L, rank, base, (o, u), k);
    LeafOfField(ts, L, rank, base, (o, u));
  }

  /** Every leaf of a type is what some path leads to. */
  lemma {:induction false} LeafHasPath(t: Type, L: Layouts, rank: Rank, base: nat, o: nat, u: Type)
    returns (path: seq<nat>)
    requires Acyclic(L, rank) && (o, u) in Leaves(t, L, rank, base)
    ensures Leads(t, L, rank, path, base, o, u)
    decreases Height(t, rank), Nodes(t), 0
  {
    if t.Struct? || t.Tuple? {
      var ts := FieldsOf(t, L, rank, base, o, u);
      RecordLeaves(t, ts, L, rank, base);
      var k, rest := LeafInField(ts, L, rank, base, o, u);
      path := Through(t, ts, L, rank, k, rest, base, o, u);
    } else if t.Refined? || t.Literal? {
      path := LeafHasPath(t.elem, L, rank, base, o, u);
      LeadsInside(t, L, rank, path, base, o, u);
    } else {
      path := [];
      LeadsHere(t, L, rank, path, base, o, u);
    }
  }

  lemma FieldsOf(t: Type, L: Layouts, rank: Rank, base: nat, o: nat, u: Type) returns (ts: seq<Type>)
    requires Acyclic(L, rank) && (t.Struct? || t.Tuple?) && (o, u) in Leaves(t, L, rank, base)
    ensures IsRecord(t, ts, L) && MaxHeight(ts, rank) <= Height(t, rank)
    ensures if t.Struct? then MaxHeight(ts, rank) < Height(t, rank) else AllNodes(ts) < Nodes(t)
  {
    ts := if t.Struct? then Members(L, rank, t.name) else t.items;
  }

  lemma Through(t: Type, ts: seq<Type>, L: Layouts, rank: Rank, k: nat, rest: seq<nat>, base: nat, o: nat, u: Type)
    returns (path: seq<nat>)
    requires Acyclic(L, rank) && IsRecord(t, ts, L)
    requires k < |ts| && Leads(ts[k], L, rank, rest, base + FieldAt(ts, L, rank, k), o, u)
    ensures Leads(t, L, rank, path, base, o, u)
  {
    path := [k] + rest;
    assert path[1..] == rest;
    LeadsOn(t, ts, L, rank, path, base, o, u);
  }

  lemma {:induction false} LeafInField(ts: seq<Type>, L: Layouts, rank: Rank, base: nat, o: nat, u: Type)
    returns (k: nat, rest: seq<nat>)
    requires Acyclic(L, rank) && (o, u) in LeavesOf(ts, L, rank, base)
    ensures k < |ts| && Leads(ts[k], L, rank, rest, base + FieldAt(ts, L, rank, k), o, u)
    decreases MaxHeight(ts, rank), AllNodes(ts), 1
  {
    LeafOfField(ts, L, rank, base, (o, u));
    k :| k < |ts| && InField(ts, L, rank, base, (o, u), k);
    NodesAt(ts, k);
    rest := LeafHasPath(ts[k], L, rank, base + FieldAt(ts, L, rank, k), o, u);
  }
}
