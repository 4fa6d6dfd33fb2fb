/** What constant folding replaces, no less and no more (optimization/constant_folding.rs). */
module FoldComplete {
  import opened Types
  import opened Bits
  import opened Ir
  import opened Ssa
  import opened ConstFold

  /** The instructions in the order of the block list. */
  function Flat(blocks: seq<Block>): seq<Inst> {
    if blocks == [] then [] else blocks[0].insts + Flat(blocks[1..])
  }

  ghost predicate DefinedOnce(insts: seq<Inst>) {
    forall i, j | 0 <= i < j < |insts| && Def(insts[i]).Some? :: Def(insts[i]) != Def(insts[j])
  }

  // ----- folding the list is folding the blocks -----

  lemma {:induction false} FoldInstsAppend(K: Consts, a: seq<Inst>, b: seq<Inst>)
    ensures var (r, K') := FoldInsts(K, a);
            var (r', K'') := FoldInsts(K', b);
            FoldInsts(K, a + b) == (r + r', K'')
    decreases a
  {
    if a == [] {
      assert a + b == b && FoldInsts(K, a) == ([], K);
      assert [] + FoldInsts(K, b).0 == FoldInsts(K, b).0;
    } else {
      assert (a + b)[0] == a[0] && (a + b)[1..] == a[1..] + b;
      FoldInstsAppend(Learn(K, a[0]), a[1..], b);
      var (rest, K') := FoldInsts(Learn(K, a[0]), a[1..]);
      var r' := FoldInsts(K', b).0;
      assert [FoldInst(K, a[0])] + (rest + r') == ([FoldInst(K, a[0])] + rest) + r';
    }
  }

  lemma {:induction false} FoldFlat(K: Consts, blocks: seq<Block>)
    ensures FoldInsts(K, Flat(blocks)) == (Flat(FoldBlocks(K, blocks).0), FoldBlocks(K, blocks).1)
    decreases blocks
  {
    if blocks != [] {
      var (insts, K') := FoldInsts(K, blocks[0].insts);
      FoldInstsAppend(K, blocks[0].insts, Flat(blocks[1..]));
      FoldFlat(K', blocks[1..]);
      var rest := FoldBlocks(K', blocks[1..]).0;
      assert FoldBlocks(K, blocks).0 == [blocks[0].(insts := insts)] + rest;
    }
  }

  // ----- what the map holds -----

  lemma FoldInstsLast(insts: seq<Inst>)
    requires insts != []
    ensures var (r, K) := FoldInsts(map[], insts[..|insts| - 1]);
            var last := insts[|insts| - 1];
            FoldInsts(map[], insts) == (r + [FoldInst(K, last)], Learn(K, last))
  {
    var n := |insts| - 1;
    FoldInstsAppend(map[], insts[..n], insts[n..]);
    assert insts == insts[..n] + insts[n..] && insts[n..] == [insts[n]];
    FoldOne(FoldInsts(map[], insts[..n]).1, insts[n]);
  }

  lemma FoldOne(K: Consts, i: Inst)
    ensures FoldInsts(K, [i]) == ([FoldInst(K, i)], Learn(K, i))
  {
    assert [i][1..] == [];
    assert FoldInsts(Learn(K, i), []) == ([], Learn(K, i));
    assert [FoldInst(K, i)] + [] == [FoldInst(K, i)];
  }

  /** The map holds the folded constants of the list so far. */
  ghost predicate Tracks(K: Consts, done: seq<Inst>) {
    forall v: Value, x: int :: ConstInt(v, x) in done <==> v in K && K[v] == x
  }

  lemma {:induction false} MapTracks(insts: seq<Inst>)
    requires DefinedOnce(insts)
    ensures var (r, K) := FoldInsts(map[], insts);
            && Tracks(K, r) && |r| == |insts| && forall k | 0 <= k < |r| :: Def(r[k]) == Def(insts[k])
    decreases |insts|
  {
    if insts != [] {
      var n := |insts| - 1;
      MapTracks(insts[..n]);
      FoldInstsLast(insts);
      var (r, K) := FoldInsts(map[], insts[..n]);
      forall v: Value, x: int | ConstInt(v, x) in r ensures Def(insts[n]) != Some(v) {
        var k :| 0 <= k < n && r[k] == ConstInt(v, x);
        assert Def(insts[k]) == Some(v);
      }
    }
  }

  lemma {:induction false} FoldPrefix(insts: seq<Inst>, n: nat)
    requires n < |insts|
    ensures var (r, K) := FoldInsts(map[], insts[..n]);
            var all := FoldInsts(map[], insts).0;
            |r| == n && |all| == |insts| && all[..n] == r && all[n] == FoldInst(K, insts[n])
    decreases |insts|
  {
    FoldInstsLast(insts);
    Lengths(map[], insts[..|insts| - 1]);
    Lengths(map[], insts[..n]);
    var m := |insts| - 1;
    if n < m {
      FoldPrefix(insts[..m], n);
      assert insts[..m][..n] == insts[..n];
    }
  }

  lemma {:induction false} Lengths(K: Consts, insts: seq<Inst>)
    ensures |FoldInsts(K, insts).0| == |insts|
    decreases insts
  {
    if insts != [] { Lengths(Learn(K, insts[0]), insts[1..]); }
  }

  // ----- the rule -----

  /** i, behind the instructions done, is a constant expression of value x: 64-bit, wrapping around. */
  ghost predicate ConstantExpression(done: seq<Inst>, i: Inst, x: int) {
    match i
    case Arith(Add, _, l, r) => exists a, b :: ConstInt(l, a) in done && ConstInt(r, b) in done && x == WrapI64(a + b)
    case Arith(Sub, _, l, r) => exists a, b :: ConstInt(l, a) in done && ConstInt(r, b) in done && x == WrapI64(a - b)
    case Arith(Mul, _, l, r) => exists a, b :: ConstInt(l, a) in done && ConstInt(r, b) in done && x == WrapI64(a * b)
    case Neg(_, s) => exists a :: ConstInt(s, a) in done && x == WrapI64(-a)
    case _ => false
  }

  lemma KnownExactly(K: Consts, done: seq<Inst>, i: Inst, x: int)
    requires Tracks(K, done) && !i.ConstInt?
    ensures Known(K, i) == Some(x) <==> ConstantExpression(done, i, x)
  {
    if i.Arith? && i.l in K && i.r in K {
      assert ConstInt(i.l, K[i.l]) in done && ConstInt(i.r, K[i.r]) in done;
    }
    if i.Neg? && i.s in K { assert ConstInt(i.s, K[i.s]) in done; }
  }

  /** Folding a list turns exactly the sums, differences, products and negations of constants before them
      into constants, those it has just made included, and leaves everything else alone. */
  lemma FoldedExactly(f: Func, n: nat)
    requires DefinedOnce(Flat(f.blocks)) && n < |Flat(f.blocks)|
    ensures var was, now := Flat(f.blocks), Flat(Folded(f).blocks);
            && |now| == |was|
            && (forall x | ConstantExpression(now[..n], was[n], x) :: now[n] == ConstInt(was[n].d, x))
            && ((forall x :: !ConstantExpression(now[..n], was[n], x)) ==> now[n] == was[n])
  {
    var was, now := Flat(f.blocks), Flat(Folded(f).blocks);
    FoldFlat(map[], f.blocks);
    FoldPrefix(was, n);
    MapTracks(was[..n]);
    var K := FoldInsts(map[], was[..n]).1;
    if !was[n].ConstInt? {
      forall x ensures Known(K, was[n]) == Some(x) <==> ConstantExpression(now[..n], was[n], x) {
        KnownExactly(K, now[..n], was[n], x);
      }
    }
  }

  // ----- one definition per value makes the list one as well -----

  lemma {:induction false} FlatSource(blocks: seq<Block>, n: nat) returns (k: nat, m: nat)
    requires n < |Flat(blocks)|
    ensures k < |blocks| && m < |blocks[k].insts| && blocks[k].insts[m] == Flat(blocks)[n]
    decreases blocks
  {
    var first := |blocks[0].insts|;
    if n < first {
      k, m := 0, n;
    } else {
      k, m := FlatSource(blocks[1..], n - first);
      k := k + 1;
    }
  }

  lemma {:induction false} FlatDefinedOnce(f: Func, k: nat)
    requires UniqueIds(f) && UniqueDefs(f) && k <= |f.blocks|
    ensures DefinedOnce(Flat(f.blocks[k..]))
    decreases |f.blocks| - k
  {
    if k < |f.blocks| {
      var b, rest := f.blocks[k], Flat(f.blocks[k + 1..]);
      FlatDefinedOnce(f, k + 1);
      FindUnique(f.blocks, k);
      assert f.blocks[k..][1..] == f.blocks[k + 1..];
      var all := b.insts + rest;
      forall i, j | 0 <= i < j < |all| && Def(all[i]).Some? ensures Def(all[i]) != Def(all[j]) {
        if i < |b.insts| { OtherPlace(f, k, i, j); }
      }
    }
  }

  lemma OtherPlace(f: Func, k: nat, i: nat, j: nat)
    requires UniqueIds(f) && UniqueDefs(f) && k < |f.blocks| && i < |f.blocks[k].insts| && i < j
    requires j < |f.blocks[k].insts + Flat(f.blocks[k + 1..])| && Def(f.blocks[k].insts[i]).Some?
    ensures Def(f.blocks[k].insts[i]) != Def((f.blocks[k].insts + Flat(f.blocks[k + 1..]))[j])
  {
    var b := f.blocks[k];
    var v := Def(b.insts[i]).value;
    FindUnique(f.blocks, k);
    assert DefAt(f, b.id, i, v);
    if j < |b.insts| {
      assert Def(b.insts[j]) == Some(v) ==> DefAt(f, b.id, j, v);
    } else {
      var c, m := FlatSource(f.blocks[k + 1..], j - |b.insts|);
      var other := f.blocks[k + 1 + c];
      FindUnique(f.blocks, k + 1 + c);
      assert Def(other.insts[m]) == Some(v) ==> DefAt(f, other.id, m, v);
    }
  }

  /** In SSA form. */
  lemma SsaFoldedExactly(f: Func, n: nat)
    requires UniqueIds(f) && UniqueDefs(f) && n < |Flat(f.blocks)|
    ensures var was, now := Flat(f.blocks), Flat(Folded(f).blocks);
            && |now| == |was|
            && (forall x | ConstantExpression(now[..n], was[n], x) :: now[n] == ConstInt(was[n].d, x))
            && ((forall x :: !ConstantExpression(now[..n], was[n], x)) ==> now[n] == was[n])
  {
    assert f.blocks[0..] == f.blocks;
    FlatDefinedOnce(f, 0);
    FoldedExactly(f, n);
  }
}
