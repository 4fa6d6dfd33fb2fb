/** The optimisation pipeline (optimization/mod.rs): folding, fusion, dead code elimination. */
module Pipeline {
  import opened Types
  import opened Ir
  import opened Ssa
  import opened ConstFold
  import opened Fusion
  import Dce

  // ----- folding keeps what fusion asks for -----

  lemma {:induction false} FoldInstsKinds(K: Consts, insts: seq<Inst>)
    ensures var r := FoldInsts(K, insts).0;
            |r| == |insts| && forall m | 0 <= m < |insts| :: r[m] == insts[m] || r[m].ConstInt?
    decreases insts
  {
    if insts != [] { FoldInstsKinds(Learn(K, insts[0]), insts[1..]); }
  }

  lemma {:induction false} FoldBlocksKinds(K: Consts, blocks: seq<Block>)
    ensures var r := FoldBlocks(K, blocks).0;
            |r| == |blocks| &&
            forall k | 0 <= k < |blocks| :: |r[k].insts| == |blocks[k].insts| &&
              forall m | 0 <= m < |blocks[k].insts| :: r[k].insts[m] == blocks[k].insts[m] || r[k].insts[m].ConstInt?
    decreases blocks
  {
    if blocks != [] {
      FoldInstsKinds(K, blocks[0].insts);
      FoldBlocksKinds(FoldInsts(K, blocks[0].insts).1, blocks[1..]);
    }
  }

  lemma FoldedFits(f: Func)
    requires NoKernels(f) && TensorsTyped(f) && UniqueIds(f)
    ensures NoKernels(Folded(f)) && TensorsTyped(Folded(f))
  {
    var f' := Folded(f);
    FoldBlocksKinds(map[], f.blocks);
    forall b', i' | b' in f'.blocks && i' in b'.insts ensures !i'.TensorFused? && KindTyped(f.types, i') {
      var k :| 0 <= k < |f'.blocks| && f'.blocks[k] == b';
      var m :| 0 <= m < |b'.insts| && b'.insts[m] == i';
      var b := f.blocks[k];
      if i' == b.insts[m] {
        assert b in f.blocks && i' in b.insts;
        FindUnique(f.blocks, k);
        assert KindTyped(f.types, InstOf(f, b.id, m));
      }
    }
    forall b, i | HasInst(f', b, i) ensures KindTyped(f.types, InstOf(f', b, i)) {
      assert Find(f'.blocks, b).value in f'.blocks;
    }
  }

  lemma WellFormedInOrder(f: Func, b: Block)
    requires WellFormed(f) && NoKernels(f) && b in f.blocks
    ensures InOrder(b.insts) && forall i | i in b.insts :: Canonical(i)
  {
    var k :| 0 <= k < |f.blocks| && f.blocks[k] == b;
    FindUnique(f.blocks, k);
    forall i, j, v | 0 <= i < |b.insts| && 0 <= j < |b.insts| && Def(b.insts[j]) == Some(v) && v in Uses(b.insts[i])
      ensures j < i
    {
      assert DefAt(f, b.id, j, v) && InstOf(f, b.id, i) == b.insts[i];
    }
    forall i, j | 0 <= i < |b.insts| && 0 <= j < |b.insts| && Def(b.insts[i]).Some?
      && Def(b.insts[i]) == Def(b.insts[j])
      ensures i == j
    {
      assert DefAt(f, b.id, i, Def(b.insts[i]).value) && DefAt(f, b.id, j, Def(b.insts[i]).value);
    }
  }

  /** What the passes ask of a function: well-formed SSA, typed, and no kernels yet. */
  ghost predicate Compilable(f: Func) {
    WellFormed(f) && WidthsOk(f) && TensorsTyped(f) && NoKernels(f)
  }

  ghost predicate SameBehaviour(f: Func, f': Func) {
    forall I, env, n :: Observe(Run(I, f, Start(f, env), n)) == Observe(Run(I, f', Start(f', env), n))
  }

  /** The three passes in order keep every run: the same blocks, the same effects with the same
      arguments, the same returned value. */
  lemma OptimizePreservesRuns(f: Func, fused: Func)
    requires Compilable(f) && Fused(Folded(f), fused)
    ensures SameBehaviour(f, Dce.Pruned(fused)) && WellFormed(Dce.Pruned(fused))
  {
    FoldedFits(f);
    FoldingPreservesRuns(NoInterp(), f, map[], 0);
    FusionPreservesRuns(NoInterp(), Folded(f), fused, map[], 0);
    Dce.DceKeepsWellFormed(fused);
    forall I, env, n
      ensures Observe(Run(I, f, Start(f, env), n))
              == Observe(Run(I, Dce.Pruned(fused), Start(Dce.Pruned(fused), env), n))
    {
      FoldingPreservesRuns(I, f, env, n);
      FusionPreservesRuns(I, Folded(f), fused, env, n);
      Dce.DcePreservesRuns(I, fused, env, n);
    }
  }

  method Optimize(func: Function)
    requires Compilable(func.View())
    modifies func`blocks
    ensures SameBehaviour(old(func.View()), func.View()) && WellFormed(func.View())
    ensures exists fused :: Fused(Folded(old(func.View())), fused) && func.View() == Dce.Pruned(fused)
  {
    ghost var f := func.View();
    FoldConstants(func);
    FoldingPreservesRuns(NoInterp(), f, map[], 0);
    FoldedFits(f);
    forall b | b in func.blocks ensures InOrder(b.insts) && forall i | i in b.insts :: Canonical(i) {
      WellFormedInOrder(func.View(), b);
    }
    FuseTensorKernels(func);
    ghost var fused := func.View();
    Dce.EliminateDeadCode(func);
    OptimizePreservesRuns(f, fused);
  }
}
