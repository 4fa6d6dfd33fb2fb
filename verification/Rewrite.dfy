/** Passes that replace pure operations one for one: what they must show, and what then follows.
    Constant folding and kernel fusion are both of this kind. */
module Rewrite {
  import opened Types
  import opened Ir
  import opened Ssa

  ghost predicate SameInst(i: Inst, i': Inst) {
    Def(i) == Def(i') && (i == i' || (IsPureOp(i) && IsPureOp(i')))
  }

  ghost predicate SameBlock(b: Block, b': Block) {
    && b'.id == b.id && b'.preds == b.preds && b'.succs == b.succs && |b'.insts| == |b.insts|
    && forall k | 0 <= k < |b.insts| :: SameInst(b.insts[k], b'.insts[k])
  }

  /** f' is f with pure operations replaced in place. */
  ghost predicate SameShape(f: Func, f': Func) {
    && f'.entry == f.entry && f'.types == f.types && |f'.blocks| == |f.blocks|
    && forall k | 0 <= k < |f.blocks| :: SameBlock(f.blocks[k], f'.blocks[k])
  }

  lemma {:induction false} FindSame(blocks: seq<Block>, blocks': seq<Block>, id: BlockId)
    requires |blocks| == |blocks'| && forall k | 0 <= k < |blocks| :: SameBlock(blocks[k], blocks'[k])
    ensures Find(blocks, id).Some? == Find(blocks', id).Some?
    ensures Find(blocks, id).Some? ==> SameBlock(Find(blocks, id).value, Find(blocks', id).value)
  {
    if blocks != [] {
      assert SameBlock(blocks[0], blocks'[0]);
      forall k | 0 <= k < |blocks| - 1 ensures SameBlock(blocks[1..][k], blocks'[1..][k]) {
        assert SameBlock(blocks[k + 1], blocks'[k + 1]);
      }
      FindSame(blocks[1..], blocks'[1..], id);
    }
  }

  lemma SamePositions(f: Func, f': Func, b: BlockId)
    requires SameShape(f, f')
    ensures Find(f.blocks, b).Some? == Find(f'.blocks, b).Some?
    ensures Find(f.blocks, b).Some? ==> SameBlock(Find(f.blocks, b).value, Find(f'.blocks, b).value)
    ensures Len(f, b) == Len(f', b)
    ensures forall i :: HasInst(f, b, i) == HasInst(f', b, i)
    ensures forall i | HasInst(f, b, i) :: SameInst(InstOf(f, b, i), InstOf(f', b, i))
    ensures forall c :: Edge(f, b, c) == Edge(f', b, c)
    ensures forall i, v :: DefAt(f, b, i, v) == DefAt(f', b, i, v)
  {
    FindSame(f.blocks, f'.blocks, b);
  }

  lemma SameDom(f: Func, f': Func)
    requires SameShape(f, f')
    ensures forall p :: IsPath(f, p) == IsPath(f', p)
    ensures forall a, b :: StrictDom(f, a, b) == StrictDom(f', a, b)
  {
    forall p ensures IsPath(f, p) == IsPath(f', p) {
      forall k: nat ensures EdgeAt(f, p, k) == EdgeAt(f', p, k) {
        if 0 < k < |p| { SamePositions(f, f', p[k - 1]); }
      }
    }
    forall a, b ensures StrictDom(f, a, b) == StrictDom(f', a, b) {}
  }

  /** Replacing pure operations in place keeps well-formedness as long as the new operands are
      dominated by their definitions. */
  lemma ShapeKeepsWellFormed(f: Func, f': Func)
    requires WellFormed(f) && SameShape(f, f') && FusedListed(f') && UsesDominated(f') && LocalOrder(f')
    ensures WellFormed(f')
  {
    forall b ensures Len(f, b) == Len(f', b) { SamePositions(f, f', b); }
    forall i, j | 0 <= i < j < |f'.blocks| ensures f'.blocks[i].id != f'.blocks[j].id {
      assert SameBlock(f.blocks[i], f'.blocks[i]) && SameBlock(f.blocks[j], f'.blocks[j]);
    }
    forall v, a, i, b, j | DefAt(f', a, i, v) && DefAt(f', b, j, v) ensures a == b && i == j {
      SamePositions(f, f', a);
      SamePositions(f, f', b);
      assert DefAt(f, a, i, v) && DefAt(f, b, j, v);
    }
    forall b, i: nat | HasInst(f', b, i)
      ensures IsTerminator(InstOf(f', b, i)) ==> i + 1 == Len(f', b)
      ensures JumpsAlongEdges(f', b, InstOf(f', b, i))
    {
      SamePositions(f, f', b);
    }
    forall b, i, j | i < j && HasInst(f', b, i) && HasInst(f', b, j) && InstOf(f', b, j).Phi?
      ensures InstOf(f', b, i).Phi?
    {
      SamePositions(f, f', b);
      assert InstOf(f, b, j).Phi? && InstOf(f, b, i).Phi?;
    }
    forall b, p | Find(f'.blocks, b).Some?
      ensures Edge(f', p, b) <==> p in Find(f'.blocks, b).value.preds
    {
      SamePositions(f, f', b);
      SamePositions(f, f', p);
      assert Edge(f, p, b) == Edge(f', p, b);
    }
    forall b, i | HasInst(f', b, i) && InstOf(f', b, i).Phi?
      ensures InstOf(f', b, i).operands.Keys == set p | p in Find(f'.blocks, b).value.preds
    {
      SamePositions(f, f', b);
      assert InstOf(f, b, i).Phi?;
    }
    SamePhiInputs(f, f');
  }

  lemma SamePhiInputs(f: Func, f': Func)
    requires SameShape(f, f') && PhiInputsDominated(f)
    ensures PhiInputsDominated(f')
  {
    SameDom(f, f');
    forall b, i, p | HasInst(f', b, i) && InstOf(f', b, i).Phi? && p in InstOf(f', b, i).operands
      ensures DefDominates(f', InstOf(f', b, i).operands[p], p, Len(f', p))
    {
      SamePositions(f, f', b);
      SamePositions(f, f', p);
      var v := InstOf(f, b, i).operands[p];
      assert DefDominates(f, v, p, Len(f, p));
      forall a, j | DefAt(f', a, j, v) ensures DomPoint(f', a, j, p, Len(f', p)) {
        SamePositions(f, f', a);
        assert DefAt(f, a, j, v);
      }
    }
  }

  // ----- equal runs -----

  /** At every point, the replacement gives what the original gives, in any environment that
      satisfies the defining equations of what dominates the point. */
  ghost predicate SameValues(I: Interp, f: Func, f': Func) {
    forall b, i, env | HasInst(f, b, i) && HasInst(f', b, i) && Equations(I, f, env, b, i) ::
      SameResult(I, f.types, InstOf(f, b, i), InstOf(f', b, i), env)
  }

  ghost predicate SameResult(I: Interp, types: map<Value, Type>, i: Inst, i': Inst, env: Env) {
    i == i' || (IsPureOp(i) && IsPureOp(i') && i.d == i'.d && Eval(I, types, i, env) == Eval(I, types, i', env))
  }

  lemma {:induction false} SameExec(I: Interp, f: Func, f': Func, env: Env, trace: Trace, b: BlockId, i: nat,
                                    p: seq<BlockId>)
    requires WellFormed(f) && SameShape(f, f') && SameValues(I, f, f') && IsPath(f, p) && Last(p) == b
    requires Find(f.blocks, b).Some? && Find(f'.blocks, b).Some? && i <= Len(f, b) == Len(f', b)
    requires Equations(I, f, env, b, i)
    ensures ExecAll(I, f.types, Find(f.blocks, b).value.insts[i..], env, trace)
         == ExecAll(I, f.types, Find(f'.blocks, b).value.insts[i..], env, trace)
    decreases Len(f, b) - i
  {
    var insts, insts' := Find(f.blocks, b).value.insts, Find(f'.blocks, b).value.insts;
    if i < |insts| {
      assert insts[i..][0] == InstOf(f, b, i) && insts[i..][1..] == insts[i + 1..];
      assert insts'[i..][0] == InstOf(f', b, i) && insts'[i..][1..] == insts'[i + 1..];
      assert SameResult(I, f.types, InstOf(f, b, i), InstOf(f', b, i), env);
      if !IsTerminator(InstOf(f, b, i)) {
        ExecKeepsEquations(I, f, env, trace, b, i, p);
        var (env', trace') := Exec(I, f.types, InstOf(f, b, i), env, trace);
        SameExec(I, f, f', env', trace', b, i + 1, p);
      }
    }
  }

  lemma {:induction false} SamePhis(insts: seq<Inst>, insts': seq<Inst>, pred: Option<BlockId>, env: Env)
    requires |insts| == |insts'| && forall k | 0 <= k < |insts| :: SameInst(insts[k], insts'[k])
    ensures PhiValues(insts, pred, env) == PhiValues(insts', pred, env)
  {
    if insts != [] {
      assert SameInst(insts[0], insts'[0]);
      forall k | 0 <= k < |insts| - 1 ensures SameInst(insts[1..][k], insts'[1..][k]) {
        assert SameInst(insts[k + 1], insts'[k + 1]);
      }
      SamePhis(insts[1..], insts'[1..], pred, env);
    }
  }

  /** One step of a run. */
  lemma SameRunStep(I: Interp, f: Func, f': Func, st: State, path: seq<BlockId>)
    requires WellFormed(f) && SameShape(f, f') && SameValues(I, f, f') && OnRun(I, f, st, path) && st.At?
    ensures Step(I, f, st) == Step(I, f', st)
  {
    SamePositions(f, f', st.block);
    if Find(f.blocks, st.block).Some? {
      var insts, insts' := Find(f.blocks, st.block).value.insts, Find(f'.blocks, st.block).value.insts;
      SamePhis(insts, insts', st.pred, st.env);
      BlockStart(I, f, st, path);
      assert insts[0..] == insts && insts'[0..] == insts';
      SameExec(I, f, f', st.env + PhiValues(insts, st.pred, st.env), st.trace, st.block, 0, path);
    }
  }

  /** Such a replacement leaves every run exactly as it was, environments included. */
  lemma {:induction false} SameRuns(I: Interp, f: Func, f': Func, env: Env, n: nat)
    requires WellFormed(f) && SameShape(f, f') && SameValues(I, f, f')
    ensures Run(I, f, Start(f, env), n) == Run(I, f', Start(f', env), n)
  {
    if n > 0 {
      SameRuns(I, f, f', env, n - 1);
      var path := EquationsHold(I, f, env, n - 1);
      SameNext(I, f, f', env, n - 1, path);
    }
  }

  lemma SameNext(I: Interp, f: Func, f': Func, env: Env, n: nat, path: seq<BlockId>)
    requires WellFormed(f) && SameShape(f, f') && SameValues(I, f, f')
    requires Run(I, f, Start(f, env), n) == Run(I, f', Start(f', env), n)
    requires OnRun(I, f, Run(I, f, Start(f, env), n), path)
    ensures Run(I, f, Start(f, env), n + 1) == Run(I, f', Start(f', env), n + 1)
  {
    var st := Run(I, f, Start(f, env), n);
    if st.At? { SameRunStep(I, f, f', st, path); }
  }

  // ----- what a pass has to show, position by position -----

  ghost predicate DefinedEarlier(f: Func, v: Value, a: BlockId, j: nat) {
    forall k: nat | DefAt(f, a, k, v) :: k < j
  }

  /** i' may stand for the instruction at (a, j): same definition, operands available there, and the
      same result wherever the defining equations hold. */
  ghost predicate Replaces(I: Interp, f: Func, a: BlockId, j: nat, i': Inst)
    requires HasInst(f, a, j)
  {
    && SameInst(InstOf(f, a, j), i') && FusedOk(i')
    && (forall v | v in Uses(i') :: DefDominates(f, v, a, j) && DefinedEarlier(f, v, a, j))
    && forall env | Equations(I, f, env, a, j) :: SameResult(I, f.types, InstOf(f, a, j), i', env)
  }

  ghost predicate ReplacedInsts(I: Interp, f: Func, a: BlockId, j: nat, insts': seq<Inst>) {
    forall k | 0 <= k < |insts'| :: HasInst(f, a, j + k) && Replaces(I, f, a, j + k, insts'[k])
  }

  ghost predicate ReplacedBlock(I: Interp, f: Func, b: Block, b': Block) {
    b' == b.(insts := b'.insts) && |b'.insts| == |b.insts| && ReplacedInsts(I, f, b.id, 0, b'.insts)
  }

  ghost predicate Rewritten(I: Interp, f: Func, f': Func) {
    && f'.entry == f.entry && f'.types == f.types && |f'.blocks| == |f.blocks|
    && forall k | 0 <= k < |f.blocks| :: ReplacedBlock(I, f, f.blocks[k], f'.blocks[k])
  }

  lemma RewrittenShape(I: Interp, f: Func, f': Func)
    requires WellFormed(f) && Rewritten(I, f, f')
    ensures SameShape(f, f')
  {
    forall k | 0 <= k < |f.blocks| ensures SameBlock(f.blocks[k], f'.blocks[k]) {
      assert ReplacedBlock(I, f, f.blocks[k], f'.blocks[k]);
      FindUnique(f.blocks, k);
      forall m | 0 <= m < |f.blocks[k].insts| ensures SameInst(f.blocks[k].insts[m], f'.blocks[k].insts[m]) {
        assert Replaces(I, f, f.blocks[k].id, 0 + m, f'.blocks[k].insts[m]);
      }
    }
  }

  lemma RewrittenAt(I: Interp, f: Func, f': Func, b: BlockId, i: nat)
    requires WellFormed(f) && Rewritten(I, f, f') && SameShape(f, f') && HasInst(f, b, i)
    ensures HasInst(f', b, i) && Replaces(I, f, b, i, InstOf(f', b, i))
  {
    var k :| 0 <= k < |f.blocks| && f.blocks[k] == Find(f.blocks, b).value;
    assert ReplacedBlock(I, f, f.blocks[k], f'.blocks[k]);
    forall x, y | 0 <= x < y < |f'.blocks| ensures f'.blocks[x].id != f'.blocks[y].id {
      assert SameBlock(f.blocks[x], f'.blocks[x]) && SameBlock(f.blocks[y], f'.blocks[y]);
    }
    FindUnique(f'.blocks, k);
    SamePositions(f, f', b);
    assert Replaces(I, f, b, 0 + i, f'.blocks[k].insts[i]);
  }

  /** Position-by-position replacement keeps well-formedness and every run, environments included. */
  lemma RewrittenIsEqual(I: Interp, f: Func, f': Func, env: Env, n: nat)
    requires WellFormed(f) && Rewritten(I, f, f')
    ensures WellFormed(f')
    ensures Run(I, f, Start(f, env), n) == Run(I, f', Start(f', env), n)
  {
    RewrittenShape(I, f, f');
    SameDom(f, f');
    forall b, i | HasInst(f', b, i) ensures HasInst(f, b, i) && Replaces(I, f, b, i, InstOf(f', b, i)) {
      SamePositions(f, f', b);
      RewrittenAt(I, f, f', b, i);
    }
    forall b, i, v | HasInst(f', b, i) && v in Uses(InstOf(f', b, i)) ensures DefDominates(f', v, b, i) {
      assert DefDominates(f, v, b, i);
      forall a, j | DefAt(f', a, j, v) ensures DomPoint(f', a, j, b, i) {
        SamePositions(f, f', a);
        assert DefAt(f, a, j, v);
      }
    }
    forall b, i, j, v | HasInst(f', b, i) && v in Uses(InstOf(f', b, i)) && DefAt(f', b, j, v) ensures j < i {
      SamePositions(f, f', b);
      assert DefinedEarlier(f, v, b, i) && DefAt(f, b, j, v);
    }
    ShapeKeepsWellFormed(f, f');
    SameRuns(I, f, f', env, n);
  }
}
