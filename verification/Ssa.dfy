/** Well-formed SSA: one definition per value, and every definition dominates its uses.
    The central fact, EquationsHold, says that on every run the defining equation of each pure
    operation holds at every point its definition dominates. */
module Ssa {
  import opened Types
  import opened Ir

  // ----- positions -----

  predicate HasInst(f: Func, b: BlockId, i: nat) {
    Find(f.blocks, b).Some? && i < |Find(f.blocks, b).value.insts|
  }

  function InstOf(f: Func, b: BlockId, i: nat): Inst
    requires HasInst(f, b, i)
  {
    Find(f.blocks, b).value.insts[i]
  }

  function Len(f: Func, b: BlockId): nat {
    if Find(f.blocks, b).Some? then |Find(f.blocks, b).value.insts| else 0
  }

  predicate DefAt(f: Func, b: BlockId, i: nat, v: Value) {
    HasInst(f, b, i) && Def(InstOf(f, b, i)) == Some(v)
  }

  predicate Edge(f: Func, p: BlockId, b: BlockId) {
    Find(f.blocks, p).Some? && b in Find(f.blocks, p).value.succs
  }

  function Ids(f: Func): set<BlockId> {
    set b | b in f.blocks :: b.id
  }

  lemma {:induction false} FindUnique(blocks: seq<Block>, k: nat)
    requires k < |blocks| && forall i, j | 0 <= i < j < |blocks| :: blocks[i].id != blocks[j].id
    ensures Find(blocks, blocks[k].id) == Some(blocks[k])
  {
    if k > 0 {
      assert blocks[0].id != blocks[k].id;
      FindUnique(blocks[1..], k - 1);
    }
  }

  lemma BlockFound(f: Func, b: Block)
    requires UniqueIds(f) && b in f.blocks
    ensures Find(f.blocks, b.id) == Some(b)
  {
    var k :| 0 <= k < |f.blocks| && f.blocks[k] == b;
    FindUnique(f.blocks, k);
  }

  // ----- paths and dominance -----

  ghost predicate IsPath(f: Func, p: seq<BlockId>) {
    |p| > 0 && p[0] == f.entry && forall k: nat {:trigger EdgeAt(f, p, k)} :: EdgeAt(f, p, k)
  }

  /** Step k of the path is along an edge. */
  predicate EdgeAt(f: Func, p: seq<BlockId>, k: nat) {
    0 < k < |p| ==> Edge(f, p[k - 1], p[k])
  }

  function Last(p: seq<BlockId>): BlockId
    requires |p| > 0
  {
    p[|p| - 1]
  }

  ghost predicate Reachable(f: Func, b: BlockId) {
    exists p :: IsPath(f, p) && Last(p) == b
  }

  /** Every path to b passes a before its end. */
  ghost predicate StrictDom(f: Func, a: BlockId, b: BlockId) {
    forall p :: IsPath(f, p) && Last(p) == b ==> a in p[..|p| - 1]
  }

  /** The instruction at (a, j) has run whenever control is before instruction i of b. */
  ghost predicate DomPoint(f: Func, a: BlockId, j: nat, b: BlockId, i: nat) {
    (a == b && j < i) || StrictDom(f, a, b)
  }

  lemma PathPrefix(f: Func, p: seq<BlockId>, k: nat)
    requires IsPath(f, p) && k < |p|
    ensures IsPath(f, p[..k + 1]) && Last(p[..k + 1]) == p[k]
  {
    var q := p[..k + 1];
    forall m: nat ensures EdgeAt(f, q, m) { assert EdgeAt(f, p, m); }
  }

  lemma PathExtend(f: Func, p: seq<BlockId>, b: BlockId)
    requires IsPath(f, p) && Edge(f, Last(p), b)
    ensures IsPath(f, p + [b]) && Last(p + [b]) == b && (p + [b])[..|p|] == p
  {
    var q := p + [b];
    forall m: nat ensures EdgeAt(f, q, m) { assert EdgeAt(f, p, m); }
  }

  /** Strict dominance is antisymmetric on reachable blocks: each passage through one block is
      preceded by a passage through the other, and a path has no room for that forever. */
  lemma {:induction false} NoMutualDom(f: Func, a: BlockId, b: BlockId, p: seq<BlockId>)
    requires IsPath(f, p) && Last(p) == b
    requires StrictDom(f, a, b) && StrictDom(f, b, a)
    ensures false
    decreases |p|
  {
    var k :| 0 <= k < |p| - 1 && p[k] == a;
    PathPrefix(f, p, k);
    NoMutualDom(f, b, a, p[..k + 1]);
  }

  lemma DomTransitive(f: Func, a: BlockId, j: nat, b: BlockId, i: nat, c: BlockId, k: nat)
    requires DomPoint(f, a, j, b, i) && DomPoint(f, b, i, c, k)
    ensures DomPoint(f, a, j, c, k)
  {
    if StrictDom(f, b, c) && a != b {
      forall p | IsPath(f, p) && Last(p) == c ensures a in p[..|p| - 1] {
        var m :| 0 <= m < |p| - 1 && p[m] == b;
        PathPrefix(f, p, m);
        assert a in p[..m + 1][..m];
      }
    }
  }

  /** What dominates the start of b dominates the end of each predecessor. */
  lemma DomAtEdge(f: Func, a: BlockId, j: nat, p: BlockId, b: BlockId)
    requires Edge(f, p, b) && StrictDom(f, a, b)
    requires j < Len(f, a)
    ensures DomPoint(f, a, j, p, Len(f, p))
  {
    if a != p {
      forall q | IsPath(f, q) && Last(q) == p ensures a in q[..|q| - 1] {
        var q' := q + [b];
        PathExtend(f, q, b);
        assert a in q'[..|q'| - 1];
        assert q'[..|q'| - 1] == q;
      }
    }
  }

  // ----- well-formedness -----

  ghost predicate UniqueIds(f: Func) {
    forall i, j | 0 <= i < j < |f.blocks| :: f.blocks[i].id != f.blocks[j].id
  }

  ghost predicate UniqueDefs(f: Func) {
    forall v, a, i, b, j {:trigger DefAt(f, a, i, v), DefAt(f, b, j, v)} ::
      DefAt(f, a, i, v) && DefAt(f, b, j, v) ==> a == b && i == j
  }

  function Leaves(e: FusedExpr): set<Value> {
    match e
    case Input(v) => {v}
    case Scalar(v) => {v}
    case Apply(_, l, r) => Leaves(l) + Leaves(r)
  }

  predicate FusedOk(i: Inst) {
    i.TensorFused? ==> forall v | v in Leaves(i.expr) :: v in i.inputs
  }

  /** Fused kernels list every value their expression reads. */
  ghost predicate FusedListed(f: Func) {
    forall b, i | HasInst(f, b, i) :: FusedOk(InstOf(f, b, i))
  }

  predicate JumpsAlongEdges(f: Func, b: BlockId, i: Inst) {
    && (i.Jump? ==> Edge(f, b, i.target))
    && (i.Branch? ==> Edge(f, b, i.onTrue) && Edge(f, b, i.onFalse))
  }

  /** Terminators come last and jump along the recorded edges. */
  ghost predicate ControlOk(f: Func) {
    forall b, i: nat | HasInst(f, b, i) ::
      && (IsTerminator(InstOf(f, b, i)) ==> i + 1 == Len(f, b))
      && JumpsAlongEdges(f, b, InstOf(f, b, i))
  }

  ghost predicate PhisFirst(f: Func) {
    forall b, i, j {:trigger InstOf(f, b, i), InstOf(f, b, j)} ::
      i < j && HasInst(f, b, i) && HasInst(f, b, j) && InstOf(f, b, j).Phi? ==> InstOf(f, b, i).Phi?
  }

  ghost predicate PredsMatch(f: Func) {
    forall b, p {:trigger Edge(f, p, b)} ::
      Find(f.blocks, b).Some? ==> (Edge(f, p, b) <==> p in Find(f.blocks, b).value.preds)
  }

  ghost predicate PhiKeysArePreds(f: Func) {
    forall b, i | HasInst(f, b, i) && InstOf(f, b, i).Phi? ::
      InstOf(f, b, i).operands.Keys == set p | p in Find(f.blocks, b).value.preds
  }

  /** The definition of v, if it has one, has run before point (b, i). */
  ghost predicate DefDominates(f: Func, v: Value, b: BlockId, i: nat) {
    forall a, j | DefAt(f, a, j, v) :: DomPoint(f, a, j, b, i)
  }

  ghost predicate UsesDominated(f: Func) {
    forall b, i, v | HasInst(f, b, i) && v in Uses(InstOf(f, b, i)) :: DefDominates(f, v, b, i)
  }

  /** Inside a block, non-phi uses come after the definition. */
  ghost predicate LocalOrder(f: Func) {
    forall b, i, j, v {:trigger DefAt(f, b, j, v), InstOf(f, b, i)} ::
      HasInst(f, b, i) && v in Uses(InstOf(f, b, i)) && DefAt(f, b, j, v) ==> j < i
  }

  ghost predicate PhiInputsDominated(f: Func) {
    forall b, i, p | HasInst(f, b, i) && InstOf(f, b, i).Phi? && p in InstOf(f, b, i).operands ::
      DefDominates(f, InstOf(f, b, i).operands[p], p, Len(f, p))
  }

  ghost predicate WellFormed(f: Func) {
    && UniqueIds(f) && UniqueDefs(f) && FusedListed(f) && ControlOk(f)
    && PhisFirst(f) && PredsMatch(f) && PhiKeysArePreds(f)
    && UsesDominated(f) && LocalOrder(f) && PhiInputsDominated(f)
  }

  // ----- frames -----

  /** Entering a block without phis changes nothing. */
  lemma {:induction false} NoPhiValues(insts: seq<Inst>, pred: Option<BlockId>, env: Env)
    requires forall i | i in insts :: !i.Phi?
    ensures env + PhiValues(insts, pred, env) == env
  {
    if insts != [] { NoPhiValues(insts[1..], pred, env); }
  }

  lemma FusedElemFrame(I: Interp, env: Env, env': Env, e: FusedExpr, k: nat)
    requires forall v | v in Leaves(e) :: Get(env, v) == Get(env', v)
    ensures FusedElem(I, env, e, k) == FusedElem(I, env', e, k)
  {
  }

  lemma FusedLengthFrame(types: map<Value, Type>, env: Env, env': Env, inputs: seq<Value>)
    requires forall v | v in inputs :: Get(env, v) == Get(env', v)
    ensures FusedLength(types, env, inputs) == FusedLength(types, env', inputs)
  {
  }

  /** An instruction reads its listed operands and nothing else. */
  lemma EvalFrame(I: Interp, types: map<Value, Type>, i: Inst, env: Env, env': Env)
    requires IsPureOp(i) && FusedOk(i)
    requires forall v | v in Uses(i) :: Get(env, v) == Get(env', v)
    ensures Eval(I, types, i, env) == Eval(I, types, i, env')
  {
    match i
    case Arith(_, _, l, r) => assert l in Uses(i) && r in Uses(i);
    case Neg(_, s) => assert s in Uses(i);
    case Cmp(_, _, l, r) => assert l in Uses(i) && r in Uses(i);
    case Assign(_, s) => assert s in Uses(i);
    case TensorBin(_, _, l, r) => assert l in Uses(i) && r in Uses(i);
    case TensorScalar(_, _, l, r) => assert l in Uses(i) && r in Uses(i);
    case TensorFused(_, inputs, e) =>
      FusedLengthFrame(types, env, env', inputs);
      var n := FusedLength(types, env, inputs);
      forall k | 0 <= k < n ensures FusedElem(I, env, e, k) == FusedElem(I, env', e, k) {
        FusedElemFrame(I, env, env', e, k);
      }
      assert seq(n, k requires 0 <= k < n => FusedElem(I, env, e, k))
          == seq(n, k requires 0 <= k < n => FusedElem(I, env', e, k));
    case Pure(_, _, args) => assert GetAll(env, args) == GetAll(env', args);
    case _ =>
  }

  lemma ExecChangesOnlyDef(I: Interp, types: map<Value, Type>, i: Inst, env: Env, trace: Trace, v: Value)
    requires !IsTerminator(i) && Def(i) != Some(v)
    ensures Get(Exec(I, types, i, env, trace).0, v) == Get(env, v)
  {
  }

  lemma PhiValuesDomain(insts: seq<Inst>, pred: Option<BlockId>, env: Env, v: Value)
    ensures v in PhiValues(insts, pred, env) <==> exists k :: 0 <= k < |insts| && insts[k].Phi? && insts[k].d == v
  {
    if insts != [] {
      PhiValuesDomain(insts[1..], pred, env, v);
      if exists k :: 0 <= k < |insts| && insts[k].Phi? && insts[k].d == v {
        var k :| 0 <= k < |insts| && insts[k].Phi? && insts[k].d == v;
        if k > 0 { assert insts[1..][k - 1] == insts[k]; }
      }
      if v in PhiValues(insts[1..], pred, env) {
        var k :| 0 <= k < |insts[1..]| && insts[1..][k].Phi? && insts[1..][k].d == v;
        assert insts[k + 1].Phi?;
      }
    }
  }

  /** A phi defined once in its block gets its operand for the incoming edge. */
  lemma {:induction false} PhiValueAt(insts: seq<Inst>, k: nat, pred: Option<BlockId>, env: Env)
    requires k < |insts| && insts[k].Phi?
    requires forall m | 0 <= m < |insts| && insts[m].Phi? && insts[m].d == insts[k].d :: m == k
    ensures insts[k].d in PhiValues(insts, pred, env)
    ensures PhiValues(insts, pred, env)[insts[k].d] == PhiInput(insts[k], pred, env)
  {
    if k > 0 {
      PhiValueAt(insts[1..], k - 1, pred, env);
    } else {
      var d := insts[0].d;
      PhiValuesDomain(insts[1..], pred, env, d);
      forall m | 0 <= m < |insts[1..]| ensures !(insts[1..][m].Phi? && insts[1..][m].d == d) {
        assert insts[1..][m] == insts[m + 1];
      }
    }
  }

  // ----- the defining equations along a run -----

  ghost predicate EquationAt(I: Interp, f: Func, env: Env, a: BlockId, j: nat)
    requires HasInst(f, a, j) && IsPureOp(InstOf(f, a, j))
  {
    Get(env, InstOf(f, a, j).d) == Eval(I, f.types, InstOf(f, a, j), env)
  }

  /** At point (b, i) each dominating pure definition v := op(args) still satisfies env[v] == op(env[args]). */
  ghost predicate Equations(I: Interp, f: Func, env: Env, b: BlockId, i: nat) {
    forall a, j | HasInst(f, a, j) && IsPureOp(InstOf(f, a, j)) && DomPoint(f, a, j, b, i) ::
      EquationAt(I, f, env, a, j)
  }

  /** No instruction that dominates a point reads a value defined at or after that point. */
  lemma OperandsSettled(f: Func, a: BlockId, j: nat, b: BlockId, i: nat, v: Value, p: seq<BlockId>)
    requires UsesDominated(f) && IsPath(f, p) && Last(p) == b
    requires HasInst(f, a, j) && v in Uses(InstOf(f, a, j))
    requires DefAt(f, b, i, v)
    requires DomPoint(f, a, j, b, i)
    ensures false
  {
    assert DomPoint(f, b, i, a, j);
    if StrictDom(f, a, b) {
      if StrictDom(f, b, a) { NoMutualDom(f, a, b, p); } else { NoMutualDom(f, b, b, p); }
    } else {
      NoMutualDom(f, b, b, p);
    }
  }

  /** Executing one instruction keeps the equations and adds its own. */
  lemma ExecKeepsEquations(I: Interp, f: Func, env: Env, trace: Trace, b: BlockId, i: nat, p: seq<BlockId>)
    requires WellFormed(f) && IsPath(f, p) && Last(p) == b
    requires HasInst(f, b, i) && !IsTerminator(InstOf(f, b, i))
    requires Equations(I, f, env, b, i)
    ensures Equations(I, f, Exec(I, f.types, InstOf(f, b, i), env, trace).0, b, i + 1)
  {
    var inst := InstOf(f, b, i);
    var env' := Exec(I, f.types, inst, env, trace).0;
    forall a, j | HasInst(f, a, j) && IsPureOp(InstOf(f, a, j)) && DomPoint(f, a, j, b, i + 1)
      ensures EquationAt(I, f, env', a, j)
    {
      var def := InstOf(f, a, j);
      assert FusedOk(def);
      if a == b && j == i {
        assert DefAt(f, b, i, def.d);
        assert def.d !in Uses(def);
        EvalFrame(I, f.types, def, env, env');
      } else {
        assert DomPoint(f, a, j, b, i) && EquationAt(I, f, env, a, j);
        assert DefAt(f, a, j, def.d);
        if Def(inst) == Some(def.d) { assert DefAt(f, b, i, def.d); }
        ExecChangesOnlyDef(I, f.types, inst, env, trace, def.d);
        forall v | v in Uses(def) ensures Get(env, v) == Get(env', v) {
          if Def(inst) == Some(v) {
            assert DefAt(f, b, i, v);
            OperandsSettled(f, a, j, b, i, v, p);
          }
          ExecChangesOnlyDef(I, f.types, inst, env, trace, v);
        }
        EvalFrame(I, f.types, def, env, env');
      }
    }
  }

  /** Taking an edge, with all phis of the target set at once, keeps the equations that still dominate. */
  lemma EdgeKeepsEquations(I: Interp, f: Func, env: Env, p: BlockId, b: BlockId, path: seq<BlockId>)
    requires WellFormed(f) && IsPath(f, path) && Last(path) == b
    requires Edge(f, p, b) && Find(f.blocks, b).Some?
    requires Equations(I, f, env, p, Len(f, p))
    ensures Equations(I, f, env + PhiValues(Find(f.blocks, b).value.insts, Some(p), env), b, 0)
  {
    var insts := Find(f.blocks, b).value.insts;
    var env' := env + PhiValues(insts, Some(p), env);
    forall a, j | HasInst(f, a, j) && IsPureOp(InstOf(f, a, j)) && DomPoint(f, a, j, b, 0)
      ensures EquationAt(I, f, env', a, j)
    {
      var def := InstOf(f, a, j);
      assert StrictDom(f, a, b);
      DomAtEdge(f, a, j, p, b);
      assert EquationAt(I, f, env, a, j);
      assert FusedOk(def);
      forall v | v in Uses(def) || v == def.d ensures Get(env, v) == Get(env', v) {
        PhiValuesDomain(insts, Some(p), env, v);
        if v in PhiValues(insts, Some(p), env) {
          var k :| 0 <= k < |insts| && insts[k].Phi? && insts[k].d == v;
          assert DefAt(f, b, k, v);
          if v == def.d {
            assert DefAt(f, a, j, v);
          } else {
            OperandsSettled(f, a, j, b, k, v, path);
          }
        }
      }
      EvalFrame(I, f.types, def, env, env');
    }
  }

  // ----- runs -----

  /** A state a run of f can be in: at the end of p's path with the equations of its last block. */
  ghost predicate OnRun(I: Interp, f: Func, st: State, path: seq<BlockId>) {
    st.At? ==>
      && IsPath(f, path) && Last(path) == st.block
      && (if |path| == 1 then st.pred == None
          else st.pred == Some(path[|path| - 2]) && Equations(I, f, st.env, path[|path| - 2], Len(f, path[|path| - 2])))
  }

  lemma EntryEquations(I: Interp, f: Func, env: Env)
    ensures Equations(I, f, env, f.entry, 0)
  {
    assert IsPath(f, [f.entry]) && Last([f.entry]) == f.entry;
  }

  /** The equations where a block starts running. */
  lemma BlockStart(I: Interp, f: Func, st: State, path: seq<BlockId>)
    requires WellFormed(f) && OnRun(I, f, st, path) && st.At? && Find(f.blocks, st.block).Some?
    ensures Equations(I, f, st.env + PhiValues(Find(f.blocks, st.block).value.insts, st.pred, st.env), st.block, 0)
  {
    if |path| == 1 {
      EntryEquations(I, f, st.env + PhiValues(Find(f.blocks, st.block).value.insts, st.pred, st.env));
    } else {
      assert EdgeAt(f, path, |path| - 1);
      EdgeKeepsEquations(I, f, st.env, path[|path| - 2], st.block, path);
    }
  }

  /** Running the rest of a block keeps the equations up to the jump out of it. */
  lemma {:induction false} BlockKeepsEquations(I: Interp, f: Func, env: Env, trace: Trace, b: BlockId, i: nat,
                                               p: seq<BlockId>)
    requires WellFormed(f) && IsPath(f, p) && Last(p) == b
    requires Find(f.blocks, b).Some? && i <= Len(f, b)
    requires Equations(I, f, env, b, i)
    ensures var out := ExecAll(I, f.types, Find(f.blocks, b).value.insts[i..], env, trace);
            out.Goto? ==> Edge(f, b, out.target) && Equations(I, f, out.env, b, Len(f, b))
    decreases Len(f, b) - i
  {
    var insts := Find(f.blocks, b).value.insts;
    if i < |insts| {
      assert insts[i..][0] == InstOf(f, b, i) && insts[i..][1..] == insts[i + 1..];
      if IsTerminator(InstOf(f, b, i)) {
        assert JumpsAlongEdges(f, b, InstOf(f, b, i));
        TerminatorKeepsEquations(I, f, env, b, i);
      } else {
        ExecKeepsEquations(I, f, env, trace, b, i, p);
        var (env', trace') := Exec(I, f.types, InstOf(f, b, i), env, trace);
        BlockKeepsEquations(I, f, env', trace', b, i + 1, p);
      }
    }
  }

  lemma TerminatorKeepsEquations(I: Interp, f: Func, env: Env, b: BlockId, i: nat)
    requires HasInst(f, b, i) && IsTerminator(InstOf(f, b, i)) && i + 1 == Len(f, b)
    requires Equations(I, f, env, b, i)
    ensures Equations(I, f, env, b, Len(f, b))
  {
    forall a, j | HasInst(f, a, j) && IsPureOp(InstOf(f, a, j)) && DomPoint(f, a, j, b, i + 1)
      ensures EquationAt(I, f, env, a, j)
    {
      assert DomPoint(f, a, j, b, i);
    }
  }

  lemma StepOnRun(I: Interp, f: Func, st: State, path: seq<BlockId>) returns (path': seq<BlockId>)
    requires WellFormed(f) && OnRun(I, f, st, path)
    ensures OnRun(I, f, Step(I, f, st), path')
    ensures st.At? && Step(I, f, st).At? ==> path' == path + [Step(I, f, st).block]
  {
    path' := path;
    if st.At? && Find(f.blocks, st.block).Some? {
      var insts := Find(f.blocks, st.block).value.insts;
      var env := st.env + PhiValues(insts, st.pred, st.env);
      BlockStart(I, f, st, path);
      BlockKeepsEquations(I, f, env, st.trace, st.block, 0, path);
      assert insts[0..] == insts;
      if Step(I, f, st).At? {
        PathExtend(f, path, Step(I, f, st).block);
        path' := path + [Step(I, f, st).block];
        assert path'[|path'| - 2] == st.block;
      }
    }
  }

  /** The defining equations hold on every run of every well-formed function. */
  lemma {:induction false} EquationsHold(I: Interp, f: Func, env: Env, n: nat) returns (path: seq<BlockId>)
    requires WellFormed(f)
    ensures OnRun(I, f, Run(I, f, Start(f, env), n), path)
  {
    if n == 0 {
      path := [f.entry];
    } else {
      path := EquationsHold(I, f, env, n - 1);
      path := StepOnRun(I, f, Run(I, f, Start(f, env), n - 1), path);
    }
  }
}
