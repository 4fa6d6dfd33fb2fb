/** Tensor kernel fusion (optimization/fusion.rs). */
module Fusion {
  import opened Types
  import opened Ir
  import opened Ssa
  import opened Rewrite
  import Dce

  type DefMap = map<Value, Inst>
  type Counts = map<Value, nat>

  // ----- use counts, phis not counted -----

  function UsesIn(insts: seq<Inst>, v: Value): nat {
    if insts == [] then 0 else multiset(Uses(insts[0]))[v] + UsesIn(insts[1..], v)
  }

  function UseCount(blocks: seq<Block>, v: Value): nat {
    if blocks == [] then 0 else UsesIn(blocks[0].insts, v) + UseCount(blocks[1..], v)
  }

  function Count(counts: Counts, v: Value): nat {
    if v in counts then counts[v] else 0
  }

  method CountOperands(counts: Counts, uses: seq<Value>) returns (counts': Counts)
    ensures forall v :: Count(counts', v) == Count(counts, v) + multiset(uses)[v]
  {
    counts' := counts;
    for m := 0 to |uses|
      invariant forall v :: Count(counts', v) == Count(counts, v) + multiset(uses[..m])[v]
    {
      assert uses[..m + 1] == uses[..m] + [uses[m]];
      counts' := counts'[uses[m] := Count(counts', uses[m]) + 1];
    }
    assert uses[..|uses|] == uses;
  }

  method CountInsts(counts: Counts, insts: seq<Inst>) returns (counts': Counts)
    ensures forall v :: Count(counts', v) == Count(counts, v) + UsesIn(insts, v)
  {
    counts' := counts;
    assert insts[0..] == insts;
    for j := 0 to |insts|
      invariant forall v :: Count(counts', v) + UsesIn(insts[j..], v) == Count(counts, v) + UsesIn(insts, v)
    {
      assert insts[j..][0] == insts[j] && insts[j..][1..] == insts[j + 1..];
      counts' := CountOperands(counts', Uses(insts[j]));
    }
  }

  method CountUses(blocks: seq<Block>) returns (counts: Counts)
    ensures forall v :: Count(counts, v) == UseCount(blocks, v)
  {
    counts := map[];
    assert blocks[0..] == blocks;
    for k := 0 to |blocks|
      invariant forall v :: Count(counts, v) + UseCount(blocks[k..], v) == UseCount(blocks, v)
    {
      assert blocks[k..][0] == blocks[k] && blocks[k..][1..] == blocks[k + 1..];
      counts := CountInsts(counts, blocks[k].insts);
    }
  }

  // ----- input lists -----

  function LeafSeq(e: FusedExpr): seq<Value> {
    match e
    case Input(v) => [v]
    case Scalar(v) => [v]
    case Apply(_, l, r) => LeafSeq(l) + LeafSeq(r)
  }

  /** Pushes each value the list does not hold yet. */
  function PushAll(inputs: seq<Value>, vs: seq<Value>): seq<Value>
    decreases vs
  {
    if vs == [] then inputs
    else PushAll(if vs[0] in inputs then inputs else inputs + [vs[0]], vs[1..])
  }

  /** The leaves of an expression in first-occurrence order, without duplicates. */
  function InputList(e: FusedExpr): seq<Value> {
    PushAll([], LeafSeq(e))
  }

  lemma {:induction false} PushAllAppend(xs: seq<Value>, ys: seq<Value>, zs: seq<Value>)
    ensures PushAll(xs, ys + zs) == PushAll(PushAll(xs, ys), zs)
    decreases ys
  {
    if ys == [] {
      assert ys + zs == zs;
    } else {
      assert (ys + zs)[1..] == ys[1..] + zs;
      PushAllAppend(if ys[0] in xs then xs else xs + [ys[0]], ys[1..], zs);
    }
  }

  lemma {:induction false} PushAllMembers(xs: seq<Value>, ys: seq<Value>)
    ensures forall v :: v in PushAll(xs, ys) <==> v in xs || v in ys
    ensures xs <= PushAll(xs, ys)
    ensures (forall i, j | 0 <= i < j < |xs| :: xs[i] != xs[j]) ==>
              forall i, j | 0 <= i < j < |PushAll(xs, ys)| :: PushAll(xs, ys)[i] != PushAll(xs, ys)[j]
    decreases ys
  {
    if ys != [] {
      var xs' := if ys[0] in xs then xs else xs + [ys[0]];
      PushAllMembers(xs', ys[1..]);
      assert ys == [ys[0]] + ys[1..];
    }
  }

  /** Pushing a list with its duplicates removed is pushing the list. */
  lemma {:induction false} PushAllTwice(xs: seq<Value>, acc: seq<Value>, ys: seq<Value>)
    ensures PushAll(xs, PushAll(acc, ys)) == PushAll(PushAll(xs, acc), ys)
    decreases ys
  {
    if ys != [] {
      PushAllMembers(xs, acc);
      if ys[0] in acc {
        PushAllTwice(xs, acc, ys[1..]);
      } else {
        PushAllTwice(xs, acc + [ys[0]], ys[1..]);
        PushAllAppend(xs, acc, [ys[0]]);
        var p := PushAll(xs, acc);
        assert PushAll(p, [ys[0]]) == if ys[0] in p then p else p + [ys[0]];
      }
    }
  }

  lemma LeafSeqMembers(e: FusedExpr)
    ensures LeafSeq(e) != []
    ensures forall v :: v in LeafSeq(e) <==> v in Leaves(e)
  {
  }

  // ----- what the pass produces -----

  predicate FuseKind(i: Inst) {
    i.TensorBin? || i.TensorScalar? || i.TensorFused?
  }

  /** should_fuse: defined earlier in this block by a tensor operation, and read once. */
  predicate Absorbable(v: Value, defs: DefMap, counts: Counts) {
    v in defs && Count(counts, v) == 1 && FuseKind(defs[v])
  }

  function Leaf(types: map<Value, Type>, v: Value): FusedExpr {
    if TensorTyped(types, v) then Input(v) else Scalar(v)
  }

  /** e is what v expands to: absorbable definitions unfolded, other values as leaves. */
  predicate Expands(defs: DefMap, counts: Counts, types: map<Value, Type>, v: Value, e: FusedExpr)
    decreases e
  {
    if Absorbable(v, defs, counts) then
      var i := defs[v];
      if i.TensorFused? then e == i.expr
      else
        && e.Apply? && e.op == i.top
        && Expands(defs, counts, types, i.l, e.l) && Expands(defs, counts, types, i.r, e.r)
    else e == Leaf(types, v)
  }

  predicate Candidate(i: Inst, defs: DefMap, counts: Counts) {
    (i.TensorBin? || i.TensorScalar?) && (Absorbable(i.l, defs, counts) || Absorbable(i.r, defs, counts))
  }

  predicate FuseStep(defs: DefMap, counts: Counts, types: map<Value, Type>, i: Inst, i': Inst) {
    if Candidate(i, defs, counts) then
      && i'.TensorFused? && i'.d == i.d && i'.inputs == InputList(i'.expr)
      && i'.expr.Apply? && i'.expr.op == i.top
      && Expands(defs, counts, types, i.l, i'.expr.l) && Expands(defs, counts, types, i.r, i'.expr.r)
    else i' == i
  }

  /** The map from defined values to their instructions, later ones winning. */
  function DefsOf(insts: seq<Inst>): DefMap {
    if insts == [] then map[]
    else
      var m := DefsOf(insts[..|insts| - 1]);
      var i := insts[|insts| - 1];
      if Def(i).Some? then m[Def(i).value := i] else m
  }

  /** Instruction k was rewritten under the map of the rewritten instructions before it. */
  predicate StepAt(counts: Counts, types: map<Value, Type>, insts: seq<Inst>, insts': seq<Inst>, k: nat)
    requires k < |insts| && k < |insts'|
  {
    FuseStep(DefsOf(insts'[..k]), counts, types, insts[k], insts'[k])
  }

  predicate FusedInsts(counts: Counts, types: map<Value, Type>, insts: seq<Inst>, insts': seq<Inst>) {
    |insts'| == |insts| && forall k | 0 <= k < |insts| :: StepAt(counts, types, insts, insts', k)
  }

  predicate FusedBlock(counts: Counts, types: map<Value, Type>, b: Block, b': Block) {
    b' == b.(insts := b'.insts) && FusedInsts(counts, types, b.insts, b'.insts)
  }

  ghost predicate CountsOf(f: Func, counts: Counts) {
    forall v :: Count(counts, v) == UseCount(f.blocks, v)
  }

  /** f' is f with its kernels fused, use counts taken once from f. */
  ghost predicate Fused(f: Func, f': Func) {
    && f'.entry == f.entry && f'.types == f.types && |f'.blocks| == |f.blocks|
    && exists counts ::
         && CountsOf(f, counts)
         && forall k | 0 <= k < |f.blocks| :: FusedBlock(counts, f.types, f.blocks[k], f'.blocks[k])
  }

  // ----- the pass -----

  /** Uses follow definitions and no value is defined twice. */
  ghost predicate InOrder(insts: seq<Inst>) {
    && (forall i, j, v | 0 <= i < |insts| && 0 <= j < |insts| && Def(insts[j]) == Some(v) && v in Uses(insts[i]) ::
          j < i)
    && (forall i, j | 0 <= i < |insts| && 0 <= j < |insts| && Def(insts[i]).Some? && Def(insts[i]) == Def(insts[j]) ::
          i == j)
  }

  predicate Canonical(i: Inst) {
    i.TensorFused? ==> i.inputs == InputList(i.expr)
  }

  /** Every entry of the map sits at a position, after the positions of what it reads. */
  ghost predicate Ranked(defs: DefMap, pos: map<Value, nat>) {
    && defs.Keys <= pos.Keys
    && forall v, u | v in defs && u in Uses(defs[v]) && u in defs :: pos[u] < pos[v]
  }

  /** What the map holds comes from the first j instructions, and so does everything it reads. */
  ghost predicate Traced(insts: seq<Inst>, j: nat, defs: DefMap, pos: map<Value, nat>)
    requires j <= |insts|
  {
    forall v | v in defs ::
      && v in pos && pos[v] < j && Def(insts[pos[v]]) == Some(v)
      && Canonical(defs[v])
      && forall u | u in Uses(defs[v]) :: exists m :: 0 <= m <= pos[v] && u in Uses(insts[m])
  }

  method GetFusedExpr(v: Value, defs: DefMap, counts: Counts, types: map<Value, Type>, inputs: seq<Value>,
                      ghost pos: map<Value, nat>)
    returns (e: FusedExpr, inputs': seq<Value>)
    requires Ranked(defs, pos) && forall u | u in defs :: Canonical(defs[u])
    ensures Expands(defs, counts, types, v, e)
    ensures inputs' == PushAll(inputs, LeafSeq(e))
    decreases if v in defs then pos[v] + 1 else 0
  {
    if v in defs && Count(counts, v) == 1 {
      var i := defs[v];
      if i.TensorBin? || i.TensorScalar? {
        assert i.l in Uses(i) && i.r in Uses(i);
        var left, afterLeft := GetFusedExpr(i.l, defs, counts, types, inputs, pos);
        var right, afterRight := GetFusedExpr(i.r, defs, counts, types, afterLeft, pos);
        PushAllAppend(inputs, LeafSeq(left), LeafSeq(right));
        return Apply(i.top, left, right), afterRight;
      } else if i.TensorFused? {
        inputs' := inputs;
        for k := 0 to |i.inputs|
          invariant inputs' == PushAll(inputs, i.inputs[..k])
        {
          assert i.inputs[..k + 1] == i.inputs[..k] + [i.inputs[k]];
          PushAllAppend(inputs, i.inputs[..k], [i.inputs[k]]);
          if i.inputs[k] !in inputs' {
            inputs' := inputs' + [i.inputs[k]];
          }
        }
        assert i.inputs[..|i.inputs|] == i.inputs;
        PushAllTwice(inputs, [], LeafSeq(i.expr));
        return i.expr, inputs';
      }
    }
    inputs' := if v in inputs then inputs else inputs + [v];
    e := if TensorTyped(types, v) then Input(v) else Scalar(v);
  }

  lemma {:induction false} ExpandsLeaves(insts: seq<Inst>, j: nat, defs: DefMap, pos: map<Value, nat>, counts: Counts,
                                         types: map<Value, Type>, v: Value, e: FusedExpr, u: Value)
    requires j < |insts| && Traced(insts, j, defs, pos)
    requires Expands(defs, counts, types, v, e) && u in Leaves(e)
    requires exists m :: 0 <= m <= j && v in Uses(insts[m])
    ensures exists m :: 0 <= m <= j && u in Uses(insts[m])
    decreases e
  {
    if Absorbable(v, defs, counts) {
      var i := defs[v];
      if i.TensorFused? {
        LeafSeqMembers(e);
        PushAllMembers([], LeafSeq(e));
        assert u in Uses(i);
      } else {
        assert i.l in Uses(i) && i.r in Uses(i);
        if u in Leaves(e.l) {
          ExpandsLeaves(insts, j, defs, pos, counts, types, i.l, e.l, u);
        } else {
          ExpandsLeaves(insts, j, defs, pos, counts, types, i.r, e.r, u);
        }
      }
    }
  }

  lemma StepUses(insts: seq<Inst>, j: nat, defs: DefMap, pos: map<Value, nat>, counts: Counts, types: map<Value, Type>,
                 i': Inst)
    requires j < |insts| && Traced(insts, j, defs, pos) && FuseStep(defs, counts, types, insts[j], i')
    ensures Def(i') == Def(insts[j])
    ensures forall u | u in Uses(i') :: exists m :: 0 <= m <= j && u in Uses(insts[m])
  {
    var i := insts[j];
    if Candidate(i, defs, counts) {
      LeafSeqMembers(i'.expr);
      PushAllMembers([], LeafSeq(i'.expr));
      assert i.l in Uses(i) && i.r in Uses(i);
      forall u | u in Uses(i') ensures exists m :: 0 <= m <= j && u in Uses(insts[m]) {
        if u in Leaves(i'.expr.l) {
          ExpandsLeaves(insts, j, defs, pos, counts, types, i.l, i'.expr.l, u);
        } else {
          ExpandsLeaves(insts, j, defs, pos, counts, types, i.r, i'.expr.r, u);
        }
      }
    }
  }

  /** Recording an instruction keeps the map ranked: nothing before it read what it defines. */
  lemma RecordKeepsRank(insts: seq<Inst>, j: nat, defs: DefMap, pos: map<Value, nat>, i': Inst, d: Value)
    requires j < |insts| && InOrder(insts) && Ranked(defs, pos) && Traced(insts, j, defs, pos)
    requires Def(i') == Def(insts[j]) == Some(d) && Canonical(i')
    requires forall u | u in Uses(i') :: exists m :: 0 <= m <= j && u in Uses(insts[m])
    ensures Ranked(defs[d := i'], pos[d := j]) && Traced(insts, j + 1, defs[d := i'], pos[d := j])
  {
    assert forall m | 0 <= m <= j :: d !in Uses(insts[m]);
    assert d !in Uses(i');
    assert forall v | v in defs :: d !in Uses(defs[v]);
  }

  method FuseInst(inst: Inst, defs: DefMap, counts: Counts, types: map<Value, Type>, ghost pos: map<Value, nat>)
    returns (inst': Inst)
    requires Ranked(defs, pos) && forall u | u in defs :: Canonical(defs[u])
    ensures FuseStep(defs, counts, types, inst, inst')
  {
    inst' := inst;
    if (inst.TensorBin? || inst.TensorScalar?)
       && (Absorbable(inst.l, defs, counts) || Absorbable(inst.r, defs, counts)) {
      var left, afterLeft := GetFusedExpr(inst.l, defs, counts, types, [], pos);
      var right, inputs := GetFusedExpr(inst.r, defs, counts, types, afterLeft, pos);
      PushAllAppend([], LeafSeq(left), LeafSeq(right));
      inst' := TensorFused(inst.d, inputs, Apply(inst.top, left, right));
    }
  }

  method FuseBlock(insts: seq<Inst>, counts: Counts, types: map<Value, Type>) returns (insts': seq<Inst>)
    requires InOrder(insts) && forall i | i in insts :: Canonical(i)
    ensures FusedInsts(counts, types, insts, insts')
  {
    var defs: DefMap := map[];
    ghost var pos: map<Value, nat> := map[];
    insts' := [];
    for j := 0 to |insts|
      invariant |insts'| == j && defs == DefsOf(insts')
      invariant forall k | 0 <= k < j :: StepAt(counts, types, insts, insts', k)
      invariant Ranked(defs, pos) && Traced(insts, j, defs, pos)
    {
      var inst := FuseInst(insts[j], defs, counts, types, pos);
      assert insts[j] in insts;
      StepUses(insts, j, defs, pos, counts, types, inst);
      if Def(inst).Some? {
        RecordKeepsRank(insts, j, defs, pos, inst, Def(inst).value);
        defs := defs[Def(inst).value := inst];
        pos := pos[Def(inst).value := j];
      }
      AppendStep(counts, types, insts, insts', inst);
      insts' := insts' + [inst];
    }
  }

  lemma AppendStep(counts: Counts, types: map<Value, Type>, insts: seq<Inst>, done: seq<Inst>, i': Inst)
    requires |done| < |insts| && FuseStep(DefsOf(done), counts, types, insts[|done|], i')
    requires forall k | 0 <= k < |done| :: StepAt(counts, types, insts, done, k)
    ensures forall k | 0 <= k <= |done| :: StepAt(counts, types, insts, done + [i'], k)
    ensures DefsOf(done + [i']) == if Def(i').Some? then DefsOf(done)[Def(i').value := i'] else DefsOf(done)
  {
    assert (done + [i'])[..|done|] == done;
    forall k | 0 <= k <= |done| ensures StepAt(counts, types, insts, done + [i'], k) {
      assert (done + [i'])[..k] == done[..k];
      if k < |done| { assert StepAt(counts, types, insts, done, k); }
    }
  }

  method FuseTensorKernels(func: Function)
    requires forall b | b in func.blocks :: InOrder(b.insts) && forall i | i in b.insts :: Canonical(i)
    modifies func`blocks
    ensures Fused(old(func.View()), func.View())
  {
    ghost var blocks := func.blocks;
    var counts := CountUses(func.blocks);
    for k := 0 to |func.blocks|
      invariant |func.blocks| == |blocks|
      invariant forall m | 0 <= m < k :: FusedBlock(counts, func.valueTypes, blocks[m], func.blocks[m])
      invariant forall m | k <= m < |blocks| :: func.blocks[m] == blocks[m]
    {
      assert blocks[k] in blocks;
      var insts := FuseBlock(func.blocks[k].insts, counts, func.valueTypes);
      func.blocks := func.blocks[k := func.blocks[k].(insts := insts)];
    }
    assert CountsOf(old(func.View()), counts);
  }

  // ----- a fused expression means the tree of its operations -----

  /** Inputs are tensors and scalars are not; only a right operand may be a scalar. */
  predicate TypedExpr(types: map<Value, Type>, e: FusedExpr) {
    match e
    case Input(v) => TensorTyped(types, v)
    case Scalar(v) => !TensorTyped(types, v)
    case Apply(_, l, r) => !l.Scalar? && TypedExpr(types, l) && TypedExpr(types, r)
  }

  /** The value of the unfused operations, each producing a whole tensor. */
  function Tree(I: Interp, env: Env, e: FusedExpr): Data {
    match e
    case Input(v) => Get(env, v)
    case Scalar(v) => Get(env, v)
    case Apply(op, l, r) =>
      if r.Scalar? then Scalarwise(I, op, Tree(I, env, l), Tree(I, env, r))
      else Elementwise(I, op, Tree(I, env, l), Tree(I, env, r))
  }

  predicate LeavesFit(env: Env, e: FusedExpr, n: nat) {
    match e
    case Input(v) => Get(env, v).Tensor_? && |Get(env, v).elems| == n
    case Scalar(v) => Get(env, v).Float?
    case Apply(_, l, r) => LeavesFit(env, l, n) && LeavesFit(env, r, n)
  }

  lemma {:induction false} TreeElements(I: Interp, types: map<Value, Type>, env: Env, e: FusedExpr, n: nat)
    requires TypedExpr(types, e) && !e.Scalar? && LeavesFit(env, e, n)
    ensures var t := Tree(I, env, e);
            t.Tensor_? && |t.elems| == n && forall k | 0 <= k < n :: t.elems[k] == FusedElem(I, env, e, k)
    decreases e
  {
    if e.Apply? {
      TreeElements(I, types, env, e.l, n);
      if !e.r.Scalar? { TreeElements(I, types, env, e.r, n); }
    }
  }

  lemma {:induction false} TreeFits(I: Interp, types: map<Value, Type>, env: Env, e: FusedExpr)
    requires TypedExpr(types, e) && !e.Scalar? && Tree(I, env, e).Tensor_?
    ensures LeavesFit(env, e, |Tree(I, env, e).elems|)
    decreases e
  {
    if e.Apply? {
      TreeFits(I, types, env, e.l);
      if !e.r.Scalar? { TreeFits(I, types, env, e.r); }
    }
  }

  lemma {:induction false} FitIsShape(types: map<Value, Type>, env: Env, e: FusedExpr, n: nat)
    requires TypedExpr(types, e)
    ensures LeavesFit(env, e, n) <==>
            forall v | v in Leaves(e) ::
              if TensorTyped(types, v) then Get(env, v).Tensor_? && |Get(env, v).elems| == n else Get(env, v).Float?
    decreases e
  {
    if e.Apply? {
      FitIsShape(types, env, e.l, n);
      FitIsShape(types, env, e.r, n);
    }
  }

  function LeftLeaf(e: FusedExpr): Value {
    match e
    case Input(v) => v
    case Scalar(v) => v
    case Apply(_, l, _) => LeftLeaf(l)
  }

  lemma {:induction false} LeftLeafFirst(types: map<Value, Type>, e: FusedExpr)
    requires TypedExpr(types, e)
    ensures LeafSeq(e) != [] && LeafSeq(e)[0] == LeftLeaf(e)
    ensures !e.Scalar? ==> TensorTyped(types, LeftLeaf(e))
    decreases e
  {
    if e.Apply? { LeftLeafFirst(types, e.l); }
  }

  lemma {:induction false} LeftLeafFits(types: map<Value, Type>, env: Env, e: FusedExpr, n: nat)
    requires TypedExpr(types, e) && !e.Scalar? && LeavesFit(env, e, n)
    ensures Get(env, LeftLeaf(e)).Tensor_? && |Get(env, LeftLeaf(e)).elems| == n
    decreases e
  {
    if e.Apply? { LeftLeafFits(types, env, e.l, n); }
  }

  lemma InputListFacts(types: map<Value, Type>, env: Env, e: FusedExpr)
    requires TypedExpr(types, e) && !e.Scalar?
    ensures forall v :: v in InputList(e) <==> v in Leaves(e)
    ensures FusedLength(types, env, InputList(e))
            == (match Get(env, LeftLeaf(e)) case Tensor_(x) => |x| case _ => 0)
  {
    LeafSeqMembers(e);
    PushAllMembers([], LeafSeq(e));
    LeftLeafFirst(types, e);
    var s := LeafSeq(e);
    PushAllMembers([s[0]], s[1..]);
    assert [] + [s[0]] == [s[0]];
    assert InputList(e) != [] && InputList(e)[0] == LeftLeaf(e);
  }

  /** The one-pass kernel computes what the tree of separate kernels computes. */
  lemma KernelIsTree(I: Interp, types: map<Value, Type>, env: Env, d: Value, e: FusedExpr)
    requires TypedExpr(types, e) && e.Apply?
    ensures Eval(I, types, TensorFused(d, InputList(e), e), env) == Tree(I, env, e)
  {
    var inputs := InputList(e);
    var n := FusedLength(types, env, inputs);
    InputListFacts(types, env, e);
    FitIsShape(types, env, e, n);
    assert FusedShape(types, env, inputs, n) <==> LeavesFit(env, e, n);
    if LeavesFit(env, e, n) {
      TreeElements(I, types, env, e, n);
      assert Tree(I, env, e).elems == seq(n, k requires 0 <= k < n => FusedElem(I, env, e, k));
    } else if Tree(I, env, e).Tensor_? {
      TreeFits(I, types, env, e);
      LeftLeafFits(types, env, e, |Tree(I, env, e).elems|);
    }
  }

  // ----- meaning is preserved -----

  predicate KindTyped(types: map<Value, Type>, i: Inst) {
    match i
    case TensorBin(_, d, l, r) => TensorTyped(types, d) && TensorTyped(types, l) && TensorTyped(types, r)
    case TensorScalar(_, d, l, r) => TensorTyped(types, d) && TensorTyped(types, l) && !TensorTyped(types, r)
    case TensorFused(d, _, e) => TensorTyped(types, d) && e.Apply? && TypedExpr(types, e) && Canonical(i)
    case _ => true
  }

  ghost predicate TensorsTyped(f: Func) {
    forall b, i | HasInst(f, b, i) :: KindTyped(f.types, InstOf(f, b, i))
  }

  /** An entry of the map at point (b, j): typed, its operands available, and, as long as control
      stays in b past j, its instruction still gives the value it defines. */
  ghost predicate EntryOk(I: Interp, f: Func, b: BlockId, j: nat, v: Value, i: Inst) {
    && (exists m: nat :: m < j && DefAt(f, b, m, v))
    && (FuseKind(i) ==>
          && i.d == v && KindTyped(f.types, i) && Available(f, b, j, Uses(i))
          && forall env, p | j <= p && Equations(I, f, env, b, p) :: Get(env, v) == Eval(I, f.types, i, env))
  }

  ghost predicate Available(f: Func, b: BlockId, j: nat, vs: seq<Value>) {
    forall u | u in vs :: DefDominates(f, u, b, j) && DefinedEarlier(f, u, b, j)
  }

  ghost predicate DefsOk(I: Interp, f: Func, b: BlockId, j: nat, defs: DefMap) {
    forall v | v in defs :: EntryOk(I, f, b, j, v, defs[v])
  }

  lemma {:induction false} ExpandMeaning(I: Interp, f: Func, b: BlockId, j: nat, defs: DefMap, counts: Counts,
                                         v: Value, e: FusedExpr, env: Env, p: nat)
    requires DefsOk(I, f, b, j, defs) && Expands(defs, counts, f.types, v, e)
    requires j <= p && Equations(I, f, env, b, p)
    ensures TypedExpr(f.types, e) && (e.Scalar? <==> !TensorTyped(f.types, v))
    ensures Tree(I, env, e) == Get(env, v)
    decreases e
  {
    if Absorbable(v, defs, counts) {
      var i := defs[v];
      assert EntryOk(I, f, b, j, v, i);
      if i.TensorFused? {
        KernelIsTree(I, f.types, env, i.d, e);
      } else {
        ExpandMeaning(I, f, b, j, defs, counts, i.l, e.l, env, p);
        ExpandMeaning(I, f, b, j, defs, counts, i.r, e.r, env, p);
      }
    }
  }

  lemma {:induction false} ExpandAvailable(I: Interp, f: Func, b: BlockId, j: nat, defs: DefMap, counts: Counts,
                                           v: Value, e: FusedExpr)
    requires DefsOk(I, f, b, j, defs) && Expands(defs, counts, f.types, v, e)
    requires Available(f, b, j, [v])
    ensures forall u | u in Leaves(e) :: DefDominates(f, u, b, j) && DefinedEarlier(f, u, b, j)
    decreases e
  {
    assert v in [v];
    if Absorbable(v, defs, counts) {
      var i := defs[v];
      assert EntryOk(I, f, b, j, v, i);
      if i.TensorFused? {
        LeafSeqMembers(e);
        PushAllMembers([], LeafSeq(e));
        assert forall u | u in Leaves(e) :: u in Uses(i);
      } else {
        assert i.l in Uses(i) && i.r in Uses(i);
        ExpandAvailable(I, f, b, j, defs, counts, i.l, e.l);
        ExpandAvailable(I, f, b, j, defs, counts, i.r, e.r);
      }
    }
  }

  /** A rewritten instruction gives what the original gives, at its place and for the rest of the block. */
  lemma StepMeaning(I: Interp, f: Func, b: BlockId, j: nat, defs: DefMap, counts: Counts, i': Inst, env: Env, p: nat)
    requires TensorsTyped(f) && HasInst(f, b, j) && DefsOk(I, f, b, j, defs)
    requires FuseStep(defs, counts, f.types, InstOf(f, b, j), i')
    requires j <= p && Equations(I, f, env, b, p)
    ensures SameResult(I, f.types, InstOf(f, b, j), i', env)
  {
    var i := InstOf(f, b, j);
    assert KindTyped(f.types, i);
    if Candidate(i, defs, counts) {
      ExpandMeaning(I, f, b, j, defs, counts, i.l, i'.expr.l, env, p);
      ExpandMeaning(I, f, b, j, defs, counts, i.r, i'.expr.r, env, p);
      TreeIsResult(I, f.types, i, i', env);
    }
  }

  lemma TreeIsResult(I: Interp, types: map<Value, Type>, i: Inst, i': Inst, env: Env)
    requires FuseKind(i) && !i.TensorFused? && KindTyped(types, i)
    requires i'.TensorFused? && i'.d == i.d && i'.inputs == InputList(i'.expr) && i'.expr.Apply? && i'.expr.op == i.top
    requires TypedExpr(types, i'.expr.l) && Tree(I, env, i'.expr.l) == Get(env, i.l)
    requires TypedExpr(types, i'.expr.r) && Tree(I, env, i'.expr.r) == Get(env, i.r)
    requires !i'.expr.l.Scalar? && (i'.expr.r.Scalar? <==> !TensorTyped(types, i.r))
    ensures SameResult(I, types, i, i', env)
  {
    KernelIsTree(I, types, env, i.d, i'.expr);
  }

  lemma StepAvailable(I: Interp, f: Func, b: BlockId, j: nat, defs: DefMap, counts: Counts, i': Inst)
    requires UsesDominated(f) && LocalOrder(f) && FusedListed(f) && HasInst(f, b, j) && DefsOk(I, f, b, j, defs)
    requires FuseStep(defs, counts, f.types, InstOf(f, b, j), i')
    ensures Available(f, b, j, Uses(i')) && FusedOk(i') && SameInst(InstOf(f, b, j), i')
  {
    var i := InstOf(f, b, j);
    UsesAvailable(f, b, j);
    assert FusedOk(i);
    if Candidate(i, defs, counts) {
      assert i.l in Uses(i) && i.r in Uses(i);
      LeavesAvailable(I, f, b, j, defs, counts, i.l, i.r, i'.expr);
      KernelUses(i');
    }
  }

  lemma LeavesAvailable(I: Interp, f: Func, b: BlockId, j: nat, defs: DefMap, counts: Counts,
                        l: Value, r: Value, e: FusedExpr)
    requires HasInst(f, b, j) && DefsOk(I, f, b, j, defs) && Available(f, b, j, [l, r]) && e.Apply?
    requires Expands(defs, counts, f.types, l, e.l) && Expands(defs, counts, f.types, r, e.r)
    ensures forall u | u in Leaves(e) :: DefDominates(f, u, b, j) && DefinedEarlier(f, u, b, j)
  {
    assert l in [l, r] && r in [l, r];
    ExpandAvailable(I, f, b, j, defs, counts, l, e.l);
    ExpandAvailable(I, f, b, j, defs, counts, r, e.r);
  }

  lemma UsesAvailable(f: Func, b: BlockId, j: nat)
    requires UsesDominated(f) && LocalOrder(f) && HasInst(f, b, j)
    ensures Available(f, b, j, Uses(InstOf(f, b, j)))
  {
    var i := InstOf(f, b, j);
    forall u | u in Uses(i) ensures DefDominates(f, u, b, j) && DefinedEarlier(f, u, b, j) {
      forall k: nat | DefAt(f, b, k, u) ensures k < j {}
    }
  }

  /** A kernel built from an expression uses exactly its leaves. */
  lemma KernelUses(i: Inst)
    requires i.TensorFused? && i.inputs == InputList(i.expr)
    ensures forall u :: u in Uses(i) <==> u in Leaves(i.expr)
  {
    LeafSeqMembers(i.expr);
    PushAllMembers([], LeafSeq(i.expr));
  }

  lemma StepReplaces(I: Interp, f: Func, b: BlockId, j: nat, defs: DefMap, counts: Counts, i': Inst)
    requires WellFormed(f) && TensorsTyped(f) && HasInst(f, b, j) && DefsOk(I, f, b, j, defs)
    requires FuseStep(defs, counts, f.types, InstOf(f, b, j), i')
    ensures Replaces(I, f, b, j, i')
  {
    StepAvailable(I, f, b, j, defs, counts, i');
    forall env | Equations(I, f, env, b, j) ensures SameResult(I, f.types, InstOf(f, b, j), i', env) {
      StepMeaning(I, f, b, j, defs, counts, i', env, j);
    }
  }

  lemma LaterAvailable(f: Func, b: BlockId, j: nat, vs: seq<Value>)
    requires Available(f, b, j, vs)
    ensures Available(f, b, j + 1, vs)
  {
    forall u | u in vs ensures DefDominates(f, u, b, j + 1) && DefinedEarlier(f, u, b, j + 1) {
      forall a, k | DefAt(f, a, k, u) ensures DomPoint(f, a, k, b, j + 1) {
        assert DomPoint(f, a, k, b, j);
      }
    }
  }

  lemma RecordKeepsDefsOk(I: Interp, f: Func, b: BlockId, j: nat, defs: DefMap, counts: Counts, i': Inst)
    requires WellFormed(f) && TensorsTyped(f) && HasInst(f, b, j) && DefsOk(I, f, b, j, defs)
    requires FuseStep(defs, counts, f.types, InstOf(f, b, j), i')
    ensures DefsOk(I, f, b, j + 1, if Def(i').Some? then defs[Def(i').value := i'] else defs)
  {
    var defs' := if Def(i').Some? then defs[Def(i').value := i'] else defs;
    StepAvailable(I, f, b, j, defs, counts, i');
    LaterAvailable(f, b, j, Uses(i'));
    forall v | v in defs' ensures EntryOk(I, f, b, j + 1, v, defs'[v]) {
      if Def(i') == Some(v) {
        assert DefAt(f, b, j, v);
        if FuseKind(i') { NewEntry(I, f, b, j, defs, counts, i'); }
      } else {
        assert EntryOk(I, f, b, j, v, defs[v]);
        if FuseKind(defs[v]) { LaterAvailable(f, b, j, Uses(defs[v])); }
      }
    }
  }

  lemma NewEntry(I: Interp, f: Func, b: BlockId, j: nat, defs: DefMap, counts: Counts, i': Inst)
    requires WellFormed(f) && TensorsTyped(f) && HasInst(f, b, j) && DefsOk(I, f, b, j, defs)
    requires FuseStep(defs, counts, f.types, InstOf(f, b, j), i') && FuseKind(i')
    ensures KindTyped(f.types, i')
    ensures forall env, p | j + 1 <= p && Equations(I, f, env, b, p) :: Get(env, i'.d) == Eval(I, f.types, i', env)
  {
    assert KindTyped(f.types, InstOf(f, b, j));
    forall env, p | j + 1 <= p && Equations(I, f, env, b, p) ensures Get(env, i'.d) == Eval(I, f.types, i', env) {
      StepMeaning(I, f, b, j, defs, counts, i', env, p);
      assert EquationAt(I, f, env, b, j);
    }
    FusedTyped(I, f, b, j, defs, counts, i');
  }

  lemma FusedTyped(I: Interp, f: Func, b: BlockId, j: nat, defs: DefMap, counts: Counts, i': Inst)
    requires WellFormed(f) && TensorsTyped(f) && HasInst(f, b, j) && DefsOk(I, f, b, j, defs)
    requires FuseStep(defs, counts, f.types, InstOf(f, b, j), i')
    ensures KindTyped(f.types, i')
  {
    var i := InstOf(f, b, j);
    assert KindTyped(f.types, i);
    if Candidate(i, defs, counts) {
      ExpandTyped(I, f, b, j, defs, counts, i.l, i'.expr.l);
      ExpandTyped(I, f, b, j, defs, counts, i.r, i'.expr.r);
    }
  }

  lemma {:induction false} ExpandTyped(I: Interp, f: Func, b: BlockId, j: nat, defs: DefMap, counts: Counts, v: Value,
                                       e: FusedExpr)
    requires DefsOk(I, f, b, j, defs) && Expands(defs, counts, f.types, v, e)
    ensures TypedExpr(f.types, e) && (e.Scalar? <==> !TensorTyped(f.types, v))
    decreases e
  {
    if Absorbable(v, defs, counts) {
      var i := defs[v];
      assert EntryOk(I, f, b, j, v, i);
      if !i.TensorFused? {
        ExpandTyped(I, f, b, j, defs, counts, i.l, e.l);
        ExpandTyped(I, f, b, j, defs, counts, i.r, e.r);
      }
    }
  }

  lemma {:induction false} PrefixDefsOk(I: Interp, f: Func, b: BlockId, counts: Counts, insts': seq<Inst>, j: nat)
    requires WellFormed(f) && TensorsTyped(f) && Find(f.blocks, b).Some?
    requires FusedInsts(counts, f.types, Find(f.blocks, b).value.insts, insts') && j <= |insts'|
    ensures DefsOk(I, f, b, j, DefsOf(insts'[..j]))
    decreases j
  {
    if j > 0 {
      PrefixDefsOk(I, f, b, counts, insts', j - 1);
      assert insts'[..j][..j - 1] == insts'[..j - 1];
      assert StepAt(counts, f.types, Find(f.blocks, b).value.insts, insts', j - 1);
      RecordKeepsDefsOk(I, f, b, j - 1, DefsOf(insts'[..j - 1]), counts, insts'[j - 1]);
    }
  }

  lemma FusedRewrites(I: Interp, f: Func, f': Func)
    requires WellFormed(f) && TensorsTyped(f) && Fused(f, f')
    ensures Rewritten(I, f, f')
  {
    var counts :| CountsOf(f, counts) && forall k | 0 <= k < |f.blocks| ::
      FusedBlock(counts, f.types, f.blocks[k], f'.blocks[k]);
    forall k | 0 <= k < |f.blocks| ensures ReplacedBlock(I, f, f.blocks[k], f'.blocks[k]) {
      var b, insts' := f.blocks[k], f'.blocks[k].insts;
      assert FusedBlock(counts, f.types, b, f'.blocks[k]);
      FindUnique(f.blocks, k);
      forall j | 0 <= j < |insts'| ensures HasInst(f, b.id, 0 + j) && Replaces(I, f, b.id, 0 + j, insts'[j]) {
        PrefixDefsOk(I, f, b.id, counts, insts', j);
        assert StepAt(counts, f.types, b.insts, insts', j);
        StepReplaces(I, f, b.id, j, DefsOf(insts'[..j]), counts, insts'[j]);
      }
    }
  }

  /** Fusing kernels leaves every run exactly as it was, environments included. */
  lemma FusionPreservesRuns(I: Interp, f: Func, f': Func, env: Env, n: nat)
    requires WellFormed(f) && TensorsTyped(f) && Fused(f, f')
    ensures WellFormed(f')
    ensures Run(I, f, Start(f, env), n) == Run(I, f', Start(f', env), n)
  {
    FusedRewrites(I, f, f');
    RewrittenIsEqual(I, f, f', env, n);
  }

  // ----- absorbed temporaries -----

  lemma {:induction false} UsesInAt(insts: seq<Inst>, k: nat, v: Value)
    requires k < |insts| && v in Uses(insts[k])
    ensures UsesIn(insts, v) >= 1
    ensures forall m | 0 <= m < |insts| && m != k && v in Uses(insts[m]) :: UsesIn(insts, v) >= 2
  {
    if k > 0 {
      UsesInAt(insts[1..], k - 1, v);
      forall m | 0 <= m < |insts| && m != k && v in Uses(insts[m]) ensures UsesIn(insts, v) >= 2 {
        if m > 0 { assert insts[1..][m - 1] == insts[m]; }
      }
    } else {
      forall m | 0 <= m < |insts| && m != k && v in Uses(insts[m]) ensures UsesIn(insts, v) >= 2 {
        assert insts[1..][m - 1] == insts[m];
        UsesInAt(insts[1..], m - 1, v);
      }
    }
  }

  lemma {:induction false} UseCountAt(blocks: seq<Block>, x: nat, v: Value)
    requires x < |blocks|
    ensures UseCount(blocks, v) >= UsesIn(blocks[x].insts, v)
    ensures forall y | 0 <= y < |blocks| && y != x ::
              UseCount(blocks, v) >= UsesIn(blocks[x].insts, v) + UsesIn(blocks[y].insts, v)
  {
    if x > 0 {
      UseCountAt(blocks[1..], x - 1, v);
      forall y | 0 <= y < |blocks| && y != x
        ensures UseCount(blocks, v) >= UsesIn(blocks[x].insts, v) + UsesIn(blocks[y].insts, v)
      {
        if y > 0 { assert blocks[1..][y - 1] == blocks[y]; }
      }
    } else {
      forall y | 0 <= y < |blocks| && y != x
        ensures UseCount(blocks, v) >= UsesIn(blocks[x].insts, v) + UsesIn(blocks[y].insts, v)
      {
        UseCountAt(blocks[1..], y - 1, v);
      }
    }
  }

  /** A value used once is used in one place. */
  lemma OneUser(f: Func, v: Value, a: BlockId, i: nat, b: BlockId, j: nat)
    requires UniqueIds(f) && UseCount(f.blocks, v) == 1
    requires HasInst(f, a, i) && v in Uses(InstOf(f, a, i))
    requires HasInst(f, b, j) && v in Uses(InstOf(f, b, j))
    ensures a == b && i == j
  {
    var x :| 0 <= x < |f.blocks| && f.blocks[x] == Find(f.blocks, a).value;
    var y :| 0 <= y < |f.blocks| && f.blocks[y] == Find(f.blocks, b).value;
    UsesInAt(f.blocks[x].insts, i, v);
    UsesInAt(f.blocks[y].insts, j, v);
    UseCountAt(f.blocks, x, v);
  }

  /** u, read by instruction m, was not absorbable when instruction k was rewritten. */
  predicate KeptAsLeaf(counts: Counts, insts: seq<Inst>, insts': seq<Inst>, u: Value, m: nat, k: nat) {
    m <= k < |insts| && k <= |insts'| && u in Uses(insts[m]) && !Absorbable(u, DefsOf(insts'[..k]), counts)
  }

  /** What a fused kernel still reads: u was a leaf at some rewriting up to the j-th. */
  ghost predicate LeafSomewhere(counts: Counts, insts: seq<Inst>, insts': seq<Inst>, u: Value, j: nat) {
    exists m: nat, k: nat :: k <= j && KeptAsLeaf(counts, insts, insts', u, m, k)
  }

  /** Each kernel among the first j rewritten instructions reads only values that were leaves. */
  ghost predicate KernelsReadLeaves(counts: Counts, insts: seq<Inst>, insts': seq<Inst>, j: nat) {
    j <= |insts| == |insts'| &&
    forall k, u | 0 <= k < j && insts'[k] != insts[k] && u in Uses(insts'[k]) ::
      LeafSomewhere(counts, insts, insts', u, k)
  }

  /** Where an entry of the map comes from. */
  lemma {:induction false} DefsOfSource(insts: seq<Inst>, v: Value) returns (k: nat)
    requires v in DefsOf(insts)
    ensures k < |insts| && insts[k] == DefsOf(insts)[v] && Def(insts[k]) == Some(v)
  {
    if Def(insts[|insts| - 1]) == Some(v) {
      k := |insts| - 1;
    } else {
      k := DefsOfSource(insts[..|insts| - 1], v);
    }
  }

  lemma {:induction false} ExpandLeaf(counts: Counts, types: map<Value, Type>, insts: seq<Inst>, insts': seq<Inst>,
                                      j: nat, v: Value, e: FusedExpr, u: Value, m: nat)
    requires FusedInsts(counts, types, insts, insts') && j < |insts| && forall i | i in insts :: !i.TensorFused?
    requires KernelsReadLeaves(counts, insts, insts', j)
    requires m <= j && v in Uses(insts[m])
    requires Expands(DefsOf(insts'[..j]), counts, types, v, e) && u in Leaves(e)
    ensures LeafSomewhere(counts, insts, insts', u, j)
    decreases e
  {
    var defs := DefsOf(insts'[..j]);
    if Absorbable(v, defs, counts) {
      var i := defs[v];
      var k := DefsOfSource(insts'[..j], v);
      assert StepAt(counts, types, insts, insts', k);
      assert insts[k] in insts;
      if i.TensorFused? {
        LeafSeqMembers(e);
        PushAllMembers([], LeafSeq(e));
        assert u in Uses(insts'[k]) && insts'[k] != insts[k];
        assert LeafSomewhere(counts, insts, insts', u, k);
      } else {
        assert insts'[k] == insts[k] && i.l in Uses(insts[k]) && i.r in Uses(insts[k]);
        if u in Leaves(e.l) {
          ExpandLeaf(counts, types, insts, insts', j, i.l, e.l, u, k);
        } else {
          ExpandLeaf(counts, types, insts, insts', j, i.r, e.r, u, k);
        }
      }
    } else {
      assert KeptAsLeaf(counts, insts, insts', u, m, j);
    }
  }

  lemma {:induction false} KernelLeaves(counts: Counts, types: map<Value, Type>, insts: seq<Inst>, insts': seq<Inst>,
                                        j: nat)
    requires FusedInsts(counts, types, insts, insts') && j <= |insts| && forall i | i in insts :: !i.TensorFused?
    ensures KernelsReadLeaves(counts, insts, insts', j)
    decreases j
  {
    if j > 0 {
      var n := j - 1;
      KernelLeaves(counts, types, insts, insts', n);
      assert StepAt(counts, types, insts, insts', n);
      var i, i' := insts[n], insts'[n];
      forall u | i' != i && u in Uses(i') ensures LeafSomewhere(counts, insts, insts', u, n) {
        LeafSeqMembers(i'.expr);
        PushAllMembers([], LeafSeq(i'.expr));
        assert i.l in Uses(i) && i.r in Uses(i);
        if u in Leaves(i'.expr.l) {
          ExpandLeaf(counts, types, insts, insts', n, i.l, i'.expr.l, u, n);
        } else {
          ExpandLeaf(counts, types, insts, insts', n, i.r, i'.expr.r, u, n);
        }
      }
    }
  }

  /** The map keeps an entry as long as the value is not defined again. */
  lemma {:induction false} DefsOfStable(insts: seq<Inst>, j: nat, k: nat, v: Value)
    requires j <= k <= |insts| && v in DefsOf(insts[..j])
    requires forall m | j <= m < k :: Def(insts[m]) != Some(v)
    ensures v in DefsOf(insts[..k]) && DefsOf(insts[..k])[v] == DefsOf(insts[..j])[v]
    decreases k
  {
    if j < k {
      DefsOfStable(insts, j, k - 1, v);
      assert insts[..k][..k - 1] == insts[..k - 1];
    }
  }

  /** Instruction (b, j) was fused and took in the definition of t. */
  ghost predicate Absorbed(f: Func, f': Func, b: BlockId, j: nat, t: Value) {
    && HasInst(f, b, j) && HasInst(f', b, j)
    && InstOf(f', b, j) != InstOf(f, b, j) && t in Uses(InstOf(f, b, j))
    && UseCount(f.blocks, t) == 1
    && var defs := DefsOf(Find(f'.blocks, b).value.insts[..j]);
       t in defs && FuseKind(defs[t])
  }

  ghost predicate NoKernels(f: Func) {
    forall b | b in f.blocks :: forall i | i in b.insts :: !i.TensorFused?
  }

  /** The leaves of a kernel were not absorbable, and an absorbed value is absorbable for the rest of its block. */
  lemma KernelUnread(f: Func, f': Func, counts: Counts, b: BlockId, j: nat, t: Value, c: BlockId, i: nat)
    requires WellFormed(f) && SameShape(f, f') && CountsOf(f, counts) && Absorbed(f, f', b, j, t)
    requires HasInst(f, c, i) && HasInst(f', c, i) && InstOf(f', c, i) != InstOf(f, c, i)
    requires FusedInsts(counts, f.types, Find(f.blocks, c).value.insts, Find(f'.blocks, c).value.insts)
    requires forall x | x in Find(f.blocks, c).value.insts :: !x.TensorFused?
    ensures t !in Uses(InstOf(f', c, i))
  {
    var insts, insts' := Find(f.blocks, c).value.insts, Find(f'.blocks, c).value.insts;
    if t in Uses(InstOf(f', c, i)) {
      KernelLeaves(counts, f.types, insts, insts', i + 1);
      assert LeafSomewhere(counts, insts, insts', t, i);
      var m: nat, k: nat :| k <= i && KeptAsLeaf(counts, insts, insts', t, m, k);
      assert InstOf(f, c, m) == insts[m];
      OneUser(f, t, c, m, b, j);
      EntryStays(f, f', c, j, k, t);
    }
  }

  lemma EntryStays(f: Func, f': Func, b: BlockId, j: nat, k: nat, t: Value)
    requires UniqueDefs(f) && SameShape(f, f') && Find(f'.blocks, b).Some? && j <= k <= Len(f', b)
    requires t in DefsOf(Find(f'.blocks, b).value.insts[..j])
    ensures var insts' := Find(f'.blocks, b).value.insts;
            t in DefsOf(insts'[..k]) && DefsOf(insts'[..k])[t] == DefsOf(insts'[..j])[t]
  {
    var insts' := Find(f'.blocks, b).value.insts;
    var d := DefsOfSource(insts'[..j], t);
    SamePositions(f, f', b);
    assert DefAt(f', b, d, t);
    forall x | j <= x < k ensures Def(insts'[x]) != Some(t) {
      if Def(insts'[x]) == Some(t) { assert DefAt(f', b, x, t); }
    }
    DefsOfStable(insts', j, k, t);
  }

  /** After fusion no instruction other than a phi reads an absorbed value, although use counts are
      never recomputed. */
  lemma AbsorbedUnread(I: Interp, f: Func, f': Func, b: BlockId, j: nat, t: Value, c: BlockId, i: nat)
    requires WellFormed(f) && TensorsTyped(f) && NoKernels(f) && Fused(f, f')
    requires Absorbed(f, f', b, j, t)
    requires HasInst(f', c, i)
    ensures t !in Uses(InstOf(f', c, i))
  {
    FusedRewrites(I, f, f');
    RewrittenShape(I, f, f');
    SamePositions(f, f', c);
    var counts :| CountsOf(f, counts) && forall k | 0 <= k < |f.blocks| ::
      FusedBlock(counts, f.types, f.blocks[k], f'.blocks[k]);
    if InstOf(f', c, i) == InstOf(f, c, i) {
      if t in Uses(InstOf(f, c, i)) { OneUser(f, t, c, i, b, j); }
    } else {
      FusedAt(f, f', counts, c);
      KernelUnread(f, f', counts, b, j, t, c, i);
    }
  }

  lemma FusedAt(f: Func, f': Func, counts: Counts, b: BlockId)
    requires UniqueIds(f) && SameShape(f, f') && Find(f.blocks, b).Some?
    requires forall k | 0 <= k < |f.blocks| :: FusedBlock(counts, f.types, f.blocks[k], f'.blocks[k])
    ensures Find(f'.blocks, b).Some?
    ensures FusedBlock(counts, f.types, Find(f.blocks, b).value, Find(f'.blocks, b).value)
  {
    var k :| 0 <= k < |f.blocks| && f.blocks[k] == Find(f.blocks, b).value;
    forall x, y | 0 <= x < y < |f'.blocks| ensures f'.blocks[x].id != f'.blocks[y].id {
      assert SameBlock(f.blocks[x], f'.blocks[x]) && SameBlock(f.blocks[y], f'.blocks[y]);
    }
    assert SameBlock(f.blocks[k], f'.blocks[k]);
    FindUnique(f'.blocks, k);
  }

  lemma AbsorbedReader(I: Interp, f: Func, f': Func, b: BlockId, j: nat, t: Value, i: Inst) returns (c: BlockId, k: nat)
    requires WellFormed(f) && TensorsTyped(f) && NoKernels(f) && Fused(f, f')
    requires Absorbed(f, f', b, j, t)
    requires Dce.InBlocks(f'.blocks, i) && t in Dce.Operands(i)
    ensures HasInst(f', c, k) && InstOf(f', c, k) == i && i.Phi? && t in i.operands.Values
  {
    FusionPreservesRuns(I, f, f', map[], 0);
    c, k := InstPosition(f', i);
    AbsorbedUnread(I, f, f', b, j, t, c, k);
  }

  /** A phi that is itself required reads t. */
  ghost predicate ReadByRequiredPhi(f: Func, t: Value) {
    exists c, i :: HasInst(f, c, i) && InstOf(f, c, i).Phi? && t in InstOf(f, c, i).operands.Values
                   && Dce.Required(f.blocks, InstOf(f, c, i).d)
  }

  /** So an absorbed temporary survives dead code elimination only if a phi reads it. */
  lemma AbsorbedSurvivesOnlyByPhi(I: Interp, f: Func, f': Func, b: BlockId, j: nat, t: Value)
    requires WellFormed(f) && TensorsTyped(f) && NoKernels(f) && Fused(f, f')
    requires Absorbed(f, f', b, j, t)
    requires Dce.Required(f'.blocks, t)
    ensures ReadByRequiredPhi(f', t)
  {
    var i := Dce.RequiredReader(f'.blocks, t);
    var c, k := AbsorbedReader(I, f, f', b, j, t, i);
  }

  lemma InstPosition(f: Func, i: Inst) returns (c: BlockId, k: nat)
    requires UniqueIds(f) && Dce.InBlocks(f.blocks, i)
    ensures HasInst(f, c, k) && InstOf(f, c, k) == i
  {
    var b :| b in f.blocks && i in b.insts;
    var x :| 0 <= x < |f.blocks| && f.blocks[x] == b;
    FindUnique(f.blocks, x);
    c := b.id;
    k :| 0 <= k < |b.insts| && b.insts[k] == i;
  }

  // ----- nothing is left to fuse -----

  lemma FusionKeepsShape(f: Func, f': Func)
    requires Fused(f, f')
    ensures SameShape(f, f')
  {
    var counts :| CountsOf(f, counts) && forall k | 0 <= k < |f.blocks| ::
      FusedBlock(counts, f.types, f.blocks[k], f'.blocks[k]);
    forall k | 0 <= k < |f.blocks| ensures SameBlock(f.blocks[k], f'.blocks[k]) {
      assert FusedBlock(counts, f.types, f.blocks[k], f'.blocks[k]);
      forall m | 0 <= m < |f.blocks[k].insts| ensures SameInst(f.blocks[k].insts[m], f'.blocks[k].insts[m]) {
        assert StepAt(counts, f.types, f.blocks[k].insts, f'.blocks[k].insts, m);
      }
    }
  }

  /** A value a tensor operation of block b defines at m is in the map from there on, as a tensor operation. */
  lemma TensorKept(f: Func, f': Func, counts: Counts, b: BlockId, m: nat, k: nat, v: Value)
    requires UniqueDefs(f) && SameShape(f, f') && HasInst(f, b, m) && Find(f'.blocks, b).Some? && m < k <= Len(f', b)
    requires FusedInsts(counts, f.types, Find(f.blocks, b).value.insts, Find(f'.blocks, b).value.insts)
    requires Def(InstOf(f, b, m)) == Some(v) && FuseKind(InstOf(f, b, m))
    ensures var defs := DefsOf(Find(f'.blocks, b).value.insts[..k]); v in defs && FuseKind(defs[v])
  {
    var insts' := Find(f'.blocks, b).value.insts;
    SamePositions(f, f', b);
    assert StepAt(counts, f.types, Find(f.blocks, b).value.insts, insts', m);
    assert insts'[..m + 1][..m] == insts'[..m];
    EntryStays(f, f', b, m + 1, k, v);
  }

  lemma UsedBefore(f: Func, f': Func, counts: Counts, b: BlockId, m: nat, r: nat, k: nat, v: Value)
    requires WellFormed(f) && SameShape(f, f') && DefAt(f, b, m, v) && Find(f'.blocks, b).Some?
    requires FusedInsts(counts, f.types, Find(f.blocks, b).value.insts, Find(f'.blocks, b).value.insts)
    requires HasInst(f, b, r) && v in Uses(InstOf(f, b, r)) && r <= k < Len(f, b) && FuseKind(InstOf(f, b, m))
    requires !Absorbable(v, DefsOf(Find(f'.blocks, b).value.insts[..k]), counts)
    ensures Count(counts, v) != 1
  {
    SamePositions(f, f', b);
    assert m < r;
    TensorKept(f, f', counts, b, m, k, v);
  }

  /** A tensor operation that is left has no absorbable operand, and a kernel has no absorbable leaf. */
  lemma LeftAsLeaf(counts: Counts, types: map<Value, Type>, insts: seq<Inst>, insts': seq<Inst>, j: nat, v: Value)
    returns (r: nat, k: nat)
    requires FusedInsts(counts, types, insts, insts') && j < |insts| && forall i | i in insts :: !i.TensorFused?
    requires FuseKind(insts'[j]) && v in Uses(insts'[j])
    ensures k <= j && KeptAsLeaf(counts, insts, insts', v, r, k)
  {
    assert StepAt(counts, types, insts, insts', j);
    assert insts[j] in insts;
    if insts'[j] == insts[j] {
      r, k := j, j;
    } else {
      KernelLeaves(counts, types, insts, insts', j + 1);
      assert LeafSomewhere(counts, insts, insts', v, j);
      r, k :| k <= j && KeptAsLeaf(counts, insts, insts', v, r, k);
    }
  }

  /** Neither a tensor operation left as it was nor a kernel still reads, on either side, a value that another
      tensor operation of its block defines and nothing else reads. */
  lemma NothingLeftToFuse(f: Func, f': Func, b: BlockId, j: nat, m: nat, v: Value)
    requires WellFormed(f) && NoKernels(f) && Fused(f, f') && HasInst(f', b, j) && DefAt(f, b, m, v)
    requires InstOf(f', b, j).TensorBin? || InstOf(f', b, j).TensorScalar? || InstOf(f', b, j).TensorFused?
    requires v in Uses(InstOf(f', b, j))
    requires InstOf(f, b, m).TensorBin? || InstOf(f, b, m).TensorScalar?
    ensures UseCount(f.blocks, v) != 1
  {
    FusionKeepsShape(f, f');
    SamePositions(f, f', b);
    var counts :| CountsOf(f, counts) && forall k | 0 <= k < |f.blocks| ::
      FusedBlock(counts, f.types, f.blocks[k], f'.blocks[k]);
    FusedAt(f, f', counts, b);
    var insts, insts' := Find(f.blocks, b).value.insts, Find(f'.blocks, b).value.insts;
    var r, k := LeftAsLeaf(counts, f.types, insts, insts', j, v);
    assert InstOf(f, b, r) == insts[r];
    UsedBefore(f, f', counts, b, m, r, k, v);
  }

  lemma {:induction false} UsesInSole(insts: seq<Inst>, j: nat, v: Value)
    requires j <= |insts| && forall k | 0 <= k < |insts| && k != j :: v !in Uses(insts[k])
    ensures UsesIn(insts, v) == if j < |insts| then multiset(Uses(insts[j]))[v] else 0
  {
    if insts != [] {
      forall k | 0 <= k < |insts| - 1 ensures insts[1..][k] == insts[k + 1] { }
      if j > 0 {
        assert v !in Uses(insts[0]);
        UsesInSole(insts[1..], j - 1, v);
      } else {
        UsesInSole(insts[1..], |insts| - 1, v);
      }
    }
  }

  lemma {:induction false} UseCountSole(blocks: seq<Block>, x: nat, j: nat, v: Value)
    requires x <= |blocks| && (x < |blocks| ==> j < |blocks[x].insts|)
    requires forall y, k | 0 <= y < |blocks| && 0 <= k < |blocks[y].insts| && v in Uses(blocks[y].insts[k]) ::
               y == x && k == j
    ensures UseCount(blocks, v) == if x < |blocks| then multiset(Uses(blocks[x].insts[j]))[v] else 0
  {
    if blocks != [] {
      forall y | 0 <= y < |blocks| - 1 ensures blocks[1..][y] == blocks[y + 1] { }
      if x > 0 {
        UsesInSole(blocks[0].insts, |blocks[0].insts|, v);
        UseCountSole(blocks[1..], x - 1, j, v);
      } else {
        UsesInSole(blocks[0].insts, j, v);
        UseCountSole(blocks[1..], |blocks| - 1, j, v);
      }
    }
  }

  /** Only instruction j of block b reads v, phis aside. */
  ghost predicate SoleReader(f: Func, b: BlockId, j: nat, v: Value) {
    forall c, i | HasInst(f, c, i) && v in Uses(InstOf(f, c, i)) :: c == b && i == j
  }

  lemma ReadOnce(i: Inst, v: Value)
    requires (i.TensorBin? || i.TensorScalar?) && i.l != i.r && v in Uses(i)
    ensures multiset(Uses(i))[v] == 1
  {
  }

  lemma SolePlace(f: Func, b: BlockId, j: nat, v: Value) returns (x: nat)
    requires UniqueIds(f) && HasInst(f, b, j) && SoleReader(f, b, j, v)
    ensures x < |f.blocks| && f.blocks[x] == Find(f.blocks, b).value
    ensures forall y, k | 0 <= y < |f.blocks| && 0 <= k < |f.blocks[y].insts| && v in Uses(f.blocks[y].insts[k]) ::
              y == x && k == j
  {
    x :| 0 <= x < |f.blocks| && f.blocks[x] == Find(f.blocks, b).value;
    forall y, k | 0 <= y < |f.blocks| && 0 <= k < |f.blocks[y].insts| && v in Uses(f.blocks[y].insts[k])
      ensures y == x && k == j
    {
      FindUnique(f.blocks, y);
      assert HasInst(f, f.blocks[y].id, k) && InstOf(f, f.blocks[y].id, k) == f.blocks[y].insts[k];
    }
  }

  lemma SoleUse(f: Func, b: BlockId, j: nat, v: Value)
    requires UniqueIds(f) && HasInst(f, b, j) && SoleReader(f, b, j, v)
    requires InstOf(f, b, j).TensorBin? || InstOf(f, b, j).TensorScalar?
    requires InstOf(f, b, j).l != InstOf(f, b, j).r && v in Uses(InstOf(f, b, j))
    ensures UseCount(f.blocks, v) == 1
  {
    var x := SolePlace(f, b, j, v);
    UseCountSole(f.blocks, x, j, v);
    ReadOnce(InstOf(f, b, j), v);
  }

  /** What one tensor operation of a block defines and one other alone reads, on one side, is gone: no kernel
      and no instruction left reads it. */
  lemma SoleReadFused(f: Func, f': Func, b: BlockId, m: nat, j: nat, v: Value, c: BlockId, i: nat)
    requires WellFormed(f) && NoKernels(f) && Fused(f, f')
    requires DefAt(f, b, m, v) && (InstOf(f, b, m).TensorBin? || InstOf(f, b, m).TensorScalar?)
    requires HasInst(f, b, j) && (InstOf(f, b, j).TensorBin? || InstOf(f, b, j).TensorScalar?)
    requires InstOf(f, b, j).l != InstOf(f, b, j).r && v in Uses(InstOf(f, b, j)) && SoleReader(f, b, j, v)
    requires HasInst(f', c, i)
    ensures v !in Uses(InstOf(f', c, i))
  {
    SoleUse(f, b, j, v);
    FusionKeepsShape(f, f');
    SamePositions(f, f', c);
    var counts :| CountsOf(f, counts) && forall k | 0 <= k < |f.blocks| ::
      FusedBlock(counts, f.types, f.blocks[k], f'.blocks[k]);
    FusedAt(f, f', counts, c);
    StillTensor(f, f', counts, c, i, v);
    if v in Uses(InstOf(f', c, i)) {
      var r := ReadWhere(f, f', counts, c, i, v);
      if InstOf(f', c, i) == InstOf(f, c, i) { assert i == j; }
      NothingLeftToFuse(f, f', b, i, m, v);
    }
  }

  lemma StillTensor(f: Func, f': Func, counts: Counts, c: BlockId, i: nat, v: Value)
    requires HasInst(f, c, i) && HasInst(f', c, i)
    requires FusedInsts(counts, f.types, Find(f.blocks, c).value.insts, Find(f'.blocks, c).value.insts)
    ensures InstOf(f', c, i) != InstOf(f, c, i) ==> InstOf(f', c, i).TensorFused?
  {
    assert StepAt(counts, f.types, Find(f.blocks, c).value.insts, Find(f'.blocks, c).value.insts, i);
  }

  /** What an instruction reads after fusion, some instruction of its block read before. */
  lemma ReadWhere(f: Func, f': Func, counts: Counts, c: BlockId, i: nat, v: Value) returns (r: nat)
    requires NoKernels(f) && HasInst(f, c, i) && HasInst(f', c, i) && v in Uses(InstOf(f', c, i))
    requires FusedInsts(counts, f.types, Find(f.blocks, c).value.insts, Find(f'.blocks, c).value.insts)
    ensures HasInst(f, c, r) && v in Uses(InstOf(f, c, r))
  {
    var insts, insts' := Find(f.blocks, c).value.insts, Find(f'.blocks, c).value.insts;
    if insts'[i] == insts[i] {
      r := i;
    } else {
      StillTensor(f, f', counts, c, i, v);
      var k;
      r, k := LeftAsLeaf(counts, f.types, insts, insts', i, v);
    }
  }

  // ----- a * (b + c) -----

  function ProductOfSum(types: map<Value, Type>): Func {
    Func([Block(0, [TensorBin(TAdd, 3, 1, 2), TensorBin(TMul, 4, 0, 3), Return(Some(4))], [], [])], 0, types)
  }

  lemma SumReadOnce(types: map<Value, Type>)
    ensures UseCount(ProductOfSum(types).blocks, 3) == 1
  {
    var blocks := ProductOfSum(types).blocks;
    var insts := blocks[0].insts;
    assert Uses(insts[1]) == [0, 3] && Uses(insts[0]) == [1, 2] && Uses(insts[2]) == [4];
    UsesInSole(insts, 1, 3);
    assert blocks[1..] == [];
  }

  lemma ProductStep(counts: Counts, types: map<Value, Type>, defs: DefMap, i': Inst)
    requires Count(counts, 3) == 1 && defs == map[3 := TensorBin(TAdd, 3, 1, 2)]
    requires TensorTyped(types, 0) && TensorTyped(types, 1) && TensorTyped(types, 2)
    requires FuseStep(defs, counts, types, TensorBin(TMul, 4, 0, 3), i')
    ensures i' == TensorFused(4, [0, 1, 2], Apply(TMul, Input(0), Apply(TAdd, Input(1), Input(2))))
  {
    assert Absorbable(3, defs, counts);
    var e := i'.expr;
    assert e.l == Input(0);
    assert Expands(defs, counts, types, 1, e.r.l) && Expands(defs, counts, types, 2, e.r.r);
    assert e.r.Apply? && e.r.op == TAdd && e.r.l == Input(1) && e.r.r == Input(2);
    KernelInputs(e);
  }

  lemma SumStep(counts: Counts, types: map<Value, Type>, insts': seq<Inst>)
    requires FusedInsts(counts, types, ProductOfSum(types).blocks[0].insts, insts')
    ensures |insts'| == 3 && insts'[0] == TensorBin(TAdd, 3, 1, 2) && insts'[2] == Return(Some(4))
    ensures DefsOf(insts'[..1]) == map[3 := TensorBin(TAdd, 3, 1, 2)]
  {
    var insts := ProductOfSum(types).blocks[0].insts;
    assert insts'[..0] == [] && DefsOf(insts'[..0]) == map[];
    assert StepAt(counts, types, insts, insts', 0) && StepAt(counts, types, insts, insts', 2);
    assert insts'[..1] == [insts'[0]] && [insts'[0]][..0] == [];
  }

  function OneKernel(): seq<Inst> {
    [TensorBin(TAdd, 3, 1, 2),
     TensorFused(4, [0, 1, 2], Apply(TMul, Input(0), Apply(TAdd, Input(1), Input(2)))), Return(Some(4))]
  }

  lemma ProductInsts(counts: Counts, types: map<Value, Type>, insts': seq<Inst>)
    requires Count(counts, 3) == 1 && FusedInsts(counts, types, ProductOfSum(types).blocks[0].insts, insts')
    requires TensorTyped(types, 0) && TensorTyped(types, 1) && TensorTyped(types, 2)
    ensures insts' == OneKernel()
  {
    SumStep(counts, types, insts');
    assert StepAt(counts, types, ProductOfSum(types).blocks[0].insts, insts', 1);
    ProductStep(counts, types, DefsOf(insts'[..1]), insts'[1]);
  }

  /** The sum on the right of the product is taken into one kernel of three inputs. */
  lemma ProductOfSumFused(types: map<Value, Type>, f': Func)
    requires Fused(ProductOfSum(types), f') && TensorTyped(types, 0) && TensorTyped(types, 1) && TensorTyped(types, 2)
    ensures |f'.blocks| == 1 && f'.blocks[0].insts == OneKernel()
  {
    var f := ProductOfSum(types);
    var counts :| CountsOf(f, counts) && forall k | 0 <= k < |f.blocks| ::
      FusedBlock(counts, f.types, f.blocks[k], f'.blocks[k]);
    SumReadOnce(types);
    assert FusedBlock(counts, f.types, f.blocks[0], f'.blocks[0]);
    ProductInsts(counts, types, f'.blocks[0].insts);
  }

  lemma KernelInputs(e: FusedExpr)
    requires e == Apply(TMul, Input(0), Apply(TAdd, Input(1), Input(2)))
    ensures InputList(e) == [0, 1, 2]
  {
    assert LeafSeq(e.r) == [1, 2] && LeafSeq(e) == [0, 1, 2];
    assert [0, 1, 2][1..] == [1, 2] && [1, 2][1..] == [2] && [2][1..] == [];
    assert PushAll([0, 1, 2], []) == [0, 1, 2];
    assert PushAll([0, 1], [2]) == [0, 1, 2];
    assert PushAll([0], [1, 2]) == [0, 1, 2];
    assert PushAll([], [0, 1, 2]) == [0, 1, 2];
  }
}
