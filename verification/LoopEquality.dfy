/** The syntactic detector of equal loop phis (verifier/control_flow.rs, detect_equality). */
module LoopEquality {
  import opened Types
  import opened Ir
  import opened Ssa
  import opened Reach

  type Incoming = map<BlockId, Value>
  type Defs = map<Value, Inst>

  /** get_instruction: the defining instruction of every value. */
  ghost predicate DefsOfFunc(f: Func, defs: Defs) {
    && (forall b, i, v | DefAt(f, b, i, v) :: v in defs && defs[v] == InstOf(f, b, i))
    && (forall v | v in defs :: exists b, i :: DefAt(f, b, i, v))
  }

  function ConstOf(defs: Defs, v: Value): Option<int> {
    if v in defs && defs[v].ConstInt? then Some(defs[v].val) else None
  }

  /** The same value, or the same integer constant. */
  predicate SameConst(defs: Defs, u: Value, v: Value): (same: bool)
    ensures same <==> u == v || (u in defs && v in defs && defs[u].ConstInt? && defs[v].ConstInt?
                                 && defs[u].val == defs[v].val)
  {
    u == v || (ConstOf(defs, u).Some? && ConstOf(defs, u) == ConstOf(defs, v))
  }

  /** The other operand of a sum that has d as one operand, looked for on the left first. */
  function StepOf(i: Inst, d: Value): Option<Value>
    requires i.Arith?
  {
    if i.l == d then Some(i.r) else if i.r == d then Some(i.l) else None
  }

  predicate SameSum(defs: Defs, a: Value, i: Inst, b: Value, j: Inst) {
    && i.Arith? && j.Arith? && i.aop == Add && j.aop == Add
    && StepOf(i, a).Some? && StepOf(j, b).Some?
    && SameConst(defs, StepOf(i, a).value, StepOf(j, b).value)
  }

  predicate SameDifference(defs: Defs, a: Value, i: Inst, b: Value, j: Inst) {
    i.Arith? && j.Arith? && i.aop == Sub && j.aop == Sub && i.l == a && j.l == b && SameConst(defs, i.r, j.r)
  }

  /** Both phis keep their value, or both add, or both subtract, the same step. */
  predicate SameUpdate(defs: Defs, a: Value, u: Value, b: Value, v: Value) {
    || (u == a && v == b)
    || (u in defs && v in defs
          && (SameSum(defs, a, defs[u], b, defs[v]) || SameDifference(defs, a, defs[u], b, defs[v])))
  }

  ghost predicate BackEdge(edges: Edges, h: BlockId, p: BlockId) {
    Reaches(edges, h, p)
  }

  /** What the detector accepts for phis a and b of block h. */
  ghost predicate Detected(edges: Edges, defs: Defs, h: BlockId, a: Value, inA: Incoming, b: Value, inB: Incoming) {
    && |inA| == |inB|
    && (exists p :: p in inA && BackEdge(edges, h, p))
    && forall p | p in inA ::
         && p in inB
         && (if BackEdge(edges, h, p) then SameUpdate(defs, a, inA[p], b, inB[p]) else SameConst(defs, inA[p], inB[p]))
  }

  /** Two values that advance phis a and b alike: the phis themselves, or sums of each with one step on
      either side, or differences of each and one step. */
  predicate AdvanceAlike(defs: Defs, a: Value, u: Value, b: Value, v: Value) {
    || (u == a && v == b)
    || (u in defs && v in defs
        && match (defs[u], defs[v])
           case (Arith(Add, _, l, r), Arith(Add, _, l', r')) =>
             || (l == a && l' == b && SameConst(defs, r, r')) || (l == a && r' == b && SameConst(defs, r, l'))
             || (r == a && l' == b && SameConst(defs, l, r')) || (r == a && r' == b && SameConst(defs, l, l'))
           case (Arith(Sub, _, l, r), Arith(Sub, _, l', r')) => l == a && l' == b && SameConst(defs, r, r')
           case _ => false)
  }

  /** The detector's answer read off the instructions: as many edges, a back edge among them, the same start
      on every entry and the same advance on every back edge. */
  lemma DetectedExactly(edges: Edges, defs: Defs, h: BlockId, a: Value, inA: Incoming, b: Value, inB: Incoming)
    ensures Detected(edges, defs, h, a, inA, b, inB)
       <==> && |inA| == |inB|
            && (exists p :: p in inA && Reaches(edges, h, p))
            && (forall p | p in inA && !Reaches(edges, h, p) :: p in inB && SameConst(defs, inA[p], inB[p]))
            && (forall p | p in inA && Reaches(edges, h, p) :: p in inB && AdvanceAlike(defs, a, inA[p], b, inB[p]))
  {
    forall p | p in inA && p in inB
      ensures SameUpdate(defs, a, inA[p], b, inB[p]) <==> AdvanceAlike(defs, a, inA[p], b, inB[p])
    {
      AdvancesExactly(defs, a, inA[p], b, inB[p]);
    }
  }

  lemma AdvancesExactly(defs: Defs, a: Value, u: Value, b: Value, v: Value)
    ensures SameUpdate(defs, a, u, b, v) <==> AdvanceAlike(defs, a, u, b, v)
  {
  }

  // ----- the detector -----

  /** Splits the incoming edges into entries and back edges. */
  method Split(edges: Edges, h: BlockId, incoming: Incoming)
    returns (entries: seq<(BlockId, Value)>, backs: seq<(BlockId, Value)>)
    ensures forall p, v :: (p, v) in entries <==> p in incoming && incoming[p] == v && !BackEdge(edges, h, p)
    ensures forall p, v :: (p, v) in backs <==> p in incoming && incoming[p] == v && BackEdge(edges, h, p)
  {
    entries, backs := [], [];
    var todo := incoming.Keys;
    while todo != {}
      invariant todo <= incoming.Keys
      invariant forall p, v :: (p, v) in entries
                               <==> p in incoming && p !in todo && incoming[p] == v && !BackEdge(edges, h, p)
      invariant forall p, v :: (p, v) in backs
                               <==> p in incoming && p !in todo && incoming[p] == v && BackEdge(edges, h, p)
      decreases |todo|
    {
      var p :| p in todo;
      todo := todo - {p};
      var back := IsReachable(edges, h, p);
      if back {
        backs := backs + [(p, incoming[p])];
      } else {
        entries := entries + [(p, incoming[p])];
      }
    }
  }

  method Lookup(pairs: seq<(BlockId, Value)>, p: BlockId) returns (r: Option<Value>)
    ensures r.Some? ==> (p, r.value) in pairs
    ensures r.None? ==> forall v :: (p, v) !in pairs
  {
    for k := 0 to |pairs|
      invariant forall v :: (p, v) !in pairs[..k]
    {
      if pairs[k].0 == p {
        return Some(pairs[k].1);
      }
      assert pairs[..k + 1] == pairs[..k] + [pairs[k]];
    }
    assert pairs[..|pairs|] == pairs;
    return None;
  }

  method DetectEquality(edges: Edges, defs: Defs, h: BlockId, a: Value, inA: Incoming, b: Value, inB: Incoming)
    returns (equal: bool)
    ensures equal <==> Detected(edges, defs, h, a, inA, b, inB)
    ensures equal <==>
              && |inA| == |inB|
              && (exists p :: p in inA && Reaches(edges, h, p))
              && (forall p | p in inA && !Reaches(edges, h, p) :: p in inB && SameConst(defs, inA[p], inB[p]))
              && (forall p | p in inA && Reaches(edges, h, p) :: p in inB && AdvanceAlike(defs, a, inA[p], b, inB[p]))
  {
    DetectedExactly(edges, defs, h, a, inA, b, inB);
    if |inA| != |inB| {
      return false;
    }
    var entriesA, backsA := Split(edges, h, inA);
    var entriesB, backsB := Split(edges, h, inB);
    if backsA == [] {
      assert forall p | p in inA && BackEdge(edges, h, p) :: (p, inA[p]) in backsA;
      return false;
    }
    assert backsA[0] in backsA;
    assert backsA[0] == (backsA[0].0, backsA[0].1);
    for k := 0 to |entriesA|
      invariant forall j | 0 <= j < k :: entriesA[j].0 in inB && SameConst(defs, entriesA[j].1, inB[entriesA[j].0])
    {
      var (p, u) := entriesA[k];
      assert (p, u) in entriesA;
      var v := Lookup(entriesB, p);
      if v.None? || !SameConst(defs, u, v.value) {
        assert p in inB ==> (p, inB[p]) in entriesB;
        return false;
      }
    }
    for k := 0 to |backsA|
      invariant forall j | 0 <= j < k :: backsA[j].0 in inB && SameUpdate(defs, a, backsA[j].1, b, inB[backsA[j].0])
    {
      var (p, u) := backsA[k];
      assert (p, u) in backsA;
      var v := Lookup(backsB, p);
      if v.None? || !SameUpdate(defs, a, u, b, v.value) {
        assert p in inB ==> (p, inB[p]) in backsB;
        return false;
      }
    }
    forall p | p in inA
      ensures p in inB
      ensures if BackEdge(edges, h, p) then SameUpdate(defs, a, inA[p], b, inB[p]) else SameConst(defs, inA[p], inB[p])
    {
      if BackEdge(edges, h, p) {
        assert (p, inA[p]) in backsA;
        var j :| 0 <= j < |backsA| && backsA[j] == (p, inA[p]);
      } else {
        assert (p, inA[p]) in entriesA;
        var j :| 0 <= j < |entriesA| && entriesA[j] == (p, inA[p]);
      }
    }
    return true;
  }

  // ----- detected phis are equal on every run -----

  /** Integer typing: operands of an operation share its width, and so do those of a phi. */
  ghost predicate WidthsAgree(f: Func) {
    forall b, i | HasInst(f, b, i) :: InstWidthsAgree(f.types, InstOf(f, b, i))
  }

  ghost predicate InstWidthsAgree(types: map<Value, Type>, i: Inst) {
    match i
    case Arith(_, d, l, r) => Width(types, d) == Width(types, l) == Width(types, r)
    case Phi(d, ops) => forall p | p in ops :: Width(types, ops[p]) == Width(types, d)
    case _ => true
  }

  /** The situation the verifier asks about: two phis of one block that the detector accepts. */
  ghost predicate EqualPhis(f: Func, edges: Edges, defs: Defs, h: BlockId, i: nat, j: nat) {
    && WellFormed(f) && WidthsAgree(f) && DefsOfFunc(f, defs)
    && HasInst(f, h, i) && HasInst(f, h, j) && InstOf(f, h, i).Phi? && InstOf(f, h, j).Phi?
    && var pa, pb := InstOf(f, h, i), InstOf(f, h, j);
       && Width(f.types, pa.d) == Width(f.types, pb.d)
       && Detected(edges, defs, h, pa.d, pa.operands, pb.d, pb.operands)
  }

  /** A constant or a step found at the end of p has its definition behind it. */
  lemma SettledValue(I: Interp, f: Func, defs: Defs, env: Env, p: BlockId, v: Value)
    requires DefsOfFunc(f, defs) && Equations(I, f, env, p, Len(f, p)) && DefDominates(f, v, p, Len(f, p))
    requires v in defs && IsPureOp(defs[v])
    ensures defs[v].d == v && Get(env, v) == Eval(I, f.types, defs[v], env)
    ensures exists b, i :: DefAt(f, b, i, v) && InstOf(f, b, i) == defs[v] && DomPoint(f, b, i, p, Len(f, p))
  {
    var b, i :| DefAt(f, b, i, v);
    assert DomPoint(f, b, i, p, Len(f, p));
    assert EquationAt(I, f, env, b, i);
  }

  lemma SameConstEqual(I: Interp, f: Func, defs: Defs, env: Env, p: BlockId, u: Value, v: Value)
    requires DefsOfFunc(f, defs) && Equations(I, f, env, p, Len(f, p))
    requires DefDominates(f, u, p, Len(f, p)) && DefDominates(f, v, p, Len(f, p))
    requires SameConst(defs, u, v) && Width(f.types, u) == Width(f.types, v)
    ensures Get(env, u) == Get(env, v)
  {
    if u != v {
      SettledValue(I, f, defs, env, p, u);
      SettledValue(I, f, defs, env, p, v);
    }
  }

  /** Operands of a definition that dominates the end of p dominate it too. */
  lemma OperandDominates(f: Func, b: BlockId, i: nat, p: BlockId, u: Value)
    requires UsesDominated(f) && HasInst(f, b, i) && u in Uses(InstOf(f, b, i)) && DomPoint(f, b, i, p, Len(f, p))
    ensures DefDominates(f, u, p, Len(f, p))
  {
    assert DefDominates(f, u, b, i);
    forall a, j | DefAt(f, a, j, u) ensures DomPoint(f, a, j, p, Len(f, p)) {
      DomTransitive(f, a, j, b, i, p, Len(f, p));
    }
  }

  lemma SumsEqual(I: Interp, types: map<Value, Type>, env: Env, i: Inst, a: Value, j: Inst, b: Value)
    requires i.Arith? && j.Arith? && i.aop == Add && j.aop == Add && Width(types, i.d) == Width(types, j.d)
    requires StepOf(i, a).Some? && StepOf(j, b).Some?
    requires Get(env, a) == Get(env, b) && Get(env, StepOf(i, a).value) == Get(env, StepOf(j, b).value)
    ensures Eval(I, types, i, env) == Eval(I, types, j, env)
  {
  }

  lemma DifferencesEqual(I: Interp, types: map<Value, Type>, env: Env, i: Inst, j: Inst)
    requires i.Arith? && j.Arith? && i.aop == Sub && j.aop == Sub && Width(types, i.d) == Width(types, j.d)
    requires Get(env, i.l) == Get(env, j.l) && Get(env, i.r) == Get(env, j.r)
    ensures Eval(I, types, i, env) == Eval(I, types, j, env)
  {
  }

  /** The step a settled value was computed with. */
  lemma StepSettled(I: Interp, f: Func, defs: Defs, env: Env, p: BlockId, u: Value, s: Value)
    requires WellFormed(f) && WidthsAgree(f) && DefsOfFunc(f, defs) && Equations(I, f, env, p, Len(f, p))
    requires DefDominates(f, u, p, Len(f, p)) && u in defs && defs[u].Arith? && s in Uses(defs[u])
    ensures DefDominates(f, s, p, Len(f, p)) && Width(f.types, s) == Width(f.types, u)
    ensures defs[u].d == u && Get(env, u) == Eval(I, f.types, defs[u], env)
  {
    SettledValue(I, f, defs, env, p, u);
    var b, i :| DefAt(f, b, i, u) && InstOf(f, b, i) == defs[u] && DomPoint(f, b, i, p, Len(f, p));
    OperandDominates(f, b, i, p, s);
    assert InstWidthsAgree(f.types, InstOf(f, b, i));
  }

  /** Equal phis stay equal over one back edge. */
  lemma SameUpdateEqual(I: Interp, f: Func, defs: Defs, env: Env, p: BlockId, a: Value, u: Value, b: Value, v: Value)
    requires WellFormed(f) && WidthsAgree(f) && DefsOfFunc(f, defs) && Equations(I, f, env, p, Len(f, p))
    requires DefDominates(f, u, p, Len(f, p)) && DefDominates(f, v, p, Len(f, p))
    requires SameUpdate(defs, a, u, b, v) && Width(f.types, u) == Width(f.types, v)
    requires Get(env, a) == Get(env, b)
    ensures Get(env, u) == Get(env, v)
  {
    if u == a && v == b {
    } else if SameSum(defs, a, defs[u], b, defs[v]) {
      SumUpdateEqual(I, f, defs, env, p, a, u, b, v);
    } else {
      StepsEqual(I, f, defs, env, p, u, defs[u].r, v, defs[v].r);
      DifferencesEqual(I, f.types, env, defs[u], defs[v]);
    }
  }

  lemma SumUpdateEqual(I: Interp, f: Func, defs: Defs, env: Env, p: BlockId, a: Value, u: Value, b: Value, v: Value)
    requires WellFormed(f) && WidthsAgree(f) && DefsOfFunc(f, defs) && Equations(I, f, env, p, Len(f, p))
    requires DefDominates(f, u, p, Len(f, p)) && DefDominates(f, v, p, Len(f, p))
    requires u in defs && v in defs && SameSum(defs, a, defs[u], b, defs[v]) && Width(f.types, u) == Width(f.types, v)
    requires Get(env, a) == Get(env, b)
    ensures Get(env, u) == Get(env, v)
  {
    var s, t := StepOf(defs[u], a).value, StepOf(defs[v], b).value;
    StepsEqual(I, f, defs, env, p, u, s, v, t);
    SumsEqual(I, f.types, env, defs[u], a, defs[v], b);
  }

  lemma StepsEqual(I: Interp, f: Func, defs: Defs, env: Env, p: BlockId, u: Value, s: Value, v: Value, t: Value)
    requires WellFormed(f) && WidthsAgree(f) && DefsOfFunc(f, defs) && Equations(I, f, env, p, Len(f, p))
    requires DefDominates(f, u, p, Len(f, p)) && DefDominates(f, v, p, Len(f, p))
    requires u in defs && defs[u].Arith? && (s == defs[u].l || s == defs[u].r)
    requires v in defs && defs[v].Arith? && (t == defs[v].l || t == defs[v].r)
    requires SameConst(defs, s, t) && Width(f.types, u) == Width(f.types, v)
    ensures Get(env, s) == Get(env, t) && defs[u].d == u && defs[v].d == v
    ensures Get(env, u) == Eval(I, f.types, defs[u], env) && Get(env, v) == Eval(I, f.types, defs[v], env)
  {
    assert s in Uses(defs[u]) && t in Uses(defs[v]);
    StepSettled(I, f, defs, env, p, u, s);
    StepSettled(I, f, defs, env, p, v, t);
    SameConstEqual(I, f, defs, env, p, s, t);
  }

  /** On a back edge both phis are updated alike. */
  lemma UpdatedAlike(f: Func, edges: Edges, defs: Defs, h: BlockId, i: nat, j: nat, p: BlockId)
    requires EqualPhis(f, edges, defs, h, i, j) && p in InstOf(f, h, i).operands && BackEdge(edges, h, p)
    ensures p in InstOf(f, h, j).operands
    ensures var pa, pb := InstOf(f, h, i), InstOf(f, h, j);
            SameUpdate(defs, pa.d, pa.operands[p], pb.d, pb.operands[p])
  {
  }

  /** A back-edge update reads the phi, so the header lies on every path to the edge. */
  lemma UpdateSeesHeader(f: Func, defs: Defs, h: BlockId, i: nat, p: BlockId, b: Value, v: Value)
    requires WellFormed(f) && DefsOfFunc(f, defs) && HasInst(f, h, i) && InstOf(f, h, i).Phi?
    requires p in InstOf(f, h, i).operands
    requires SameUpdate(defs, InstOf(f, h, i).d, InstOf(f, h, i).operands[p], b, v)
    ensures DomPoint(f, h, i, p, Len(f, p))
  {
    var a, u := InstOf(f, h, i).d, InstOf(f, h, i).operands[p];
    assert DefAt(f, h, i, a);
    assert DefDominates(f, u, p, Len(f, p));
    if u != a || v != b {
      var c, k :| DefAt(f, c, k, u);
      assert a in Uses(InstOf(f, c, k));
      OperandDominates(f, c, k, p, a);
      assert DefDominates(f, a, p, Len(f, p));
    }
  }

  /** Once the header has been entered, the two phis hold the same value. */
  ghost predicate EqualOnceSeen(st: State, path: seq<BlockId>, h: BlockId, a: Value, b: Value) {
    st.At? && |path| > 0 && h in path[..|path| - 1] ==> Get(st.env, a) == Get(st.env, b)
  }

  lemma {:induction false} ExecKeeps(I: Interp, types: map<Value, Type>, insts: seq<Inst>, env: Env, trace: Trace,
                                     v: Value)
    requires forall i | i in insts && !i.Phi? :: Def(i) != Some(v)
    ensures var o := ExecAll(I, types, insts, env, trace); o.Goto? ==> Get(o.env, v) == Get(env, v)
  {
    if insts != [] && !IsTerminator(insts[0]) {
      var (e, t) := Exec(I, types, insts[0], env, trace);
      assert insts[0] in insts;
      if !insts[0].Phi? { ExecChangesOnlyDef(I, types, insts[0], env, trace, v); }
      ExecKeeps(I, types, insts[1..], e, t, v);
    }
  }

  /** Entering the header leaves the two phis equal, whichever edge is taken. */
  lemma EnterHeader(I: Interp, f: Func, edges: Edges, defs: Defs, h: BlockId, i: nat, j: nat, st: State,
                    path: seq<BlockId>)
    requires EqualPhis(f, edges, defs, h, i, j) && OnRun(I, f, st, path) && st.At? && st.block == h
    requires EqualOnceSeen(st, path, h, InstOf(f, h, i).d, InstOf(f, h, j).d)
    ensures var env := st.env + PhiValues(Find(f.blocks, h).value.insts, st.pred, st.env);
            Get(env, InstOf(f, h, i).d) == Get(env, InstOf(f, h, j).d)
  {
    HeaderPhi(f, h, i, st);
    HeaderPhi(f, h, j, st);
    if |path| > 1 { EdgeOperandsEqual(I, f, edges, defs, h, i, j, st, path); }
  }

  /** On entering the header a phi receives its operand. */
  lemma HeaderPhi(f: Func, h: BlockId, i: nat, st: State)
    requires UniqueDefs(f) && HasInst(f, h, i) && InstOf(f, h, i).Phi? && st.At? && st.block == h
    ensures Get(st.env + PhiValues(Find(f.blocks, h).value.insts, st.pred, st.env), InstOf(f, h, i).d)
         == PhiInput(InstOf(f, h, i), st.pred, st.env)
  {
    var insts := Find(f.blocks, h).value.insts;
    assert DefAt(f, h, i, insts[i].d);
    forall m | 0 <= m < |insts| && insts[m].Phi? && insts[m].d == insts[i].d ensures m == i {
      assert DefAt(f, h, m, insts[i].d);
    }
    PhiValueAt(insts, i, st.pred, st.env);
  }

  /** The two operands for the edge just taken are equal. */
  lemma EdgeOperandsEqual(I: Interp, f: Func, edges: Edges, defs: Defs, h: BlockId, i: nat, j: nat, st: State,
                          path: seq<BlockId>)
    requires EqualPhis(f, edges, defs, h, i, j) && OnRun(I, f, st, path) && st.At? && st.block == h && |path| > 1
    requires EqualOnceSeen(st, path, h, InstOf(f, h, i).d, InstOf(f, h, j).d)
    ensures PhiInput(InstOf(f, h, i), st.pred, st.env) == PhiInput(InstOf(f, h, j), st.pred, st.env)
  {
    var pa, pb := InstOf(f, h, i), InstOf(f, h, j);
    var p := path[|path| - 2];
    assert EdgeAt(f, path, |path| - 1);
    assert Edge(f, p, h) && p in Find(f.blocks, h).value.preds;
    assert p in pa.operands && p in pb.operands;
    var u, v := pa.operands[p], pb.operands[p];
    assert DefDominates(f, u, p, Len(f, p)) && DefDominates(f, v, p, Len(f, p));
    assert InstWidthsAgree(f.types, pa) && InstWidthsAgree(f.types, pb);
    if BackEdge(edges, h, p) {
      UpdatedAlike(f, edges, defs, h, i, j, p);
      UpdateSeesHeader(f, defs, h, i, p, pb.d, v);
      HeaderSeen(f, h, i, p, path);
      SameUpdateEqual(I, f, defs, st.env, p, pa.d, u, pb.d, v);
    } else {
      SameConstEqual(I, f, defs, st.env, p, u, v);
    }
  }

  /** What dominates the end of p lies on the path that came through p. */
  lemma HeaderSeen(f: Func, h: BlockId, i: nat, p: BlockId, path: seq<BlockId>)
    requires IsPath(f, path) && |path| > 1 && path[|path| - 2] == p && DomPoint(f, h, i, p, Len(f, p))
    ensures h in path[..|path| - 1]
  {
    PathPrefix(f, path, |path| - 2);
    var before := path[..|path| - 1];
    assert before == path[..(|path| - 2) + 1];
    if h != p { assert h in before[..|before| - 1]; }
  }

  ghost predicate EqualEntered(f: Func, st: State, h: BlockId, a: Value, b: Value) {
    st.At? && st.block == h && Find(f.blocks, h).Some? ==>
      var env := st.env + PhiValues(Find(f.blocks, h).value.insts, st.pred, st.env);
      Get(env, a) == Get(env, b)
  }

  lemma StepKeepsEqual(I: Interp, f: Func, h: BlockId, i: nat, j: nat, st: State, path: seq<BlockId>,
                       path': seq<BlockId>)
    requires UniqueDefs(f) && HasInst(f, h, i) && HasInst(f, h, j) && InstOf(f, h, i).Phi? && InstOf(f, h, j).Phi?
    requires st.At? && |path| > 0 && Last(path) == st.block
    requires EqualOnceSeen(st, path, h, InstOf(f, h, i).d, InstOf(f, h, j).d)
    requires EqualEntered(f, st, h, InstOf(f, h, i).d, InstOf(f, h, j).d)
    requires Step(I, f, st).At? ==> path' == path + [Step(I, f, st).block]
    ensures EqualOnceSeen(Step(I, f, st), path', h, InstOf(f, h, i).d, InstOf(f, h, j).d)
  {
    if Step(I, f, st).At? && h in path'[..|path'| - 1] {
      assert path'[..|path'| - 1] == path;
      StepKeepsPhi(I, f, h, i, st);
      StepKeepsPhi(I, f, h, j, st);
      assert path == path[..|path| - 1] + [st.block];
    }
  }

  /** A phi of h changes on entering h and nowhere else. */
  lemma StepKeepsPhi(I: Interp, f: Func, h: BlockId, i: nat, st: State)
    requires UniqueDefs(f) && HasInst(f, h, i) && InstOf(f, h, i).Phi?
    requires st.At? && Find(f.blocks, st.block).Some? && Step(I, f, st).At?
    ensures var v := InstOf(f, h, i).d;
            Get(Step(I, f, st).env, v)
            == if st.block == h then Get(st.env + PhiValues(Find(f.blocks, h).value.insts, st.pred, st.env), v)
               else Get(st.env, v)
  {
    var v := InstOf(f, h, i).d;
    var insts := Find(f.blocks, st.block).value.insts;
    OnlyHeaderDefines(f, h, i, st.block);
    ExecKeeps(I, f.types, insts, st.env + PhiValues(insts, st.pred, st.env), st.trace, v);
    PhiValuesDomain(insts, st.pred, st.env, v);
  }

  lemma OnlyHeaderDefines(f: Func, h: BlockId, i: nat, c: BlockId)
    requires UniqueDefs(f) && HasInst(f, h, i) && InstOf(f, h, i).Phi? && Find(f.blocks, c).Some?
    ensures forall x | x in Find(f.blocks, c).value.insts && (!x.Phi? || c != h) :: Def(x) != Some(InstOf(f, h, i).d)
  {
    var d := InstOf(f, h, i).d;
    assert DefAt(f, h, i, d);
    forall x | x in Find(f.blocks, c).value.insts && (!x.Phi? || c != h) ensures Def(x) != Some(d) {
      var k :| 0 <= k < |Find(f.blocks, c).value.insts| && Find(f.blocks, c).value.insts[k] == x;
      if Def(x) == Some(d) { assert DefAt(f, c, k, d); }
    }
  }

  lemma {:induction false} EqualAlongRun(I: Interp, f: Func, edges: Edges, defs: Defs, h: BlockId, i: nat, j: nat,
                                         env: Env, n: nat)
    returns (path: seq<BlockId>)
    requires EqualPhis(f, edges, defs, h, i, j)
    ensures OnRun(I, f, Run(I, f, Start(f, env), n), path)
    ensures EqualOnceSeen(Run(I, f, Start(f, env), n), path, h, InstOf(f, h, i).d, InstOf(f, h, j).d)
  {
    if n == 0 {
      path := [f.entry];
    } else {
      var before := EqualAlongRun(I, f, edges, defs, h, i, j, env, n - 1);
      var st := Run(I, f, Start(f, env), n - 1);
      path := StepOnRun(I, f, st, before);
      if st.At? {
        if st.block == h { EnterHeader(I, f, edges, defs, h, i, j, st, before); }
        StepKeepsEqual(I, f, h, i, j, st, before, path);
      }
    }
  }

  /** Detected phis are equal at every visit to their header in every run. */
  lemma DetectedPhisEqual(I: Interp, f: Func, edges: Edges, defs: Defs, h: BlockId, i: nat, j: nat, env: Env, n: nat)
    requires EqualPhis(f, edges, defs, h, i, j)
    requires Run(I, f, Start(f, env), n).At? && Run(I, f, Start(f, env), n).block == h
    ensures var st := Run(I, f, Start(f, env), n);
            var entered := st.env + PhiValues(Find(f.blocks, h).value.insts, st.pred, st.env);
            Get(entered, InstOf(f, h, i).d) == Get(entered, InstOf(f, h, j).d)
  {
    var path := EqualAlongRun(I, f, edges, defs, h, i, j, env, n);
    EnterHeader(I, f, edges, defs, h, i, j, Run(I, f, Start(f, env), n), path);
  }

  // ----- two counters -----

  /** a = phi(start, a + step) and b = phi(start, b + step) in block 1, entered from block 0. */
  lemma CountersDetected(defs: Defs, a: Value, b: Value, start: Value, step: Value, u: Value, v: Value)
    requires u in defs && defs[u] == Arith(Add, u, a, step)
    requires v in defs && (defs[v] == Arith(Add, v, b, step) || defs[v] == Arith(Add, v, step, b))
    ensures Detected({(0, 1), (1, 1)}, defs, 1, a, map[0 := start, 1 := u], b, map[0 := start, 1 := v])
  {
    var edges: Edges := {(0, 1), (1, 1)};
    ReachesSelf(edges, 1);
    if Reaches(edges, 1, 0) {
      var w :| Walk(edges, w) && w[0] == 1 && w[|w| - 1] == 0;
      WalkStaysIn(edges, w, {1});
    }
    DetectedExactly(edges, defs, 1, a, map[0 := start, 1 := u], b, map[0 := start, 1 := v]);
  }
}
