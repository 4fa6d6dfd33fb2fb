/** Runs of loop-free integer code: each block runs at most once, every read is of a value already
    set, values stay within their widths, and nothing set is ever changed. */
module IntegerRuns {
  import opened Types
  import Bits
  import opened Ir
  import opened Ssa
  import opened Reach
  import opened Encoding
  import opened Translation

  /** Loop-free code whose control follows the recorded edges. */
  ghost predicate Controlled(f: Func) {
    && ControlOk(f) && Translatable(f) && Find(f.blocks, f.entry).Some?
    && forall p: BlockId, b: BlockId | Edge(f, p, b) :: Find(f.blocks, b).Some? && (p, b) in ControlEdges(f.blocks)
  }

  /** Loop-free, well-formed integer code; the entry block has no phis. */
  ghost predicate Encodable(f: Func) {
    && WellFormed(f) && Controlled(f)
    && forall i | HasInst(f, f.entry, i) :: !InstOf(f, f.entry, i).Phi?
  }

  lemma InstAt(f: Func, b: BlockId, i: nat)
    requires Translatable(f) && HasInst(f, b, i)
    ensures IntegerInst(f.types, InstOf(f, b, i))
    ensures forall v | v in MentionedIn(InstOf(f, b, i)) :: v in Values(f)
  {
    var blk := Find(f.blocks, b).value;
    assert IntegerBlock(f, blk) && InstOf(f, b, i) in blk.insts;
  }

  // ----- inside one block -----

  /** The environment before instruction n of a list. */
  function EnvBefore(I: Interp, types: map<Value, Type>, insts: seq<Inst>, n: nat, env: Env, trace: Trace): (Env, Trace)
    requires n <= |insts|
  {
    if n == 0 then (env, trace)
    else
      var (e, t) := EnvBefore(I, types, insts, n - 1, env, trace);
      if IsTerminator(insts[n - 1]) then (e, t) else Exec(I, types, insts[n - 1], e, t)
  }

  lemma {:induction false} ExecAllFrom(I: Interp, types: map<Value, Type>, insts: seq<Inst>, n: nat, env: Env,
                                       trace: Trace)
    requires n <= |insts| && forall k | 0 <= k < n :: !IsTerminator(insts[k])
    ensures ExecAll(I, types, insts, env, trace)
         == var (e, t) := EnvBefore(I, types, insts, n, env, trace);
            ExecAll(I, types, insts[n..], e, t)
  {
    if n == 0 {
      assert insts[0..] == insts;
    } else {
      ExecAllFrom(I, types, insts, n - 1, env, trace);
      assert insts[n - 1..][0] == insts[n - 1] && insts[n - 1..][1..] == insts[n..];
    }
  }

  /** The environment in which a block's instructions start. */
  function Entered(f: Func, st: State): Env
    requires st.At? && Find(f.blocks, st.block).Some?
  {
    st.env + PhiValues(Find(f.blocks, st.block).value.insts, st.pred, st.env)
  }

  /** The environment before instruction i of the block the run is in. */
  function Before(I: Interp, f: Func, st: State, i: nat): Env
    requires st.At? && Find(f.blocks, st.block).Some? && i <= Len(f, st.block)
  {
    EnvBefore(I, f.types, Find(f.blocks, st.block).value.insts, i, Entered(f, st), st.trace).0
  }

  /** What one instruction leaves: an operation sets its result, anything else nothing. */
  function Computed(types: map<Value, Type>, i: Inst, env: Env): Env {
    if IsIntegerOp(i) then env[i.d := Eval(NoInterp(), types, i, env)] else env
  }

  /** Integer operations mean the same under every interpretation. */
  lemma ExecComputed(I: Interp, types: map<Value, Type>, i: Inst, env: Env, trace: Trace)
    requires IsInteger(i) && !IsTerminator(i)
    ensures Exec(I, types, i, env, trace).0 == Computed(types, i, env)
  {
  }

  lemma BeforeNext(I: Interp, f: Func, st: State, i: nat)
    requires Translatable(f) && st.At? && HasInst(f, st.block, i)
    ensures Before(I, f, st, i + 1) == Computed(f.types, InstOf(f, st.block, i), Before(I, f, st, i))
  {
    var insts := Find(f.blocks, st.block).value.insts;
    InstAt(f, st.block, i);
    var (e, t) := EnvBefore(I, f.types, insts, i, Entered(f, st), st.trace);
    if !IsTerminator(insts[i]) { ExecComputed(I, f.types, insts[i], e, t); }
  }

  /** Where the last instruction of a block sends control. */
  function NextBlock(I: Interp, i: Inst, env: Env): Option<BlockId> {
    if i.Jump? then Some(i.target)
    else if i.Branch? then Some(if I.taken(Get(env, i.cond)) then i.onTrue else i.onFalse)
    else None
  }

  /** next is where the block of st hands control. */
  ghost predicate Follows(I: Interp, f: Func, st: State, next: State) {
    && st.At? && Find(f.blocks, st.block).Some? && next.At?
    && var n := Len(f, st.block);
    && n > 0 && next.pred == Some(st.block)
    && NextBlock(I, InstOf(f, st.block, n - 1), next.env) == Some(next.block)
    && (st.block, next.block) in ControlEdges(f.blocks) && Edge(f, st.block, next.block)
    && Find(f.blocks, next.block).Some?
  }

  /** next has everything the block of st computed. */
  ghost predicate HandsOver(I: Interp, f: Func, st: State, next: State) {
    st.At? && Find(f.blocks, st.block).Some? && next.At? && next.env == Before(I, f, st, Len(f, st.block))
  }

  lemma LastInst(f: Func, b: BlockId)
    requires Controlled(f) && Len(f, b) > 0
    ensures var insts := Find(f.blocks, b).value.insts;
            forall k | 0 <= k < |insts| - 1 :: !IsTerminator(insts[k])
    ensures var last := InstOf(f, b, Len(f, b) - 1);
            forall t | t in Targets(Find(f.blocks, b).value) ::
              (b, t) in ControlEdges(f.blocks) && Edge(f, b, t) && Find(f.blocks, t).Some?
  {
    var blk := Find(f.blocks, b).value;
    var last := InstOf(f, b, Len(f, b) - 1);
    assert IntegerBlock(f, blk) && HasInst(f, b, Len(f, b) - 1);
    assert JumpsAlongEdges(f, b, last);
    TargetDeclared(f, blk, last);
  }

  /** What the instructions of a block come to, by its last one. */
  lemma BlockOutcome(I: Interp, f: Func, insts: seq<Inst>, env: Env, trace: Trace)
    requires forall k | 0 <= k < |insts| - 1 :: !IsTerminator(insts[k])
    ensures var o, n := ExecAll(I, f.types, insts, env, trace), |insts|;
            if n > 0 && NextBlock(I, insts[n - 1], EnvBefore(I, f.types, insts, n, env, trace).0).Some?
            then o.Goto? && o.env == EnvBefore(I, f.types, insts, n, env, trace).0
                 && Some(o.target) == NextBlock(I, insts[n - 1], o.env)
            else !o.Goto?
  {
    var n := |insts|;
    if n > 0 {
      ExecAllFrom(I, f.types, insts, n - 1, env, trace);
      assert insts[n - 1..] == [insts[n - 1]] && [insts[n - 1]][1..] == [];
    }
  }

  lemma StepFollows(I: Interp, f: Func, st: State)
    requires Controlled(f) && st.At? && Find(f.blocks, st.block).Some?
    ensures Step(I, f, st).At? ==> Follows(I, f, st, Step(I, f, st)) && HandsOver(I, f, st, Step(I, f, st))
    ensures !Step(I, f, st).At? ==> Targets(Find(f.blocks, st.block).value) == {}
  {
    var insts := Find(f.blocks, st.block).value.insts;
    if |insts| > 0 { LastInst(f, st.block); }
    BlockOutcome(I, f, insts, Entered(f, st), st.trace);
  }

  // ----- the blocks of a run -----

  function StateAt(I: Interp, f: Func, env: Env, n: nat): State {
    Run(I, f, Start(f, env), n)
  }

  lemma {:induction false} EarlierAt(I: Interp, f: Func, env: Env, n: nat, k: nat)
    requires StateAt(I, f, env, n).At? && k <= n
    ensures StateAt(I, f, env, k).At?
  {
    if k < n {
      assert StateAt(I, f, env, n) == Step(I, f, StateAt(I, f, env, n - 1));
      EarlierAt(I, f, env, n - 1, k);
    }
  }

  lemma {:induction false} RunFound(I: Interp, f: Func, env: Env, n: nat)
    requires Controlled(f) && StateAt(I, f, env, n).At?
    ensures Find(f.blocks, StateAt(I, f, env, n).block).Some?
    ensures n > 0 ==> Follows(I, f, StateAt(I, f, env, n - 1), StateAt(I, f, env, n))
  {
    if n > 0 {
      var prev := StateAt(I, f, env, n - 1);
      assert StateAt(I, f, env, n) == Step(I, f, prev);
      RunFound(I, f, env, n - 1);
      StepFollows(I, f, prev);
    }
  }

  /** A block that jumps or branches is followed by its target. */
  lemma StepsOn(I: Interp, f: Func, env: Env, n: nat)
    requires Controlled(f) && StateAt(I, f, env, n).At? && Find(f.blocks, StateAt(I, f, env, n).block).Some?
    requires Targets(Find(f.blocks, StateAt(I, f, env, n).block).value) != {}
    ensures Follows(I, f, StateAt(I, f, env, n), StateAt(I, f, env, n + 1))
  {
    StepFollows(I, f, StateAt(I, f, env, n));
  }

  lemma RunHands(I: Interp, f: Func, env: Env, n: nat)
    requires Controlled(f) && StateAt(I, f, env, n).At? && StateAt(I, f, env, n + 1).At?
    ensures HandsOver(I, f, StateAt(I, f, env, n), StateAt(I, f, env, n + 1))
  {
    RunFound(I, f, env, n);
    StepFollows(I, f, StateAt(I, f, env, n));
  }

  lemma StepEdge(I: Interp, f: Func, env: Env, k: nat)
    requires Controlled(f) && 0 < k && StateAt(I, f, env, k).At?
    ensures StateAt(I, f, env, k - 1).At?
    ensures (StateAt(I, f, env, k - 1).block, StateAt(I, f, env, k).block) in ControlEdges(f.blocks)
  {
    EarlierAt(I, f, env, k, k - 1);
    RunFound(I, f, env, k);
  }

  /** Control edges lead from any block of a run to any later one. */
  lemma {:induction false} RunReaches(I: Interp, f: Func, env: Env, j: nat, n: nat)
    requires Controlled(f) && StateAt(I, f, env, n).At? && j <= n
    ensures StateAt(I, f, env, j).At?
    ensures Reaches(ControlEdges(f.blocks), StateAt(I, f, env, j).block, StateAt(I, f, env, n).block)
    decreases n
  {
    var edges := ControlEdges(f.blocks);
    if j == n {
      ReachesSelf(edges, StateAt(I, f, env, n).block);
    } else {
      StepEdge(I, f, env, n);
      RunReaches(I, f, env, j, n - 1);
      ReachesStep(edges, StateAt(I, f, env, j).block, StateAt(I, f, env, n - 1).block, StateAt(I, f, env, n).block);
    }
  }

  /** No block runs twice. */
  lemma NoRevisit(I: Interp, f: Func, env: Env, j: nat, n: nat)
    requires Controlled(f) && StateAt(I, f, env, n).At? && j < n
    ensures StateAt(I, f, env, j).At? && StateAt(I, f, env, j).block != StateAt(I, f, env, n).block
  {
    StepEdge(I, f, env, n);
    RunReaches(I, f, env, j, n - 1);
    NoLoopHeader(ControlEdges(f.blocks), StateAt(I, f, env, n).block, StateAt(I, f, env, n - 1).block);
  }

  lemma SameStep(I: Interp, f: Func, env: Env, j: nat, n: nat)
    requires Controlled(f) && StateAt(I, f, env, j).At? && StateAt(I, f, env, n).At?
    requires StateAt(I, f, env, j).block == StateAt(I, f, env, n).block
    ensures j == n
  {
    if j < n { NoRevisit(I, f, env, j, n); }
    if n < j { NoRevisit(I, f, env, n, j); }
  }

  /** The predecessor a state records is the block of the step before. */
  lemma PredOf(I: Interp, f: Func, env: Env, k: nat)
    requires Controlled(f) && StateAt(I, f, env, k).At? && StateAt(I, f, env, k).pred.Some?
    ensures k > 0 && StateAt(I, f, env, k - 1).At?
    ensures StateAt(I, f, env, k).pred == Some(StateAt(I, f, env, k - 1).block)
    ensures (StateAt(I, f, env, k - 1).block, StateAt(I, f, env, k).block) in ControlEdges(f.blocks)
  {
    if k > 0 { RunFound(I, f, env, k); }
  }

  /** The blocks entered before step n. */
  function Seen(I: Interp, f: Func, env: Env, n: nat): set<BlockId> {
    set k: nat | k < n && StateAt(I, f, env, k).At? :: StateAt(I, f, env, k).block
  }

  lemma SeenNext(I: Interp, f: Func, env: Env, n: nat)
    requires StateAt(I, f, env, n).At?
    ensures Seen(I, f, env, n + 1) == Seen(I, f, env, n) + {StateAt(I, f, env, n).block}
  {
  }

  lemma SeenIsNew(I: Interp, f: Func, env: Env, n: nat)
    requires Controlled(f) && StateAt(I, f, env, n).At?
    ensures StateAt(I, f, env, n).block !in Seen(I, f, env, n)
    ensures StateAt(I, f, env, n).block in Ids(f)
  {
    RunFound(I, f, env, n);
    assert Find(f.blocks, StateAt(I, f, env, n).block).value in f.blocks;
    forall j: nat | j < n
      ensures StateAt(I, f, env, j).At? && StateAt(I, f, env, j).block != StateAt(I, f, env, n).block
    {
      NoRevisit(I, f, env, j, n);
    }
  }

  lemma CountNext(I: Interp, f: Func, env: Env, n: nat)
    requires Controlled(f) && StateAt(I, f, env, n).At? && Seen(I, f, env, n) <= Ids(f) && |Seen(I, f, env, n)| == n
    ensures Seen(I, f, env, n + 1) <= Ids(f) && |Seen(I, f, env, n + 1)| == n + 1
  {
    SeenIsNew(I, f, env, n);
    SeenNext(I, f, env, n);
  }

  lemma {:induction false} SeenCount(I: Interp, f: Func, env: Env, n: nat)
    requires Controlled(f) && StateAt(I, f, env, n).At?
    ensures Seen(I, f, env, n) <= Ids(f) && |Seen(I, f, env, n)| == n
  {
    if n == 0 {
      assert Seen(I, f, env, 0) == {};
    } else {
      EarlierAt(I, f, env, n, n - 1);
      SeenCount(I, f, env, n - 1);
      CountNext(I, f, env, n - 1);
    }
  }

  /** A run is over after at most as many steps as there are blocks. */
  lemma RunEnds(I: Interp, f: Func, env: Env, n: nat)
    requires Controlled(f) && StateAt(I, f, env, n).At?
    ensures n < |Ids(f)|
  {
    SeenCount(I, f, env, n);
    SeenIsNew(I, f, env, n);
    Smaller(Seen(I, f, env, n), Ids(f), StateAt(I, f, env, n).block);
  }

  lemma Smaller(s: set<BlockId>, t: set<BlockId>, b: BlockId)
    requires s <= t && b in t - s
    ensures |s| < |t|
  {
    assert t == s + (t - s) && |t| == |s| + |t - s|;
  }

  // ----- the values of a run -----

  ghost predicate Defined(f: Func, v: Value) {
    exists a, j :: DefAt(f, a, j, v)
  }

  /** The inputs: the values no instruction defines. */
  ghost function Params(f: Func): set<Value> {
    set v | v in Values(f) && !Defined(f, v)
  }

  ghost predicate InRange(f: Func, env: Env) {
    forall v | v in env :: v in Values(f) && env[v].Int? && env[v].n < Bits.Pow2(Width(f.types, v))
  }

  /** Any assignment of patterns of the right widths to the inputs. */
  ghost predicate Inputs(f: Func, env: Env) {
    env.Keys == Params(f) && InRange(f, env)
  }

  /** Every value whose definition has run is there. */
  ghost predicate Ready(f: Func, env: Env, b: BlockId, i: nat) {
    forall v {:trigger DefDominates(f, v, b, i)} | v in Values(f) && DefDominates(f, v, b, i) :: v in env
  }

  /** Only definitions in blocks already left, or already passed in this one, have been set. */
  ghost predicate OnlyPassed(f: Func, env: Env, seen: set<BlockId>, b: BlockId, i: nat) {
    forall v, a, j: nat | v in env && DefAt(f, a, j, v) ::
      a in seen || (a == b && (j < i || InstOf(f, a, j).Phi?))
  }

  ghost predicate Extends(env: Env, env': Env) {
    forall v | v in env :: v in env' && env'[v] == env[v]
  }

  lemma ExtendsFurther(a: Env, b: Env, c: Env)
    requires Extends(a, b) && Extends(b, c)
    ensures Extends(a, c)
  {
  }

  ghost predicate PhisSet(f: Func, env: Env, b: BlockId) {
    forall i | HasInst(f, b, i) && InstOf(f, b, i).Phi? :: InstOf(f, b, i).d in env
  }

  /** The invariant inside a block, before instruction i. */
  ghost predicate Inside(f: Func, env: Env, seen: set<BlockId>, b: BlockId, i: nat) {
    InRange(f, env) && Ready(f, env, b, i) && OnlyPassed(f, env, seen, b, i) && PhisSet(f, env, b)
  }

  /** The invariant between blocks. */
  ghost predicate Between(f: Func, st: State, seen: set<BlockId>) {
    && st.At? && Find(f.blocks, st.block).Some? && st.block !in seen
    && InRange(f, st.env)
    && (forall v, a, j | v in st.env && DefAt(f, a, j, v) :: a in seen)
    && (if st.pred.None? then st.block == f.entry && Ready(f, st.env, f.entry, 0)
        else Edge(f, st.pred.value, st.block) && Ready(f, st.env, st.pred.value, Len(f, st.pred.value)))
  }

  lemma ArithInRange(op: ArithOp, a: nat, b: nat, w: nat)
    ensures EvalArith(op, a, b, w) < Bits.Pow2(w)
  {
    if op == UDiv && Bits.Wrap(b, w) != 0 {
      QuotientSmall(Bits.Wrap(a, w), Bits.Wrap(b, w));
    } else if op == URem && Bits.Wrap(b, w) != 0 {
      RemainderSmall(Bits.Wrap(a, w), Bits.Wrap(b, w));
    }
  }

  lemma QuotientSmall(a: nat, b: nat)
    requires b > 0
    ensures a / b <= a
  {
    assert a == b * (a / b) + a % b;
    Bits.MulAtLeast(b, a / b);
  }

  lemma RemainderSmall(a: nat, b: nat)
    requires b > 0
    ensures a % b <= a
  {
    if a < b { Bits.DivModUnique(a, b, 0, a); }
  }

  lemma OperandReady(f: Func, env: Env, b: BlockId, i: nat, v: Value)
    requires UsesDominated(f) && Translatable(f)
    requires HasInst(f, b, i) && v in Uses(InstOf(f, b, i)) && Ready(f, env, b, i)
    ensures v in env
  {
    InstAt(f, b, i);
    assert v in MentionedIn(InstOf(f, b, i));
    assert DefDominates(f, v, b, i);
  }

  /** An integer operation on patterns of the right widths gives one. */
  lemma OpInRange(types: map<Value, Type>, i: Inst, env: Env)
    requires IsIntegerOp(i) && IntegerInst(types, i)
    requires forall v | v in Uses(i) :: v in env && env[v].Int? && env[v].n < Bits.Pow2(Width(types, v))
    ensures var r := Eval(NoInterp(), types, i, env); r.Int? && r.n < Bits.Pow2(Width(types, i.d))
  {
    if i.Arith? {
      assert i.l in Uses(i) && i.r in Uses(i);
      ArithInRange(i.aop, env[i.l].n, env[i.r].n, Width(types, i.d));
    } else if i.Neg? || i.Assign? {
      assert i.s in Uses(i);
    } else if i.Cmp? {
      assert i.l in Uses(i) && i.r in Uses(i);
      assert i.d in MentionedIn(i) && Width(types, i.d) > 0;
      assert Bits.Pow2(Width(types, i.d)) >= 2;
    }
  }

  /** What is ready after instruction i was ready before it or is what it defines. */
  lemma ReadyNext(f: Func, env: Env, b: BlockId, i: nat, v: Value)
    requires HasInst(f, b, i) && Ready(f, env, b, i)
    requires v in Values(f) && DefDominates(f, v, b, i + 1)
    ensures v in env || Def(InstOf(f, b, i)) == Some(v)
  {
    if Def(InstOf(f, b, i)) != Some(v) {
      forall a, j | DefAt(f, a, j, v) ensures DomPoint(f, a, j, b, i) {
        assert DomPoint(f, a, j, b, i + 1);
      }
      assert DefDominates(f, v, b, i);
    }
  }

  /** What an operation computes from ready operands, and that it was not set before. */
  lemma OpResult(f: Func, env: Env, seen: set<BlockId>, b: BlockId, i: nat)
    requires Encodable(f) && HasInst(f, b, i) && b !in seen && Inside(f, env, seen, b, i)
    requires IsIntegerOp(InstOf(f, b, i))
    ensures var inst := InstOf(f, b, i);
            var r := Eval(NoInterp(), f.types, inst, env);
            r.Int? && r.n < Bits.Pow2(Width(f.types, inst.d)) && inst.d in Values(f) && inst.d !in env
  {
    var inst := InstOf(f, b, i);
    InstAt(f, b, i);
    assert DefAt(f, b, i, inst.d) && inst.d in MentionedIn(inst);
    forall v | v in Uses(inst) ensures v in env { OperandReady(f, env, b, i, v); }
    OpInRange(f.types, inst, env);
  }

  lemma OpPassed(f: Func, env: Env, seen: set<BlockId>, b: BlockId, i: nat, x: Data)
    requires UniqueDefs(f) && HasInst(f, b, i) && OnlyPassed(f, env, seen, b, i) && IsIntegerOp(InstOf(f, b, i))
    ensures OnlyPassed(f, env[InstOf(f, b, i).d := x], seen, b, i + 1)
  {
    assert DefAt(f, b, i, InstOf(f, b, i).d);
  }

  /** One instruction changes nothing that was set, and what it sets is in range. */
  lemma ComputedExtends(f: Func, env: Env, seen: set<BlockId>, b: BlockId, i: nat)
    requires Encodable(f) && HasInst(f, b, i) && b !in seen && Inside(f, env, seen, b, i)
    ensures var env' := Computed(f.types, InstOf(f, b, i), env);
            InRange(f, env') && Extends(env, env') && OnlyPassed(f, env', seen, b, i + 1)
  {
    var inst := InstOf(f, b, i);
    if IsIntegerOp(inst) {
      OpResult(f, env, seen, b, i);
      OpPassed(f, env, seen, b, i, Eval(NoInterp(), f.types, inst, env));
    }
  }

  /** What one instruction defines is in what it leaves. */
  lemma ComputedReady(f: Func, env: Env, b: BlockId, i: nat)
    requires Translatable(f) && HasInst(f, b, i) && Ready(f, env, b, i) && PhisSet(f, env, b)
    ensures Ready(f, Computed(f.types, InstOf(f, b, i), env), b, i + 1)
  {
    InstAt(f, b, i);
    var env' := Computed(f.types, InstOf(f, b, i), env);
    forall v | v in Values(f) && DefDominates(f, v, b, i + 1) ensures v in env' {
      ReadyNext(f, env, b, i, v);
    }
  }

  /** One instruction keeps the invariant. */
  lemma ComputedInside(f: Func, env: Env, seen: set<BlockId>, b: BlockId, i: nat)
    requires Encodable(f) && HasInst(f, b, i) && b !in seen && Inside(f, env, seen, b, i)
    ensures var env' := Computed(f.types, InstOf(f, b, i), env);
            Inside(f, env', seen, b, i + 1) && Extends(env, env')
  {
    ComputedExtends(f, env, seen, b, i);
    ComputedReady(f, env, b, i);
  }

  // ----- entering a block -----

  /** The operand for the taken edge is set, and is of the phi's width. */
  lemma PhiOperand(f: Func, st: State, seen: set<BlockId>, k: nat)
    requires Encodable(f) && Between(f, st, seen)
    requires HasInst(f, st.block, k) && InstOf(f, st.block, k).Phi?
    ensures st.pred.Some? && st.pred.value in InstOf(f, st.block, k).operands
    ensures var i := InstOf(f, st.block, k);
            var s := i.operands[st.pred.value];
            s in st.env && i.d in Values(f) && Width(f.types, i.d) == Width(f.types, s)
  {
    PhiKeyed(f, st.block, k, st.pred.value);
    PhiTyped(f, st.block, k, st.pred.value);
  }

  lemma PhiKeyed(f: Func, b: BlockId, k: nat, p: BlockId)
    requires PredsMatch(f) && PhiKeysArePreds(f) && PhiInputsDominated(f) && Edge(f, p, b)
    requires HasInst(f, b, k) && InstOf(f, b, k).Phi?
    ensures p in InstOf(f, b, k).operands && DefDominates(f, InstOf(f, b, k).operands[p], p, Len(f, p))
  {
    assert p in Find(f.blocks, b).value.preds;
  }

  lemma PhiTyped(f: Func, b: BlockId, k: nat, p: BlockId)
    requires Encodable(f) && HasInst(f, b, k) && InstOf(f, b, k).Phi? && p in InstOf(f, b, k).operands
    ensures var i := InstOf(f, b, k);
            i.d in Values(f) && i.operands[p] in Values(f) && Width(f.types, i.d) == Width(f.types, i.operands[p])
  {
    var i := InstOf(f, b, k);
    InstAt(f, b, k);
    assert i.d in MentionedIn(i) && i.operands[p] in MentionedIn(i);
  }

  /** A phi receives its operand for the taken edge. */
  lemma PhiEntered(f: Func, st: State, seen: set<BlockId>, k: nat)
    requires Encodable(f) && Between(f, st, seen)
    requires HasInst(f, st.block, k) && InstOf(f, st.block, k).Phi?
    ensures st.pred.Some? && st.pred.value in InstOf(f, st.block, k).operands
    ensures var i := InstOf(f, st.block, k);
            var s := i.operands[st.pred.value];
            i.d in Values(f) && Width(f.types, i.d) == Width(f.types, s)
            && s in st.env && i.d !in st.env && i.d in Entered(f, st) && Entered(f, st)[i.d] == st.env[s]
  {
    PhiOperand(f, st, seen, k);
    var i := InstOf(f, st.block, k);
    assert DefAt(f, st.block, k, i.d);
    PhiSet(f, st, k);
  }

  lemma PhiSet(f: Func, st: State, k: nat)
    requires UniqueDefs(f) && st.At? && HasInst(f, st.block, k) && InstOf(f, st.block, k).Phi?
    ensures var i := InstOf(f, st.block, k);
            i.d in Entered(f, st) && Entered(f, st)[i.d] == PhiInput(i, st.pred, st.env)
  {
    var i := InstOf(f, st.block, k);
    var insts := Find(f.blocks, st.block).value.insts;
    assert DefAt(f, st.block, k, i.d);
    forall m | 0 <= m < |insts| && insts[m].Phi? && insts[m].d == i.d ensures m == k {
      assert DefAt(f, st.block, m, i.d);
    }
    PhiValueAt(insts, k, st.pred, st.env);
  }

  /** What a phi list sets is set by one of its phis. */
  lemma PhiOrKept(f: Func, st: State, v: Value) returns (k: nat)
    requires st.At? && Find(f.blocks, st.block).Some? && v in Entered(f, st)
    ensures v in st.env || (HasInst(f, st.block, k) && InstOf(f, st.block, k).Phi? && InstOf(f, st.block, k).d == v)
  {
    var insts := Find(f.blocks, st.block).value.insts;
    k := 0;
    PhiValuesDomain(insts, st.pred, st.env, v);
    if v !in st.env {
      k :| 0 <= k < |insts| && insts[k].Phi? && insts[k].d == v;
    }
  }

  lemma EnteredKeeps(f: Func, st: State, seen: set<BlockId>)
    requires Encodable(f) && Between(f, st, seen)
    ensures Extends(st.env, Entered(f, st))
  {
    var insts := Find(f.blocks, st.block).value.insts;
    forall v | v in st.env ensures v in Entered(f, st) && Entered(f, st)[v] == st.env[v] {
      PhiValuesDomain(insts, st.pred, st.env, v);
      if v in PhiValues(insts, st.pred, st.env) {
        var k :| 0 <= k < |insts| && insts[k].Phi? && insts[k].d == v;
        PhiEntered(f, st, seen, k);
      }
    }
  }

  /** What dominates the start of a block was ready at the end of the predecessor. */
  lemma ReadyAtEntry(f: Func, st: State, seen: set<BlockId>, v: Value)
    requires Encodable(f) && Between(f, st, seen) && v in Values(f) && DefDominates(f, v, st.block, 0)
    ensures v in st.env
  {
    if st.pred.Some? {
      var p := st.pred.value;
      forall a, j | DefAt(f, a, j, v) ensures DomPoint(f, a, j, p, Len(f, p)) {
        assert DomPoint(f, a, j, st.block, 0);
        DomAtEdge(f, a, j, p, st.block);
      }
      assert DefDominates(f, v, p, Len(f, p));
    }
  }

  lemma EnteredInRange(f: Func, st: State, seen: set<BlockId>)
    requires Encodable(f) && Between(f, st, seen)
    ensures InRange(f, Entered(f, st))
  {
    var env := Entered(f, st);
    EnteredKeeps(f, st, seen);
    forall v | v in env ensures v in Values(f) && env[v].Int? && env[v].n < Bits.Pow2(Width(f.types, v)) {
      var k := PhiOrKept(f, st, v);
      if v !in st.env { PhiEntered(f, st, seen, k); }
    }
  }

  lemma EnteredPassed(f: Func, st: State, seen: set<BlockId>)
    requires UniqueDefs(f) && Between(f, st, seen)
    ensures OnlyPassed(f, Entered(f, st), seen, st.block, 0)
  {
    forall v, a, j: nat | v in Entered(f, st) && DefAt(f, a, j, v)
      ensures a in seen || (a == st.block && InstOf(f, a, j).Phi?)
    {
      var k := PhiOrKept(f, st, v);
      if v !in st.env { assert DefAt(f, st.block, k, v); }
    }
  }

  lemma EnterInside(f: Func, st: State, seen: set<BlockId>)
    requires Encodable(f) && Between(f, st, seen)
    ensures Inside(f, Entered(f, st), seen, st.block, 0) && Extends(st.env, Entered(f, st))
  {
    EnteredKeeps(f, st, seen);
    EnteredInRange(f, st, seen);
    EnteredPassed(f, st, seen);
    forall v | v in Values(f) && DefDominates(f, v, st.block, 0) ensures v in Entered(f, st) {
      ReadyAtEntry(f, st, seen, v);
    }
    forall k | HasInst(f, st.block, k) && InstOf(f, st.block, k).Phi?
      ensures InstOf(f, st.block, k).d in Entered(f, st)
    {
      PhiEntered(f, st, seen, k);
    }
  }

  // ----- through a block -----

  lemma NextInside(I: Interp, f: Func, st: State, seen: set<BlockId>, i: nat)
    requires Encodable(f) && st.At? && st.block !in seen && HasInst(f, st.block, i)
    requires Inside(f, Before(I, f, st, i), seen, st.block, i)
    ensures Inside(f, Before(I, f, st, i + 1), seen, st.block, i + 1)
    ensures Extends(Before(I, f, st, i), Before(I, f, st, i + 1))
  {
    BeforeNext(I, f, st, i);
    ComputedInside(f, Before(I, f, st, i), seen, st.block, i);
  }

  lemma {:induction false} BlockInside(I: Interp, f: Func, st: State, seen: set<BlockId>, i: nat)
    requires Encodable(f) && Between(f, st, seen) && i <= Len(f, st.block)
    ensures Inside(f, Before(I, f, st, i), seen, st.block, i)
  {
    if i == 0 {
      EnterInside(f, st, seen);
    } else {
      BlockInside(I, f, st, seen, i - 1);
      NextInside(I, f, st, seen, i - 1);
    }
  }

  lemma NextGrows(I: Interp, f: Func, st: State, seen: set<BlockId>, settled: Env, i: nat)
    requires Encodable(f) && Between(f, st, seen) && HasInst(f, st.block, i) && Extends(settled, Before(I, f, st, i))
    ensures Extends(settled, Before(I, f, st, i + 1))
  {
    BlockInside(I, f, st, seen, i);
    NextInside(I, f, st, seen, i);
    ExtendsFurther(settled, Before(I, f, st, i), Before(I, f, st, i + 1));
  }

  lemma {:induction false} BlockGrows(I: Interp, f: Func, st: State, seen: set<BlockId>, i: nat, j: nat)
    requires Encodable(f) && Between(f, st, seen) && i <= j <= Len(f, st.block)
    ensures Extends(Before(I, f, st, i), Before(I, f, st, j))
  {
    if i < j {
      BlockGrows(I, f, st, seen, i, j - 1);
      NextGrows(I, f, st, seen, Before(I, f, st, i), j - 1);
    }
  }

  /** The result of an executed operation is set to what it computes from settled operands. */
  lemma OpComputed(I: Interp, f: Func, st: State, seen: set<BlockId>, i: nat)
    requires Encodable(f) && Between(f, st, seen) && HasInst(f, st.block, i) && IsIntegerOp(InstOf(f, st.block, i))
    ensures var inst := InstOf(f, st.block, i);
            Get(Before(I, f, st, i + 1), inst.d) == Eval(NoInterp(), f.types, inst, Before(I, f, st, i))
    ensures forall v | v in Uses(InstOf(f, st.block, i)) :: v in Before(I, f, st, i)
  {
    BlockInside(I, f, st, seen, i);
    BeforeNext(I, f, st, i);
    forall v | v in Uses(InstOf(f, st.block, i)) ensures v in Before(I, f, st, i) {
      OperandReady(f, Before(I, f, st, i), st.block, i, v);
    }
  }

  // ----- along the run -----

  lemma EntryUndominated(f: Func, a: BlockId)
    ensures !StrictDom(f, a, f.entry)
  {
    assert IsPath(f, [f.entry]) && Last([f.entry]) == f.entry;
  }

  lemma StartBetween(f: Func, env: Env)
    requires Encodable(f) && Inputs(f, env)
    ensures Between(f, Start(f, env), {})
  {
    forall v | v in Values(f) && DefDominates(f, v, f.entry, 0) ensures v in env {
      forall a, j ensures !DefAt(f, a, j, v) { EntryUndominated(f, a); }
      assert v in Params(f);
    }
  }

  lemma StepBetween(I: Interp, f: Func, st: State, seen: set<BlockId>, next: State)
    requires Encodable(f) && Between(f, st, seen) && Follows(I, f, st, next) && HandsOver(I, f, st, next)
    requires next.block !in seen + {st.block}
    ensures Between(f, next, seen + {st.block})
  {
    BlockInside(I, f, st, seen, Len(f, st.block));
  }

  lemma NextBetween(I: Interp, f: Func, env: Env, n: nat)
    requires Encodable(f) && StateAt(I, f, env, n).At? && StateAt(I, f, env, n + 1).At?
    requires Between(f, StateAt(I, f, env, n), Seen(I, f, env, n))
    ensures Between(f, StateAt(I, f, env, n + 1), Seen(I, f, env, n + 1))
  {
    var st, next := StateAt(I, f, env, n), StateAt(I, f, env, n + 1);
    RunFound(I, f, env, n + 1);
    RunHands(I, f, env, n);
    SeenIsNew(I, f, env, n + 1);
    SeenNext(I, f, env, n);
    StepBetween(I, f, st, Seen(I, f, env, n), next);
  }

  /** The invariant holds wherever a run is. */
  lemma {:induction false} RunBetween(I: Interp, f: Func, env: Env, n: nat)
    requires Encodable(f) && Inputs(f, env) && StateAt(I, f, env, n).At?
    ensures Between(f, StateAt(I, f, env, n), Seen(I, f, env, n))
  {
    if n == 0 {
      StartBetween(f, env);
      assert Seen(I, f, env, 0) == {};
    } else {
      EarlierAt(I, f, env, n, n - 1);
      RunBetween(I, f, env, n - 1);
      NextBetween(I, f, env, n - 1);
    }
  }

  /** The environment at the end of the block run at step n. */
  ghost function EndEnv(I: Interp, f: Func, env: Env, n: nat): Env {
    var st := StateAt(I, f, env, n);
    if st.At? && Find(f.blocks, st.block).Some? then Before(I, f, st, Len(f, st.block)) else map[]
  }

  lemma BlockExtends(I: Interp, f: Func, st: State, seen: set<BlockId>)
    requires Encodable(f) && Between(f, st, seen)
    ensures Extends(st.env, Before(I, f, st, Len(f, st.block)))
  {
    EnterInside(f, st, seen);
    assert Before(I, f, st, 0) == Entered(f, st);
    BlockGrows(I, f, st, seen, 0, Len(f, st.block));
  }

  /** One step: from the end of a block to the end of the next. */
  lemma StepGrows(I: Interp, f: Func, env: Env, n: nat)
    requires Encodable(f) && Inputs(f, env) && StateAt(I, f, env, n).At? && StateAt(I, f, env, n + 1).At?
    ensures Extends(EndEnv(I, f, env, n), EndEnv(I, f, env, n + 1))
  {
    RunHands(I, f, env, n);
    RunBetween(I, f, env, n + 1);
    BlockExtends(I, f, StateAt(I, f, env, n + 1), Seen(I, f, env, n + 1));
  }

  lemma EndGrows(I: Interp, f: Func, env: Env, settled: Env, n: nat)
    requires Encodable(f) && Inputs(f, env) && StateAt(I, f, env, n).At? && StateAt(I, f, env, n + 1).At?
    requires Extends(settled, EndEnv(I, f, env, n))
    ensures Extends(settled, EndEnv(I, f, env, n + 1))
  {
    StepGrows(I, f, env, n);
    ExtendsFurther(settled, EndEnv(I, f, env, n), EndEnv(I, f, env, n + 1));
  }

  lemma {:induction false} EndsGrow(I: Interp, f: Func, env: Env, n: nat, last: nat)
    requires Encodable(f) && Inputs(f, env) && StateAt(I, f, env, last).At? && n <= last
    ensures Extends(EndEnv(I, f, env, n), EndEnv(I, f, env, last))
    decreases last
  {
    if n < last {
      EarlierAt(I, f, env, last, last - 1);
      EndsGrow(I, f, env, n, last - 1);
      EndGrows(I, f, env, EndEnv(I, f, env, n), last - 1);
    }
  }

  /** Whatever is set at some point of a run keeps its value to the end of every later block. */
  lemma RunGrows(I: Interp, f: Func, env: Env, n: nat, i: nat, last: nat)
    requires Encodable(f) && Inputs(f, env) && StateAt(I, f, env, last).At? && n <= last
    requires StateAt(I, f, env, n).At? && Find(f.blocks, StateAt(I, f, env, n).block).Some?
    requires i <= Len(f, StateAt(I, f, env, n).block)
    ensures Extends(Before(I, f, StateAt(I, f, env, n), i), EndEnv(I, f, env, last))
  {
    RunBetween(I, f, env, n);
    BlockGrows(I, f, StateAt(I, f, env, n), Seen(I, f, env, n), i, Len(f, StateAt(I, f, env, n).block));
    EndsGrow(I, f, env, n, last);
  }
}
