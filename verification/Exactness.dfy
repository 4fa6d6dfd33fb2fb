/** What the constraints say of compiled runs. The constraints take a branch's true edge on 1, the
    compiled code on anything but 0: they agree exactly where conditions are 0 or 1. There a division
    query is satisfiable exactly when some input divides by zero. */
module Exactness {
  import opened Types
  import Bits
  import opened Ir
  import opened Ssa
  import opened Reach
  import opened Encoding
  import opened Translation
  import opened IntegerRuns
  import opened Models

  // ----- two readings of one program -----

  /** The same environment with conditions read as the constraints read them. */
  function AsVerifier(I: Interp): Interp {
    I.(taken := x => x == Int(1))
  }

  lemma SameExec(I: Interp, J: Interp, types: map<Value, Type>, i: Inst, env: Env, trace: Trace)
    requires IsInteger(i) && !IsTerminator(i)
    ensures Exec(I, types, i, env, trace) == Exec(J, types, i, env, trace)
  {
  }

  lemma {:induction false} SameEnvBefore(I: Interp, J: Interp, types: map<Value, Type>, insts: seq<Inst>, n: nat,
                                         env: Env, trace: Trace)
    requires n <= |insts| && forall i | i in insts :: IsInteger(i)
    ensures EnvBefore(I, types, insts, n, env, trace) == EnvBefore(J, types, insts, n, env, trace)
  {
    if n > 0 {
      SameEnvBefore(I, J, types, insts, n - 1, env, trace);
      var (e, t) := EnvBefore(I, types, insts, n - 1, env, trace);
      if !IsTerminator(insts[n - 1]) { SameExec(I, J, types, insts[n - 1], e, t); }
    }
  }

  lemma IntegerInsts(f: Func, b: BlockId)
    requires Translatable(f) && Find(f.blocks, b).Some?
    ensures forall i | i in Find(f.blocks, b).value.insts :: IsInteger(i)
  {
    var blk := Find(f.blocks, b).value;
    assert IntegerBlock(f, blk);
    forall i | i in blk.insts ensures IsInteger(i) { assert IntegerInst(f.types, i); }
  }

  /** Inside a block the reading of conditions makes no difference. */
  lemma SameBefore(I: Interp, J: Interp, f: Func, st: State, i: nat)
    requires Translatable(f) && st.At? && Find(f.blocks, st.block).Some? && i <= Len(f, st.block)
    ensures Before(I, f, st, i) == Before(J, f, st, i)
  {
    IntegerInsts(f, st.block);
    SameEnvBefore(I, J, f.types, Find(f.blocks, st.block).value.insts, i, Entered(f, st), st.trace);
  }

  /** Readings that agree on the condition of a block's branch take the same step. */
  lemma SameStepTaken(I: Interp, J: Interp, f: Func, st: State)
    requires Controlled(f) && st.At? && Find(f.blocks, st.block).Some?
    requires var n := Len(f, st.block);
             n > 0 && InstOf(f, st.block, n - 1).Branch? ==>
               var x := Get(Before(I, f, st, n - 1), InstOf(f, st.block, n - 1).cond);
               I.taken(x) == J.taken(x)
    ensures Step(I, f, st) == Step(J, f, st)
  {
    var insts := Find(f.blocks, st.block).value.insts;
    if |insts| > 0 {
      LastInst(f, st.block);
      IntegerInsts(f, st.block);
      SameOutcome(I, J, f.types, insts, Entered(f, st), st.trace);
    }
  }

  lemma SameOutcome(I: Interp, J: Interp, types: map<Value, Type>, insts: seq<Inst>, env: Env, trace: Trace)
    requires |insts| > 0 && forall i | i in insts :: IsInteger(i)
    requires forall k | 0 <= k < |insts| - 1 :: !IsTerminator(insts[k])
    requires var n := |insts| - 1;
             insts[n].Branch? ==>
               var x := Get(EnvBefore(I, types, insts, n, env, trace).0, insts[n].cond); I.taken(x) == J.taken(x)
    ensures ExecAll(I, types, insts, env, trace) == ExecAll(J, types, insts, env, trace)
  {
    var n := |insts| - 1;
    SameEnvBefore(I, J, types, insts, n, env, trace);
    ExecAllFrom(I, types, insts, n, env, trace);
    ExecAllFrom(J, types, insts, n, env, trace);
    var (e, t) := EnvBefore(I, types, insts, n, env, trace);
    SameLast(I, J, types, insts[n], e, t);
    assert insts[n..] == [insts[n]];
  }

  lemma SameLast(I: Interp, J: Interp, types: map<Value, Type>, i: Inst, env: Env, trace: Trace)
    requires IsInteger(i) && (i.Branch? ==> I.taken(Get(env, i.cond)) == J.taken(Get(env, i.cond)))
    ensures ExecAll(I, types, [i], env, trace) == ExecAll(J, types, [i], env, trace)
  {
    assert [i][1..] == [];
    if !IsTerminator(i) { SameExec(I, J, types, i, env, trace); }
  }

  // ----- conditions that are 0 or 1 -----

  predicate IsFlag(x: Data) {
    x == Int(0) || x == Int(1)
  }

  /** If instruction i of the block run at step n is a branch, its condition is 0 or 1. */
  ghost predicate FlagAt(I: Interp, f: Func, env: Env, n: nat, i: nat) {
    var st := StateAt(I, f, env, n);
    st.At? && HasInst(f, st.block, i) && InstOf(f, st.block, i).Branch? ==>
      IsFlag(Get(Before(I, f, st, i), InstOf(f, st.block, i).cond))
  }

  /** Every condition met before step n is 0 or 1. */
  ghost predicate FlagsBefore(I: Interp, f: Func, env: Env, n: nat) {
    forall k: nat, i: nat | k < n :: FlagAt(I, f, env, k, i)
  }

  /** Every branch condition the run meets is 0 or 1. */
  ghost predicate OnlyFlags(I: Interp, f: Func, env: Env) {
    forall n: nat, i: nat :: FlagAt(I, f, env, n, i)
  }

  /** While conditions are 0 or 1 the compiled run is the run the constraints describe. */
  lemma {:induction false} SameRun(I: Interp, f: Func, env: Env, n: nat)
    requires TakesOnNonZero(I) && Controlled(f) && FlagsBefore(I, f, env, n)
    ensures StateAt(I, f, env, n) == StateAt(AsVerifier(I), f, env, n)
  {
    if n > 0 {
      SameRun(I, f, env, n - 1);
      NextSame(I, f, env, n - 1);
    }
  }

  lemma NextSame(I: Interp, f: Func, env: Env, n: nat)
    requires TakesOnNonZero(I) && Controlled(f) && StateAt(I, f, env, n) == StateAt(AsVerifier(I), f, env, n)
    requires forall i: nat :: FlagAt(I, f, env, n, i)
    ensures StateAt(I, f, env, n + 1) == StateAt(AsVerifier(I), f, env, n + 1)
  {
    var st := StateAt(I, f, env, n);
    if st.At? {
      RunFound(I, f, env, n);
      if Len(f, st.block) > 0 { assert FlagAt(I, f, env, n, Len(f, st.block) - 1); }
      SameStepTaken(I, AsVerifier(I), f, st);
    }
  }

  lemma {:induction false} LeastWide(I: Interp, f: Func, env: Env, n: nat, i: nat) returns (k: nat, j: nat)
    requires !FlagAt(I, f, env, n, i)
    ensures !FlagAt(I, f, env, k, j) && FlagsBefore(I, f, env, k)
  {
    if k', j' :| 0 <= k' < n && 0 <= j' && !FlagAt(I, f, env, k', j') {
      k, j := LeastWide(I, f, env, k', j');
    } else {
      k, j := n, i;
    }
  }

  // ----- models against compiled runs -----

  /** The true blocks and edges of m are those of the run from its inputs. */
  ghost predicate SameCourse(I: Interp, f: Func, m: Model) {
    && (forall b | b in Ids(f) :: b in m.blocks <==> Visits(I, f, InputsOf(f, m), b))
    && forall p, b | (p, b) in ControlEdges(f.blocks) :: (p, b) in m.edges <==> Takes(I, f, InputsOf(f, m), p, b)
  }

  /** At a condition that is neither 0 nor 1 the compiled run takes the true edge, the constraints the
      false one. */
  lemma WideDiverges(I: Interp, f: Func, env: Env, n: nat, i: nat)
    requires TakesOnNonZero(I) && Controlled(f) && !FlagAt(I, f, env, n, i) && FlagsBefore(I, f, env, n)
    ensures var st := StateAt(I, f, env, n);
            var br := InstOf(f, st.block, i);
            && i + 1 == Len(f, st.block) && Visits(AsVerifier(I), f, env, st.block)
            && Takes(I, f, env, st.block, br.onTrue) && Takes(AsVerifier(I), f, env, st.block, br.onFalse)
            && (st.block, br.onTrue) in ControlEdges(f.blocks) && (st.block, br.onFalse) in ControlEdges(f.blocks)
  {
    var V := AsVerifier(I);
    var st := StateAt(I, f, env, n);
    SameRun(I, f, env, n);
    RunFound(I, f, env, n);
    JumpIsLast(f, st.block, i);
    SameBefore(I, V, f, st, i);
    TakesBranch(I, f, env, n, i);
    TakesBranch(V, f, env, n, i);
  }

  /** A branch hands control to the target its condition picks. */
  lemma TakesBranch(I: Interp, f: Func, env: Env, n: nat, i: nat)
    requires Controlled(f) && StateAt(I, f, env, n).At? && HasInst(f, StateAt(I, f, env, n).block, i)
    requires InstOf(f, StateAt(I, f, env, n).block, i).Branch? && i + 1 == Len(f, StateAt(I, f, env, n).block)
    ensures var st := StateAt(I, f, env, n);
            var br := InstOf(f, st.block, i);
            var t := if I.taken(Get(Before(I, f, st, i), br.cond)) then br.onTrue else br.onFalse;
            Takes(I, f, env, st.block, t) && (st.block, t) in ControlEdges(f.blocks)
  {
    var st := StateAt(I, f, env, n);
    JumpIsLast(f, st.block, i);
    StepsOn(I, f, env, n);
    RunHands(I, f, env, n);
    BeforeNext(I, f, st, i);
    assert StateAt(I, f, env, n + 1).pred == Some(st.block);
  }

  /** A model's true blocks and edges are those of the compiled run from its inputs if and only if every
      branch condition that run meets is 0 or 1. */
  lemma CourseExact(I: Interp, f: Func, m: Model)
    requires TakesOnNonZero(I) && Encodable(f) && Shaped(f, m) && Satisfies(f, m)
    ensures SameCourse(I, f, m) <==> OnlyFlags(I, f, InputsOf(f, m))
  {
    var env, V := InputsOf(f, m), AsVerifier(I);
    ModelIsRun(V, f, m);
    if OnlyFlags(I, f, env) {
      SameRuns(I, f, env);
      SameObserved(I, f, env);
    } else {
      var n: nat, i: nat :| !FlagAt(I, f, env, n, i);
      n, i := LeastWide(I, f, env, n, i);
      WideDiverges(I, f, env, n, i);
      if SameCourse(I, f, m) {
        var st := StateAt(I, f, env, n);
        EdgePicked(f, m, st.block, InstOf(f, st.block, i).onTrue);
        EdgePicked(f, m, st.block, InstOf(f, st.block, i).onFalse);
      }
    }
  }

  lemma SameRuns(I: Interp, f: Func, env: Env)
    requires TakesOnNonZero(I) && Controlled(f) && OnlyFlags(I, f, env)
    ensures forall n: nat :: StateAt(I, f, env, n) == StateAt(AsVerifier(I), f, env, n)
  {
    forall n: nat ensures StateAt(I, f, env, n) == StateAt(AsVerifier(I), f, env, n) { SameRun(I, f, env, n); }
  }

  lemma SameObserved(I: Interp, f: Func, env: Env)
    requires forall n: nat :: StateAt(I, f, env, n) == StateAt(AsVerifier(I), f, env, n)
    ensures forall b :: Visits(I, f, env, b) <==> Visits(AsVerifier(I), f, env, b)
    ensures forall p, b :: Takes(I, f, env, p, b) <==> Takes(AsVerifier(I), f, env, p, b)
  {
    var V := AsVerifier(I);
    forall b: BlockId ensures Visits(I, f, env, b) <==> Visits(V, f, env, b) {
      if n: nat :| StateAt(I, f, env, n).At? && StateAt(I, f, env, n).block == b {
        assert StateAt(V, f, env, n).block == b;
      }
      if n: nat :| StateAt(V, f, env, n).At? && StateAt(V, f, env, n).block == b {
        assert StateAt(I, f, env, n).block == b;
      }
    }
    forall p: BlockId, b: BlockId ensures Takes(I, f, env, p, b) <==> Takes(V, f, env, p, b) {
      if n: nat :| StateAt(I, f, env, n).At? && StateAt(I, f, env, n).block == b
                   && StateAt(I, f, env, n).pred == Some(p) {
        assert StateAt(V, f, env, n).block == b;
      }
      if n: nat :| StateAt(V, f, env, n).At? && StateAt(V, f, env, n).block == b
                   && StateAt(V, f, env, n).pred == Some(p) {
        assert StateAt(I, f, env, n).block == b;
      }
    }
  }

  // ----- conditions a caller can check -----

  /** The result is 0 or 1 as soon as the values of B are. */
  predicate GivesFlag(B: set<Value>, i: Inst) {
    || i.Cmp?
    || (i.ConstInt? && (i.val == 0 || i.val == 1))
    || (i.Assign? && i.s in B)
    || (i.Phi? && forall p | p in i.operands :: i.operands[p] in B)
  }

  /** Every value of B is a boolean, or a comparison, 0, 1, or a copy or phi of values of B. */
  ghost predicate FlagValues(f: Func, B: set<Value>) {
    forall v | v in B ::
      Width(f.types, v) == 1
      || (Defined(f, v) && forall a, j | DefAt(f, a, j, v) :: GivesFlag(B, InstOf(f, a, j)))
  }

  /** Every branch tests such a value, whatever its width. */
  ghost predicate BooleanConditions(f: Func) {
    exists B: set<Value> :: FlagValues(f, B) && TestsOnly(f, B)
  }

  ghost predicate TestsOnly(f: Func, B: set<Value>) {
    forall b: BlockId, i: nat | HasInst(f, b, i) && InstOf(f, b, i).Branch? :: InstOf(f, b, i).cond in B
  }

  ghost predicate FlagsIn(B: set<Value>, env: Env) {
    forall v | v in B && v in env :: IsFlag(env[v])
  }

  lemma BitIsFlag(f: Func, env: Env, v: Value)
    requires InRange(f, env) && v in env && Width(f.types, v) == 1
    ensures IsFlag(env[v])
  {
    assert Bits.Pow2(1) == 2;
  }

  /** Copying 0 or 1 gives 0 or 1 at every width. */
  lemma CopiedFlag(types: map<Value, Type>, d: Value, s: Value, x: nat)
    requires IsBitVector(types, d) && IsBitVector(types, s) && x <= 1
    ensures EvalAssign(types, d, s, x) == x
  {
    assert Bits.Pow2(Width(types, d)) >= 2;
    WrapSmall(x, Width(types, d));
    if IsSigned(types[s]) {
      assert Width(types, s) >= 8;
      assert Bits.Pow2(Width(types, s) - 1) >= 2;
    }
  }

  lemma OpGivesFlag(types: map<Value, Type>, B: set<Value>, i: Inst, env: Env)
    requires IsIntegerOp(i) && IntegerInst(types, i) && GivesFlag(B, i) && FlagsIn(B, env)
    requires forall v | v in Uses(i) :: v in env && env[v].Int?
    ensures IsFlag(Eval(NoInterp(), types, i, env))
  {
    assert i.d in MentionedIn(i);
    if i.Cmp? {
      assert i.l in Uses(i) && i.r in Uses(i);
    } else if i.ConstInt? {
      assert Bits.Pow2(Width(types, i.d)) >= 2;
      WrapSmall(i.val, Width(types, i.d));
    } else {
      assert i.s in Uses(i) && i.s in MentionedIn(i);
      CopiedFlag(types, i.d, i.s, env[i.s].n);
    }
  }

  lemma EnterFlags(f: Func, B: set<Value>, st: State, seen: set<BlockId>)
    requires Encodable(f) && FlagValues(f, B) && Between(f, st, seen) && FlagsIn(B, st.env)
    ensures FlagsIn(B, Entered(f, st))
  {
    EnteredKeeps(f, st, seen);
    EnteredInRange(f, st, seen);
    forall v | v in B && v in Entered(f, st) ensures IsFlag(Entered(f, st)[v]) {
      var k := PhiOrKept(f, st, v);
      if Width(f.types, v) == 1 {
        BitIsFlag(f, Entered(f, st), v);
      } else if v !in st.env {
        DefinitionFlag(f, B, st.block, k, v);
        PhiFlag(f, B, st, seen, k);
      }
    }
  }

  lemma PhiFlag(f: Func, B: set<Value>, st: State, seen: set<BlockId>, k: nat)
    requires Encodable(f) && Between(f, st, seen) && FlagsIn(B, st.env)
    requires HasInst(f, st.block, k) && InstOf(f, st.block, k).Phi? && GivesFlag(B, InstOf(f, st.block, k))
    ensures InstOf(f, st.block, k).d in Entered(f, st) && IsFlag(Entered(f, st)[InstOf(f, st.block, k).d])
  {
    PhiEntered(f, st, seen, k);
    PhiGivesFlag(B, InstOf(f, st.block, k), st.pred.value, st.env);
  }

  lemma PhiGivesFlag(B: set<Value>, i: Inst, p: BlockId, env: Env)
    requires i.Phi? && GivesFlag(B, i) && p in i.operands && FlagsIn(B, env) && i.operands[p] in env
    ensures IsFlag(env[i.operands[p]])
  {
  }

  /** What defines a flag value wider than a bit. */
  lemma DefinitionFlag(f: Func, B: set<Value>, b: BlockId, i: nat, v: Value)
    requires FlagValues(f, B) && v in B && Width(f.types, v) != 1 && DefAt(f, b, i, v)
    ensures GivesFlag(B, InstOf(f, b, i))
  {
  }

  lemma ComputedFlags(f: Func, B: set<Value>, env: Env, seen: set<BlockId>, b: BlockId, i: nat)
    requires Encodable(f) && FlagValues(f, B) && FlagsIn(B, env)
    requires HasInst(f, b, i) && b !in seen && Inside(f, env, seen, b, i)
    ensures FlagsIn(B, Computed(f.types, InstOf(f, b, i), env))
  {
    var inst := InstOf(f, b, i);
    if IsIntegerOp(inst) && inst.d in B { ResultFlag(f, B, env, seen, b, i); }
  }

  lemma ResultFlag(f: Func, B: set<Value>, env: Env, seen: set<BlockId>, b: BlockId, i: nat)
    requires Encodable(f) && FlagValues(f, B) && FlagsIn(B, env)
    requires HasInst(f, b, i) && b !in seen && Inside(f, env, seen, b, i)
    requires IsIntegerOp(InstOf(f, b, i)) && InstOf(f, b, i).d in B
    ensures IsFlag(Eval(NoInterp(), f.types, InstOf(f, b, i), env))
  {
    var inst := InstOf(f, b, i);
    if Width(f.types, inst.d) == 1 {
      OpResult(f, env, seen, b, i);
      assert Bits.Pow2(1) == 2;
    } else {
      DefinitionFlag(f, B, b, i, inst.d);
      InstAt(f, b, i);
      forall v | v in Uses(inst) ensures v in env { OperandReady(f, env, b, i, v); }
      OpGivesFlag(f.types, B, inst, env);
    }
  }

  lemma {:induction false} BlockFlags(I: Interp, f: Func, B: set<Value>, st: State, seen: set<BlockId>, i: nat)
    requires Encodable(f) && FlagValues(f, B) && Between(f, st, seen) && FlagsIn(B, st.env) && i <= Len(f, st.block)
    ensures FlagsIn(B, Before(I, f, st, i))
  {
    if i == 0 {
      EnterFlags(f, B, st, seen);
    } else {
      BlockFlags(I, f, B, st, seen, i - 1);
      InstFlags(I, f, B, st, seen, i - 1);
    }
  }

  lemma InstFlags(I: Interp, f: Func, B: set<Value>, st: State, seen: set<BlockId>, i: nat)
    requires Encodable(f) && FlagValues(f, B) && Between(f, st, seen) && HasInst(f, st.block, i)
    requires FlagsIn(B, Before(I, f, st, i))
    ensures FlagsIn(B, Before(I, f, st, i + 1))
  {
    BlockInside(I, f, st, seen, i);
    BeforeNext(I, f, st, i);
    ComputedFlags(f, B, Before(I, f, st, i), seen, st.block, i);
  }

  lemma StartFlags(f: Func, B: set<Value>, env: Env)
    requires FlagValues(f, B) && Inputs(f, env)
    ensures FlagsIn(B, env)
  {
    forall v | v in B && v in env ensures IsFlag(env[v]) { BitIsFlag(f, env, v); }
  }

  lemma {:induction false} RunFlags(I: Interp, f: Func, B: set<Value>, env: Env, n: nat)
    requires Encodable(f) && FlagValues(f, B) && Inputs(f, env) && StateAt(I, f, env, n).At?
    ensures FlagsIn(B, StateAt(I, f, env, n).env)
  {
    if n == 0 {
      StartFlags(f, B, env);
    } else {
      EarlierAt(I, f, env, n, n - 1);
      RunFlags(I, f, B, env, n - 1);
      NextFlags(I, f, B, env, n - 1);
    }
  }

  lemma NextFlags(I: Interp, f: Func, B: set<Value>, env: Env, n: nat)
    requires Encodable(f) && FlagValues(f, B) && Inputs(f, env)
    requires StateAt(I, f, env, n).At? && StateAt(I, f, env, n + 1).At? && FlagsIn(B, StateAt(I, f, env, n).env)
    ensures FlagsIn(B, StateAt(I, f, env, n + 1).env)
  {
    RunBetween(I, f, env, n);
    RunHands(I, f, env, n);
    BlockFlags(I, f, B, StateAt(I, f, env, n), Seen(I, f, env, n), Len(f, StateAt(I, f, env, n).block));
  }

  /** Where every branch tests such a value, every condition met on every run is 0 or 1. */
  lemma BooleanConditionsSuffice(I: Interp, f: Func, env: Env)
    requires Encodable(f) && BooleanConditions(f) && Inputs(f, env)
    ensures OnlyFlags(I, f, env)
  {
    var B: set<Value> :| FlagValues(f, B) && TestsOnly(f, B);
    forall n: nat, i: nat ensures FlagAt(I, f, env, n, i) { TestedFlag(I, f, B, env, n, i); }
  }

  lemma TestedFlag(I: Interp, f: Func, B: set<Value>, env: Env, n: nat, i: nat)
    requires Encodable(f) && FlagValues(f, B) && TestsOnly(f, B) && Inputs(f, env)
    ensures FlagAt(I, f, env, n, i)
  {
    var st := StateAt(I, f, env, n);
    if st.At? && HasInst(f, st.block, i) && InstOf(f, st.block, i).Branch? {
      RunFlags(I, f, B, env, n);
      RunBetween(I, f, env, n);
      CondFlag(I, f, B, st, Seen(I, f, env, n), i);
    }
  }

  lemma CondFlag(I: Interp, f: Func, B: set<Value>, st: State, seen: set<BlockId>, i: nat)
    requires Encodable(f) && FlagValues(f, B) && TestsOnly(f, B) && Between(f, st, seen) && FlagsIn(B, st.env)
    requires HasInst(f, st.block, i) && InstOf(f, st.block, i).Branch?
    ensures IsFlag(Get(Before(I, f, st, i), InstOf(f, st.block, i).cond))
  {
    BlockFlags(I, f, B, st, seen, i);
    BlockInside(I, f, st, seen, i);
    CondSet(f, Before(I, f, st, i), st.block, i);
  }

  lemma CondSet(f: Func, env: Env, b: BlockId, i: nat)
    requires UsesDominated(f) && Translatable(f) && Ready(f, env, b, i) && HasInst(f, b, i) && InstOf(f, b, i).Branch?
    ensures InstOf(f, b, i).cond in env
  {
    assert InstOf(f, b, i).cond in Uses(InstOf(f, b, i));
    OperandReady(f, env, b, i, InstOf(f, b, i).cond);
  }

  // ----- the queries -----

  ghost predicate Satisfiable(f: Func, asserts: seq<Bool_>, c: SafetyCheck) {
    exists m :: Shaped(f, m) && AllHold(f.types, m, asserts) && Holds(f.types, m, c.path)
      && Holds(f.types, m, c.violation)
  }

  /** The run from env is about to divide at (b, i) by zero. */
  ghost predicate DividesByZero(I: Interp, f: Func, env: Env, b: BlockId, i: nat)
    requires HasInst(f, b, i) && InstOf(f, b, i).Arith?
  {
    exists n: nat :: StateAt(I, f, env, n).At? && StateAt(I, f, env, n).block == b
      && Get(Before(I, f, StateAt(I, f, env, n), i), InstOf(f, b, i).r) == Int(0)
  }

  /** The assertions left in the solver are the constraints of f. */
  ghost predicate Constrains(f: Func, asserts: seq<Bool_>) {
    forall m | Shaped(f, m) :: AllHold(f.types, m, asserts) <==> Satisfies(f, m)
  }

  lemma CheckMeaning(f: Func, m: Model, b: BlockId, i: nat)
    requires Translatable(f) && Shaped(f, m) && HasInst(f, b, i) && IsDivision(InstOf(f, b, i))
    ensures InstOf(f, b, i).r in m.vals
    ensures var c := CheckOf(f.types, b, InstOf(f, b, i));
            Holds(f.types, m, c.path) && Holds(f.types, m, c.violation)
            <==> b in m.blocks && m.vals[InstOf(f, b, i).r] == 0
  {
    DivisorModelled(f, m, b, i);
    ZeroMeaning(f.types, m, InstOf(f, b, i).r);
  }

  lemma DivisorModelled(f: Func, m: Model, b: BlockId, i: nat)
    requires Translatable(f) && Shaped(f, m) && HasInst(f, b, i) && IsDivision(InstOf(f, b, i))
    ensures InstOf(f, b, i).r in m.vals
  {
    InstAt(f, b, i);
    assert InstOf(f, b, i).r in Uses(InstOf(f, b, i));
    assert InstOf(f, b, i).r in MentionedIn(InstOf(f, b, i));
  }

  lemma ZeroMeaning(types: map<Value, Type>, m: Model, v: Value)
    requires v in m.vals
    ensures Holds(types, m, BvCmp(Eq, BvVar(v), BvConst(0, Width(types, v)))) <==> m.vals[v] == 0
  {
    WrapSmall(0, Width(types, v));
    assert BvValue(types, m, BvConst(0, Width(types, v))) == 0;
  }

  /** A model of the query is an input whose run divides by zero there. */
  lemma ModelDivides(I: Interp, f: Func, m: Model, b: BlockId, i: nat)
    requires TakesOnOne(I) && Encodable(f) && Shaped(f, m) && Satisfies(f, m)
    requires HasInst(f, b, i) && IsDivision(InstOf(f, b, i))
    requires b in m.blocks && InstOf(f, b, i).r in m.vals && m.vals[InstOf(f, b, i).r] == 0
    ensures Inputs(f, InputsOf(f, m)) && DividesByZero(I, f, InputsOf(f, m), b, i)
  {
    var env := InputsOf(f, m);
    ModelIsRun(I, f, m);
    assert Find(f.blocks, b).value in f.blocks && b in Ids(f);
    var n: nat :| StateAt(I, f, env, n).At? && StateAt(I, f, env, n).block == b;
    DivisorAgrees(I, f, m, n, i);
  }

  lemma DivisorAgrees(I: Interp, f: Func, m: Model, n: nat, i: nat)
    requires TakesOnOne(I) && Encodable(f) && Shaped(f, m) && Satisfies(f, m) && StateAt(I, f, InputsOf(f, m), n).At?
    requires var b := StateAt(I, f, InputsOf(f, m), n).block;
             HasInst(f, b, i) && IsDivision(InstOf(f, b, i)) && InstOf(f, b, i).r in m.vals
    ensures var st := StateAt(I, f, InputsOf(f, m), n);
            Get(Before(I, f, st, i), InstOf(f, st.block, i).r) == Int(m.vals[InstOf(f, st.block, i).r])
  {
    var env := InputsOf(f, m);
    var st := StateAt(I, f, env, n);
    InputsOfModel(f, m);
    PointAgrees(I, f, m, n, i);
    RunBetween(I, f, env, n);
    DivisorSet(I, f, st, Seen(I, f, env, n), i);
  }

  lemma DivisorSet(I: Interp, f: Func, st: State, seen: set<BlockId>, i: nat)
    requires Encodable(f) && Between(f, st, seen) && HasInst(f, st.block, i) && IsDivision(InstOf(f, st.block, i))
    ensures InstOf(f, st.block, i).r in Before(I, f, st, i)
  {
    BlockInside(I, f, st, seen, i);
    assert InstOf(f, st.block, i).r in Uses(InstOf(f, st.block, i));
    OperandReady(f, Before(I, f, st, i), st.block, i, InstOf(f, st.block, i).r);
  }

  /** A run that divides by zero gives a model of the query. */
  lemma DivisionModelled(I: Interp, f: Func, env: Env, b: BlockId, i: nat) returns (m: Model)
    requires TakesOnOne(I) && Encodable(f) && Inputs(f, env) && Splits(I, f, env)
    requires HasInst(f, b, i) && IsDivision(InstOf(f, b, i)) && DividesByZero(I, f, env, b, i)
    ensures Shaped(f, m) && Satisfies(f, m) && b in m.blocks
    ensures InstOf(f, b, i).r in m.vals && m.vals[InstOf(f, b, i).r] == 0
  {
    m := RunIsModel(I, f, env);
    var r := InstOf(f, b, i).r;
    var n: nat :| StateAt(I, f, env, n).At? && StateAt(I, f, env, n).block == b
      && Get(Before(I, f, StateAt(I, f, env, n), i), r) == Int(0);
    RunAgrees(I, f, m, n);
    PointAgrees(I, f, m, n, i);
  }

  /** A query is satisfiable if and only if a run that reads conditions as the constraints do divides by
      zero there, for conditions of any width. */
  lemma VerifierCheckExact(I: Interp, f: Func, asserts: seq<Bool_>, b: BlockId, i: nat)
    requires TakesOnOne(I) && Encodable(f) && Constrains(f, asserts) && HasInst(f, b, i) && IsDivision(InstOf(f, b, i))
    ensures Satisfiable(f, asserts, CheckOf(f.types, b, InstOf(f, b, i)))
       <==> exists env :: Inputs(f, env) && Splits(I, f, env) && DividesByZero(I, f, env, b, i)
  {
    var c := CheckOf(f.types, b, InstOf(f, b, i));
    if m :| Shaped(f, m) && AllHold(f.types, m, asserts) && Holds(f.types, m, c.path)
            && Holds(f.types, m, c.violation) {
      CheckMeaning(f, m, b, i);
      ModelDivides(I, f, m, b, i);
      ModelExists(I, f, InputsOf(f, m));
    }
    if env :| Inputs(f, env) && Splits(I, f, env) && DividesByZero(I, f, env, b, i) {
      var m := DivisionModelled(I, f, env, b, i);
      CheckMeaning(f, m, b, i);
    }
  }

  /** Every branch has two different targets, as every branch the front end builds. */
  ghost predicate DistinctTargets(f: Func) {
    forall b: BlockId, i: nat :: !EqualTargets(f, b, i)
  }

  /** Every input has a model, and any model of it takes the course of the compiled run if and only if that
      run meets no condition but 0 and 1. */
  lemma InputsExact(I: Interp, f: Func, env: Env)
    requires TakesOnNonZero(I) && Encodable(f) && DistinctTargets(f) && Inputs(f, env)
    ensures exists m :: Shaped(f, m) && Satisfies(f, m) && InputsOf(f, m) == env
    ensures forall m | Shaped(f, m) && Satisfies(f, m) && InputsOf(f, m) == env ::
              SameCourse(I, f, m) <==> OnlyFlags(I, f, env)
  {
    ModelExists(AsVerifier(I), f, env);
    forall m | Shaped(f, m) && Satisfies(f, m) && InputsOf(f, m) == env
      ensures SameCourse(I, f, m) <==> OnlyFlags(I, f, env)
    {
      CourseExact(I, f, m);
    }
  }

  lemma SameDivision(I: Interp, f: Func, env: Env, b: BlockId, i: nat)
    requires TakesOnNonZero(I) && Controlled(f) && OnlyFlags(I, f, env)
    requires HasInst(f, b, i) && IsDivision(InstOf(f, b, i))
    ensures DividesByZero(I, f, env, b, i) <==> DividesByZero(AsVerifier(I), f, env, b, i)
  {
    var V, r := AsVerifier(I), InstOf(f, b, i).r;
    SameRuns(I, f, env);
    if n: nat :| StateAt(I, f, env, n).At? && StateAt(I, f, env, n).block == b
                 && Get(Before(I, f, StateAt(I, f, env, n), i), r) == Int(0) {
      SameBefore(I, V, f, StateAt(I, f, env, n), i);
      assert StateAt(V, f, env, n).block == b;
    }
    if n: nat :| StateAt(V, f, env, n).At? && StateAt(V, f, env, n).block == b
                 && Get(Before(V, f, StateAt(V, f, env, n), i), r) == Int(0) {
      SameBefore(I, V, f, StateAt(V, f, env, n), i);
      assert StateAt(I, f, env, n).block == b;
    }
  }

  /** A division by zero on a run whose conditions are all 0 or 1 is found. */
  lemma DivisionFound(I: Interp, f: Func, asserts: seq<Bool_>, env: Env, b: BlockId, i: nat)
    requires TakesOnNonZero(I) && Encodable(f) && DistinctTargets(f) && Constrains(f, asserts)
    requires HasInst(f, b, i) && IsDivision(InstOf(f, b, i))
    requires Inputs(f, env) && DividesByZero(I, f, env, b, i) && OnlyFlags(I, f, env)
    ensures Satisfiable(f, asserts, CheckOf(f.types, b, InstOf(f, b, i)))
  {
    SameDivision(I, f, env, b, i);
    VerifierCheckExact(AsVerifier(I), f, asserts, b, i);
  }

  /** Where every condition is boolean-valued, at any width, a division query is satisfiable if and only if
      some input's compiled run divides by zero there. */
  lemma DivisionCheckExact(I: Interp, f: Func, asserts: seq<Bool_>, b: BlockId, i: nat)
    requires TakesOnNonZero(I) && Encodable(f) && DistinctTargets(f) && BooleanConditions(f)
    requires Constrains(f, asserts) && HasInst(f, b, i) && IsDivision(InstOf(f, b, i))
    ensures Satisfiable(f, asserts, CheckOf(f.types, b, InstOf(f, b, i)))
       <==> exists env :: Inputs(f, env) && DividesByZero(I, f, env, b, i)
  {
    VerifierCheckExact(AsVerifier(I), f, asserts, b, i);
    forall env | Inputs(f, env)
      ensures DividesByZero(I, f, env, b, i) <==> DividesByZero(AsVerifier(I), f, env, b, i)
    {
      BooleanConditionsSuffice(I, f, env);
      SameDivision(I, f, env, b, i);
    }
  }

  /** Some input makes a signed division or remainder divide by zero. */
  ghost predicate SignedDivisionByZero(I: Interp, f: Func) {
    exists b, i, env ::
      && HasInst(f, b, i) && InstOf(f, b, i).Arith? && (InstOf(f, b, i).aop == SDiv || InstOf(f, b, i).aop == SRem)
      && Inputs(f, env) && DividesByZero(I, f, env, b, i)
  }

  /** Some queued check is satisfiable if and only if some input makes some signed division or remainder
      divide by zero. */
  lemma ChecksExact(I: Interp, f: Func, asserts: seq<Bool_>)
    requires TakesOnNonZero(I) && Encodable(f) && DistinctTargets(f) && BooleanConditions(f)
    requires Constrains(f, asserts)
    ensures (exists c :: c in Checks(f.types, f.blocks) && Satisfiable(f, asserts, c)) <==> SignedDivisionByZero(I, f)
  {
    if c :| c in Checks(f.types, f.blocks) && Satisfiable(f, asserts, c) {
      var b, i := CheckOrigin(f, c);
      DivisionCheckExact(I, f, asserts, b, i);
    }
    if b, i, env :| HasInst(f, b, i) && IsDivision(InstOf(f, b, i)) && Inputs(f, env)
                    && DividesByZero(I, f, env, b, i) {
      DivisionCheckExact(I, f, asserts, b, i);
      CheckQueued(f, b, i);
    }
  }

  lemma CheckOrigin(f: Func, c: SafetyCheck) returns (b: BlockId, i: nat)
    requires UniqueIds(f) && c in Checks(f.types, f.blocks)
    ensures HasInst(f, b, i) && IsDivision(InstOf(f, b, i)) && c == CheckOf(f.types, b, InstOf(f, b, i))
  {
    ChecksMembers(f.types, f.blocks, c);
    var blk, inst :| blk in f.blocks && inst in blk.insts && inst.Arith? && (inst.aop == SDiv || inst.aop == SRem)
                     && c == SafetyCheck(BlockVar(blk.id),
                                         BvCmp(Eq, BvVar(inst.r), BvConst(0, Width(f.types, inst.r))));
    BlockFound(f, blk);
    b := blk.id;
    i :| 0 <= i < |blk.insts| && blk.insts[i] == inst;
  }

  lemma CheckQueued(f: Func, b: BlockId, i: nat)
    requires HasInst(f, b, i) && IsDivision(InstOf(f, b, i))
    ensures CheckOf(f.types, b, InstOf(f, b, i)) in Checks(f.types, f.blocks)
  {
    ChecksMembers(f.types, f.blocks, CheckOf(f.types, b, InstOf(f, b, i)));
    assert InstOf(f, b, i) in Find(f.blocks, b).value.insts;
  }

  /** The whole translation: the assertions and the queued checks of an encodable function. */
  method Encode(f: Func) returns (asserts: seq<Bool_>, checks: seq<SafetyCheck>)
    requires Encodable(f)
    ensures Constrains(f, asserts) && checks == Checks(f.types, f.blocks)
    ensures forall b, op, d, l, r | b in f.blocks && Arith(op, d, l, r) in b.insts && (op == SDiv || op == SRem) ::
              SafetyCheck(BlockVar(b.id), BvCmp(Eq, BvVar(r), BvConst(0, Width(f.types, r)))) in checks
    ensures forall c | c in checks :: exists b, op, d, l, r ::
              b in f.blocks && Arith(op, d, l, r) in b.insts && (op == SDiv || op == SRem)
              && c == SafetyCheck(BlockVar(b.id), BvCmp(Eq, BvVar(r), BvConst(0, Width(f.types, r))))
    ensures DistinctTargets(f) && BooleanConditions(f) ==> forall I | TakesOnNonZero(I) ::
              (exists c :: c in checks && Satisfiable(f, asserts, c)) <==> SignedDivisionByZero(I, f)
  {
    var ctx := new TranslationContext(f);
    ctx.AssertCfgConstraints();
    ctx.TranslateInstructions();
    asserts, checks := ctx.asserts, ctx.safetyChecks;
    DivisionsQueued(f);
    forall m | Shaped(f, m) ensures AllHold(f.types, m, asserts) <==> Satisfies(f, m) { AllBlocksRules(f, m); }
    if DistinctTargets(f) && BooleanConditions(f) {
      forall I | TakesOnNonZero(I)
        ensures (exists c :: c in checks && Satisfiable(f, asserts, c)) <==> SignedDivisionByZero(I, f)
      {
        ChecksExact(I, f, asserts);
      }
    }
  }

  lemma DivisionsQueued(f: Func)
    ensures forall b, op, d, l, r | b in f.blocks && Arith(op, d, l, r) in b.insts && (op == SDiv || op == SRem) ::
              SafetyCheck(BlockVar(b.id), BvCmp(Eq, BvVar(r), BvConst(0, Width(f.types, r))))
              in Checks(f.types, f.blocks)
    ensures forall c | c in Checks(f.types, f.blocks) :: exists b, op, d, l, r ::
              b in f.blocks && Arith(op, d, l, r) in b.insts && (op == SDiv || op == SRem)
              && c == SafetyCheck(BlockVar(b.id), BvCmp(Eq, BvVar(r), BvConst(0, Width(f.types, r))))
  {
    forall b, op, d, l, r | b in f.blocks && Arith(op, d, l, r) in b.insts && (op == SDiv || op == SRem)
      ensures SafetyCheck(BlockVar(b.id), BvCmp(Eq, BvVar(r), BvConst(0, Width(f.types, r))))
              in Checks(f.types, f.blocks)
    {
      ChecksMembers(f.types, f.blocks, SafetyCheck(BlockVar(b.id), BvCmp(Eq, BvVar(r), BvConst(0, Width(f.types, r)))));
      assert Arith(op, d, l, r).r == r;
    }
    forall c | c in Checks(f.types, f.blocks)
      ensures exists b, op, d, l, r ::
                b in f.blocks && Arith(op, d, l, r) in b.insts && (op == SDiv || op == SRem)
                && c == SafetyCheck(BlockVar(b.id), BvCmp(Eq, BvVar(r), BvConst(0, Width(f.types, r))))
    {
      ChecksMembers(f.types, f.blocks, c);
      var b, i :| b in f.blocks && i in b.insts && i.Arith? && (i.aop == SDiv || i.aop == SRem)
                  && c == SafetyCheck(BlockVar(b.id), BvCmp(Eq, BvVar(i.r), BvConst(0, Width(f.types, i.r))));
      assert i == Arith(i.aop, i.d, i.l, i.r);
    }
  }

  lemma AllBlocksRules(f: Func, m: Model)
    ensures AllHold(f.types, m, [])
    ensures BlockRules(f, m) && FirstBlocksInstRules(f, m, |f.blocks|) <==> Satisfies(f, m)
  {
    assert f.blocks[..|f.blocks|] == f.blocks;
  }
}
