/** Models of the constraints against runs: with branches read as the constraints read them (the true
    edge on 1), the models of loop-free integer code are exactly its runs. */
module Models {
  import opened Types
  import opened Ir
  import opened Ssa
  import opened Reach
  import opened Encoding
  import opened Translation
  import opened IntegerRuns

  // ----- what is observed of a run -----

  ghost predicate Visits(I: Interp, f: Func, env: Env, b: BlockId) {
    exists n: nat :: StateAt(I, f, env, n).At? && StateAt(I, f, env, n).block == b
  }

  ghost predicate Takes(I: Interp, f: Func, env: Env, p: BlockId, b: BlockId) {
    exists n: nat :: StateAt(I, f, env, n).At? && StateAt(I, f, env, n).block == b
      && StateAt(I, f, env, n).pred == Some(p)
  }

  /** How the constraints read a condition: its true edge is taken on the pattern 1. */
  ghost predicate TakesOnOne(I: Interp) {
    forall x :: I.taken(x) <==> x == Int(1)
  }

  /** The inputs a model describes. */
  ghost function InputsOf(f: Func, m: Model): Env {
    map v | v in Params(f) && v in m.vals :: Int(m.vals[v])
  }

  // ----- every model is a run -----

  ghost predicate Agrees(m: Model, env: Env) {
    forall v | v in env :: v in m.vals && env[v] == Int(m.vals[v])
  }

  lemma InputsOfModel(f: Func, m: Model)
    requires Shaped(f, m)
    ensures Inputs(f, InputsOf(f, m)) && Agrees(m, InputsOf(f, m))
  {
  }

  lemma RuleAt(f: Func, m: Model, b: BlockId, i: nat)
    requires Satisfies(f, m) && HasInst(f, b, i)
    ensures InstRule(f, m, b, InstOf(f, b, i))
  {
    assert InstRules(f, m, Find(f.blocks, b).value);
    assert InstRule(f, m, Find(f.blocks, b).value.id, InstOf(f, b, i));
  }

  lemma EnterAgrees(f: Func, m: Model, st: State, seen: set<BlockId>)
    requires Encodable(f) && Shaped(f, m) && Satisfies(f, m) && Between(f, st, seen) && Agrees(m, st.env)
    requires st.pred.Some? ==> (st.pred.value, st.block) in m.edges
    ensures Agrees(m, Entered(f, st))
  {
    var env := Entered(f, st);
    EnteredKeeps(f, st, seen);
    forall v | v in env ensures v in m.vals && env[v] == Int(m.vals[v]) {
      var k := PhiOrKept(f, st, v);
      if v !in st.env {
        PhiEntered(f, st, seen, k);
        RuleAt(f, m, st.block, k);
        var i := InstOf(f, st.block, k);
        assert PhiRule(m, st.block, i);
        assert Get(EnvOf(m), i.d) == Get(EnvOf(m), i.operands[st.pred.value]);
      }
    }
  }

  lemma OpModelled(f: Func, m: Model, b: BlockId, i: nat)
    requires Encodable(f) && Shaped(f, m) && Satisfies(f, m) && b in m.blocks
    requires HasInst(f, b, i) && IsIntegerOp(InstOf(f, b, i))
    ensures InstOf(f, b, i).d in m.vals
    ensures Int(m.vals[InstOf(f, b, i).d]) == Eval(NoInterp(), f.types, InstOf(f, b, i), EnvOf(m))
  {
    RuleAt(f, m, b, i);
    InstAt(f, b, i);
    assert InstOf(f, b, i).d in MentionedIn(InstOf(f, b, i));
  }

  /** An operation computes in the run what its equation says in the model. */
  lemma OpAgrees(f: Func, m: Model, env: Env, b: BlockId, i: nat)
    requires Encodable(f) && Shaped(f, m) && Satisfies(f, m) && Agrees(m, env) && b in m.blocks
    requires HasInst(f, b, i) && IsIntegerOp(InstOf(f, b, i))
    requires forall v | v in Uses(InstOf(f, b, i)) :: v in env
    ensures Agrees(m, env[InstOf(f, b, i).d := Eval(NoInterp(), f.types, InstOf(f, b, i), env)])
  {
    OpModelled(f, m, b, i);
    OperandsAgree(m, env, Uses(InstOf(f, b, i)));
    EvalFrame(NoInterp(), f.types, InstOf(f, b, i), env, EnvOf(m));
  }

  lemma OperandsAgree(m: Model, env: Env, vs: seq<Value>)
    requires Agrees(m, env) && forall v | v in vs :: v in env
    ensures forall v | v in vs :: Get(env, v) == Get(EnvOf(m), v)
  {
  }

  lemma ComputedAgrees(f: Func, m: Model, env: Env, b: BlockId, i: nat)
    requires Encodable(f) && Shaped(f, m) && Satisfies(f, m) && Agrees(m, env) && b in m.blocks
    requires HasInst(f, b, i) && Ready(f, env, b, i)
    ensures Agrees(m, Computed(f.types, InstOf(f, b, i), env))
  {
    if IsIntegerOp(InstOf(f, b, i)) {
      forall v | v in Uses(InstOf(f, b, i)) ensures v in env { OperandReady(f, env, b, i, v); }
      OpAgrees(f, m, env, b, i);
    }
  }

  lemma {:induction false} BlockAgrees(I: Interp, f: Func, m: Model, st: State, seen: set<BlockId>, i: nat)
    requires Encodable(f) && Shaped(f, m) && Satisfies(f, m) && Between(f, st, seen) && Agrees(m, Entered(f, st))
    requires st.block in m.blocks && i <= Len(f, st.block)
    ensures Agrees(m, Before(I, f, st, i))
  {
    if i > 0 {
      BlockAgrees(I, f, m, st, seen, i - 1);
      InstAgrees(I, f, m, st, seen, i - 1);
    }
  }

  lemma InstAgrees(I: Interp, f: Func, m: Model, st: State, seen: set<BlockId>, i: nat)
    requires Encodable(f) && Shaped(f, m) && Satisfies(f, m) && Between(f, st, seen) && st.block in m.blocks
    requires HasInst(f, st.block, i) && Agrees(m, Before(I, f, st, i))
    ensures Agrees(m, Before(I, f, st, i + 1))
  {
    BlockInside(I, f, st, seen, i);
    BeforeNext(I, f, st, i);
    ComputedAgrees(f, m, Before(I, f, st, i), st.block, i);
  }

  /** A condition is taken in the run exactly where the branch formula holds in the model. */
  lemma CondAgrees(I: Interp, f: Func, m: Model, env: Env, b: BlockId, i: nat)
    requires TakesOnOne(I) && UsesDominated(f) && Translatable(f) && Agrees(m, env) && Ready(f, env, b, i)
    requires HasInst(f, b, i) && InstOf(f, b, i).Branch?
    ensures I.taken(Get(env, InstOf(f, b, i).cond)) <==> Get(EnvOf(m), InstOf(f, b, i).cond) == Int(1)
  {
    var c := InstOf(f, b, i).cond;
    assert c in Uses(InstOf(f, b, i));
    OperandReady(f, env, b, i, c);
    ReadAgrees(I, m, env, c);
  }

  lemma ReadAgrees(I: Interp, m: Model, env: Env, c: Value)
    requires TakesOnOne(I) && Agrees(m, env) && c in env
    ensures I.taken(Get(env, c)) <==> Get(EnvOf(m), c) == Int(1)
  {
  }

  lemma TerminatorReady(I: Interp, f: Func, st: State, seen: set<BlockId>, i: nat)
    requires Encodable(f) && Between(f, st, seen) && HasInst(f, st.block, i) && IsTerminator(InstOf(f, st.block, i))
    ensures Ready(f, Before(I, f, st, i + 1), st.block, i)
  {
    BlockInside(I, f, st, seen, i);
    TerminatorKeeps(I, f, st, i);
  }

  lemma TerminatorKeeps(I: Interp, f: Func, st: State, i: nat)
    requires Translatable(f) && st.At? && HasInst(f, st.block, i) && IsTerminator(InstOf(f, st.block, i))
    ensures Before(I, f, st, i + 1) == Before(I, f, st, i)
  {
    BeforeNext(I, f, st, i);
  }

  /** A true block's last instruction makes the edge the run takes true. */
  lemma LastAgrees(I: Interp, f: Func, m: Model, env: Env, b: BlockId, i: nat)
    requires TakesOnOne(I) && UsesDominated(f) && Translatable(f) && Satisfies(f, m)
    requires Agrees(m, env) && Ready(f, env, b, i)
    requires HasInst(f, b, i) && b in m.blocks && NextBlock(I, InstOf(f, b, i), env).Some?
    ensures (b, NextBlock(I, InstOf(f, b, i), env).value) in m.edges
  {
    RuleAt(f, m, b, i);
    if InstOf(f, b, i).Branch? {
      CondAgrees(I, f, m, env, b, i);
      assert BranchRule(m, b, InstOf(f, b, i));
    }
  }

  lemma TargetTrue(f: Func, m: Model, p: BlockId, b: BlockId)
    requires Satisfies(f, m) && (p, b) in ControlEdges(f.blocks) && (p, b) in m.edges && Find(f.blocks, b).Some?
    ensures b in m.blocks
  {
    assert BlockRule(f, m, Find(f.blocks, b).value.id);
  }

  /** The step taken is along a true edge. */
  lemma StepAgrees(I: Interp, f: Func, m: Model, st: State, seen: set<BlockId>, next: State)
    requires TakesOnOne(I) && Encodable(f) && Shaped(f, m) && Satisfies(f, m) && Between(f, st, seen)
    requires Follows(I, f, st, next) && HandsOver(I, f, st, next)
    requires Agrees(m, next.env) && st.block in m.blocks
    ensures (st.block, next.block) in m.edges && next.block in m.blocks
  {
    LastTaken(I, f, m, st, seen, next);
    TargetTrue(f, m, st.block, next.block);
  }

  lemma LastTaken(I: Interp, f: Func, m: Model, st: State, seen: set<BlockId>, next: State)
    requires TakesOnOne(I) && Encodable(f) && Satisfies(f, m) && Between(f, st, seen)
    requires Follows(I, f, st, next) && HandsOver(I, f, st, next)
    requires Agrees(m, next.env) && st.block in m.blocks
    ensures (st.block, next.block) in m.edges
  {
    var i := Len(f, st.block) - 1;
    EndReady(I, f, st, seen, next, i);
    LastAgrees(I, f, m, next.env, st.block, i);
  }

  lemma EndReady(I: Interp, f: Func, st: State, seen: set<BlockId>, next: State, i: nat)
    requires Encodable(f) && Between(f, st, seen) && HandsOver(I, f, st, next) && i + 1 == Len(f, st.block)
    requires IsTerminator(InstOf(f, st.block, i))
    ensures Ready(f, next.env, st.block, i)
  {
    TerminatorReady(I, f, st, seen, i);
  }

  lemma NextAgrees(I: Interp, f: Func, m: Model, st: State, seen: set<BlockId>, next: State)
    requires TakesOnOne(I) && Encodable(f) && Shaped(f, m) && Satisfies(f, m) && Between(f, st, seen)
    requires Follows(I, f, st, next) && HandsOver(I, f, st, next)
    requires OnModel(m, st)
    ensures OnModel(m, next)
  {
    EnterAgrees(f, m, st, seen);
    BlockAgrees(I, f, m, st, seen, Len(f, st.block));
    StepAgrees(I, f, m, st, seen, next);
  }

  lemma EntryTrue(f: Func, m: Model)
    requires Encodable(f) && Satisfies(f, m)
    ensures f.entry in m.blocks
  {
    assert BlockRule(f, m, Find(f.blocks, f.entry).value.id);
  }

  ghost predicate OnModel(m: Model, st: State) {
    st.At? ==>
      st.block in m.blocks && Agrees(m, st.env) && (st.pred.Some? ==> (st.pred.value, st.block) in m.edges)
  }

  lemma NextOnModel(I: Interp, f: Func, m: Model, env: Env, n: nat)
    requires TakesOnOne(I) && Encodable(f) && Shaped(f, m) && Satisfies(f, m) && Inputs(f, env)
    requires StateAt(I, f, env, n).At? && StateAt(I, f, env, n + 1).At? && OnModel(m, StateAt(I, f, env, n))
    ensures OnModel(m, StateAt(I, f, env, n + 1))
  {
    RunFound(I, f, env, n + 1);
    RunHands(I, f, env, n);
    RunBetween(I, f, env, n);
    NextAgrees(I, f, m, StateAt(I, f, env, n), Seen(I, f, env, n), StateAt(I, f, env, n + 1));
  }

  /** A run from a model's inputs stays on the model's true blocks and edges, with its values. */
  lemma {:induction false} RunAgrees(I: Interp, f: Func, m: Model, n: nat)
    requires TakesOnOne(I) && Encodable(f) && Shaped(f, m) && Satisfies(f, m)
    requires StateAt(I, f, InputsOf(f, m), n).At?
    ensures OnModel(m, StateAt(I, f, InputsOf(f, m), n))
  {
    var env := InputsOf(f, m);
    InputsOfModel(f, m);
    if n == 0 {
      EntryTrue(f, m);
    } else {
      EarlierAt(I, f, env, n, n - 1);
      RunAgrees(I, f, m, n - 1);
      NextOnModel(I, f, m, env, n - 1);
    }
  }

  /** The values before each instruction the run reaches are the model's. */
  lemma PointAgrees(I: Interp, f: Func, m: Model, n: nat, i: nat)
    requires TakesOnOne(I) && Encodable(f) && Shaped(f, m) && Satisfies(f, m)
    requires StateAt(I, f, InputsOf(f, m), n).At?
    requires i <= Len(f, StateAt(I, f, InputsOf(f, m), n).block)
    ensures Find(f.blocks, StateAt(I, f, InputsOf(f, m), n).block).Some?
    ensures Agrees(m, Before(I, f, StateAt(I, f, InputsOf(f, m), n), i))
  {
    var env := InputsOf(f, m);
    InputsOfModel(f, m);
    RunAgrees(I, f, m, n);
    RunBetween(I, f, env, n);
    EnterAgrees(f, m, StateAt(I, f, env, n), Seen(I, f, env, n));
    BlockAgrees(I, f, m, StateAt(I, f, env, n), Seen(I, f, env, n), i);
  }

  // ----- every true block is on the run -----

  lemma EdgeFrom(f: Func, p: BlockId, b: BlockId)
    requires UniqueIds(f) && (p, b) in ControlEdges(f.blocks)
    ensures Find(f.blocks, p).Some? && Len(f, p) > 0 && b in Targets(Find(f.blocks, p).value)
  {
    var blk :| blk in f.blocks && blk.id == p && b in Targets(blk);
    BlockFound(f, blk);
  }

  /** A true edge leaves a true block. */
  lemma EdgeSource(f: Func, m: Model, p: BlockId, b: BlockId)
    requires UniqueIds(f) && Satisfies(f, m) && (p, b) in ControlEdges(f.blocks) && (p, b) in m.edges
    ensures p in m.blocks && Find(f.blocks, p).Some? && b in Targets(Find(f.blocks, p).value)
  {
    EdgeFrom(f, p, b);
    RuleAt(f, m, p, Len(f, p) - 1);
  }

  /** A true edge is the target its block's last instruction picks; a true block's targets differ. */
  lemma EdgePicked(f: Func, m: Model, p: BlockId, b: BlockId)
    requires UniqueIds(f) && Satisfies(f, m) && (p, b) in ControlEdges(f.blocks) && (p, b) in m.edges
    ensures Find(f.blocks, p).Some? && Len(f, p) > 0
    ensures var last := InstOf(f, p, Len(f, p) - 1);
            if last.Branch? then
              last.onTrue != last.onFalse
              && b == if Get(EnvOf(m), last.cond) == Int(1) then last.onTrue else last.onFalse
            else last.Jump? && b == last.target
  {
    EdgeFrom(f, p, b);
    RuleAt(f, m, p, Len(f, p) - 1);
  }

  /** At most one edge out of a block is true. */
  lemma OneEdge(f: Func, m: Model, p: BlockId, b: BlockId, c: BlockId)
    requires UniqueIds(f) && Satisfies(f, m)
    requires (p, b) in ControlEdges(f.blocks) && (p, b) in m.edges
    requires (p, c) in ControlEdges(f.blocks) && (p, c) in m.edges
    ensures b == c
  {
    EdgePicked(f, m, p, b);
    EdgePicked(f, m, p, c);
  }

  lemma EdgeTaken(I: Interp, f: Func, m: Model, p: BlockId, b: BlockId, n: nat)
    requires TakesOnOne(I) && Encodable(f) && Shaped(f, m) && Satisfies(f, m)
    requires (p, b) in ControlEdges(f.blocks) && (p, b) in m.edges
    requires StateAt(I, f, InputsOf(f, m), n).At? && StateAt(I, f, InputsOf(f, m), n).block == p
    ensures var next := StateAt(I, f, InputsOf(f, m), n + 1); next.At? && next.block == b && next.pred == Some(p)
  {
    var env := InputsOf(f, m);
    var st, next := StateAt(I, f, env, n), StateAt(I, f, env, n + 1);
    EdgeSource(f, m, p, b);
    StepFollows(I, f, st);
    assert next == Step(I, f, st);
    RunAgrees(I, f, m, n + 1);
    OneEdge(f, m, p, b, next.block);
  }

  lemma ReachesBefore(edges: Edges, a: BlockId, b: BlockId, c: BlockId)
    requires (a, b) in edges && Reaches(edges, b, c)
    ensures Reaches(edges, a, c)
  {
    var p :| Walk(edges, p) && p[0] == b && p[|p| - 1] == c;
    var q := [a] + p;
    forall k: nat ensures StepIn(edges, q, k) {
      if k > 1 { assert StepIn(edges, p, k - 1); }
    }
    assert Walk(edges, q);
  }

  /** Following true edges backward never repeats a block, so it ends at the entry. */
  lemma {:induction false} TrueBlockVisited(I: Interp, f: Func, m: Model, b: BlockId, done: set<BlockId>)
    requires TakesOnOne(I) && Encodable(f) && Shaped(f, m) && Satisfies(f, m) && b in m.blocks && b in Ids(f)
    requires done <= Ids(f) && b in done && forall x | x in done :: Reaches(ControlEdges(f.blocks), b, x)
    ensures Visits(I, f, InputsOf(f, m), b)
    decreases Ids(f) - done
  {
    var env := InputsOf(f, m);
    if b == f.entry {
      assert StateAt(I, f, env, 0).block == b;
    } else {
      var edges := ControlEdges(f.blocks);
      var blk :| blk in f.blocks && blk.id == b;
      assert BlockRule(f, m, blk.id);
      var p :| (p, b) in edges && (p, b) in m.edges;
      EdgeSource(f, m, p, b);
      assert Find(f.blocks, p).value in f.blocks;
      NoLoopHeader(edges, b, p);
      ReachesSelf(edges, p);
      forall x | x in done + {p} ensures Reaches(edges, p, x) {
        if x in done { ReachesBefore(edges, p, b, x); }
      }
      TrueBlockVisited(I, f, m, p, done + {p});
      var n: nat :| StateAt(I, f, env, n).At? && StateAt(I, f, env, n).block == p;
      EdgeTaken(I, f, m, p, b, n);
    }
  }

  /** Every model is a run: its true blocks and edges are exactly those of the run from its inputs. */
  lemma ModelIsRun(I: Interp, f: Func, m: Model)
    requires TakesOnOne(I) && Encodable(f) && Shaped(f, m) && Satisfies(f, m)
    ensures Inputs(f, InputsOf(f, m))
    ensures forall b | b in Ids(f) :: b in m.blocks <==> Visits(I, f, InputsOf(f, m), b)
    ensures forall p, b | (p, b) in ControlEdges(f.blocks) :: (p, b) in m.edges <==> Takes(I, f, InputsOf(f, m), p, b)
  {
    var env := InputsOf(f, m);
    InputsOfModel(f, m);
    forall b | b in Ids(f) ensures b in m.blocks <==> Visits(I, f, env, b) {
      if b in m.blocks {
        ReachesSelf(ControlEdges(f.blocks), b);
        TrueBlockVisited(I, f, m, b, {b});
      }
      if Visits(I, f, env, b) {
        var n: nat :| StateAt(I, f, env, n).At? && StateAt(I, f, env, n).block == b;
        RunAgrees(I, f, m, n);
      }
    }
    forall p, b | (p, b) in ControlEdges(f.blocks) ensures (p, b) in m.edges <==> Takes(I, f, env, p, b) {
      if (p, b) in m.edges {
        EdgeSource(f, m, p, b);
        assert Find(f.blocks, p).value in f.blocks && p in Ids(f);
        var n: nat :| StateAt(I, f, env, n).At? && StateAt(I, f, env, n).block == p;
        EdgeTaken(I, f, m, p, b, n);
      }
      if Takes(I, f, env, p, b) {
        var n: nat :| StateAt(I, f, env, n).At? && StateAt(I, f, env, n).block == b
          && StateAt(I, f, env, n).pred == Some(p);
        RunAgrees(I, f, m, n);
      }
    }
  }

  // ----- every run is a model -----

  /** The model a run leaves: blocks entered, edges taken, the values of the final environment. */
  ghost function ModelOf(I: Interp, f: Func, env: Env, last: nat): Model
    requires StateAt(I, f, env, last).At? && Find(f.blocks, StateAt(I, f, env, last).block).Some?
    requires forall k: nat | k <= last :: StateAt(I, f, env, k).At?
  {
    Model(set k: nat | k <= last :: StateAt(I, f, env, k).block,
          set k: nat | k <= last && StateAt(I, f, env, k).pred.Some? ::
            (StateAt(I, f, env, k).pred.value, StateAt(I, f, env, k).block),
          map v | v in Values(f) :: Pattern(EndEnv(I, f, env, last), v))
  }

  function Pattern(env: Env, v: Value): nat {
    if v in env && env[v].Int? then env[v].n else 0
  }

  ghost predicate IsLast(I: Interp, f: Func, env: Env, last: nat) {
    StateAt(I, f, env, last).At? && !StateAt(I, f, env, last + 1).At?
  }

  lemma {:induction false} LastStep(I: Interp, f: Func, env: Env, n: nat) returns (last: nat)
    requires Encodable(f) && StateAt(I, f, env, n).At?
    ensures n <= last && IsLast(I, f, env, last)
    decreases |Ids(f)| - n
  {
    RunEnds(I, f, env, n);
    if StateAt(I, f, env, n + 1).At? {
      RunEnds(I, f, env, n + 1);
      last := LastStep(I, f, env, n + 1);
    } else {
      last := n;
    }
  }

  lemma StepsUpTo(I: Interp, f: Func, env: Env, last: nat)
    requires Encodable(f) && StateAt(I, f, env, last).At?
    ensures Find(f.blocks, StateAt(I, f, env, last).block).Some?
    ensures forall k: nat | k <= last :: StateAt(I, f, env, k).At?
  {
    RunFound(I, f, env, last);
    forall k: nat | k <= last ensures StateAt(I, f, env, k).At? {
      EarlierAt(I, f, env, last, k);
    }
  }

  /** The run enters no block whose branch has equal targets. */
  ghost predicate Splits(I: Interp, f: Func, env: Env) {
    forall n: nat, i: nat | StateAt(I, f, env, n).At? :: !EqualTargets(f, StateAt(I, f, env, n).block, i)
  }

  ghost predicate EqualTargets(f: Func, b: BlockId, i: nat) {
    HasInst(f, b, i) && InstOf(f, b, i).Branch? && InstOf(f, b, i).onTrue == InstOf(f, b, i).onFalse
  }

  ghost predicate Finished(I: Interp, f: Func, env: Env, last: nat) {
    && TakesOnOne(I) && Encodable(f) && Splits(I, f, env) && Inputs(f, env) && IsLast(I, f, env, last)
    && Find(f.blocks, StateAt(I, f, env, last).block).Some?
    && forall k: nat | k <= last :: StateAt(I, f, env, k).At?
  }

  /** At every point of the run, what is set is what the model says. */
  lemma Settled(I: Interp, f: Func, env: Env, last: nat, n: nat, i: nat)
    requires Finished(I, f, env, last) && n <= last
    requires Find(f.blocks, StateAt(I, f, env, n).block).Some? && i <= Len(f, StateAt(I, f, env, n).block)
    ensures Agrees(ModelOf(I, f, env, last), Before(I, f, StateAt(I, f, env, n), i))
  {
    RunGrows(I, f, env, n, i, last);
    var st := StateAt(I, f, env, last);
    RunBetween(I, f, env, last);
    BlockInside(I, f, st, Seen(I, f, env, last), Len(f, st.block));
  }

  lemma RunShaped(I: Interp, f: Func, env: Env, last: nat)
    requires Finished(I, f, env, last)
    ensures Shaped(f, ModelOf(I, f, env, last))
  {
    var st := StateAt(I, f, env, last);
    RunBetween(I, f, env, last);
    BlockInside(I, f, st, Seen(I, f, env, last), Len(f, st.block));
  }

  lemma OpRuleHolds(I: Interp, f: Func, env: Env, last: nat, n: nat, i: nat)
    requires Finished(I, f, env, last) && n <= last
    requires HasInst(f, StateAt(I, f, env, n).block, i) && IsIntegerOp(InstOf(f, StateAt(I, f, env, n).block, i))
    ensures var b := StateAt(I, f, env, n).block;
            InstRule(f, ModelOf(I, f, env, last), b, InstOf(f, b, i))
  {
    RunBetween(I, f, env, n);
    Settled(I, f, env, last, n, i);
    Settled(I, f, env, last, n, i + 1);
    OpRuleAt(I, f, ModelOf(I, f, env, last), StateAt(I, f, env, n), Seen(I, f, env, n), i);
  }

  lemma OpRuleAt(I: Interp, f: Func, m: Model, st: State, seen: set<BlockId>, i: nat)
    requires Encodable(f) && Between(f, st, seen) && HasInst(f, st.block, i) && IsIntegerOp(InstOf(f, st.block, i))
    requires Agrees(m, Before(I, f, st, i)) && Agrees(m, Before(I, f, st, i + 1))
    ensures InstRule(f, m, st.block, InstOf(f, st.block, i))
  {
    OpComputed(I, f, st, seen, i);
    BlockInside(I, f, st, seen, i);
    OpEquation(f, m, st.block, i, Before(I, f, st, i), Before(I, f, st, i + 1));
  }

  lemma OpEquation(f: Func, m: Model, b: BlockId, i: nat, env: Env, env': Env)
    requires Encodable(f) && HasInst(f, b, i) && IsIntegerOp(InstOf(f, b, i))
    requires Agrees(m, env) && Agrees(m, env') && InRange(f, env)
    requires forall v | v in Uses(InstOf(f, b, i)) :: v in env
    requires Get(env', InstOf(f, b, i).d) == Eval(NoInterp(), f.types, InstOf(f, b, i), env)
    ensures InstRule(f, m, b, InstOf(f, b, i))
  {
    var inst := InstOf(f, b, i);
    InstAt(f, b, i);
    OpInRange(f.types, inst, env);
    assert FusedOk(inst);
    EvalFrame(NoInterp(), f.types, inst, env, EnvOf(m));
  }

  lemma KeepsGoing(I: Interp, f: Func, env: Env, last: nat, n: nat)
    requires Finished(I, f, env, last) && n <= last
    requires Find(f.blocks, StateAt(I, f, env, n).block).Some?
    requires Targets(Find(f.blocks, StateAt(I, f, env, n).block).value) != {}
    ensures n < last && Follows(I, f, StateAt(I, f, env, n), StateAt(I, f, env, n + 1))
  {
    StepsOn(I, f, env, n);
  }

  /** A block is left once only. */
  lemma LeftOnce(I: Interp, f: Func, env: Env, n: nat, k: nat)
    requires Encodable(f) && StateAt(I, f, env, n).At? && StateAt(I, f, env, k).At?
    requires StateAt(I, f, env, k).pred == Some(StateAt(I, f, env, n).block)
    ensures k == n + 1
  {
    PredOf(I, f, env, k);
    var j := k - 1;
    SameStep(I, f, env, j, n);
  }

  /** The run takes exactly one edge out of each block it leaves. */
  lemma LeavesBy(I: Interp, f: Func, env: Env, last: nat, n: nat)
    requires Finished(I, f, env, last) && n < last
    requires Follows(I, f, StateAt(I, f, env, n), StateAt(I, f, env, n + 1))
    ensures forall t :: (StateAt(I, f, env, n).block, t) in ModelOf(I, f, env, last).edges
              <==> t == StateAt(I, f, env, n + 1).block
  {
    var b := StateAt(I, f, env, n).block;
    forall k: nat | k <= last && StateAt(I, f, env, k).pred == Some(b) ensures k == n + 1 {
      LeftOnce(I, f, env, n, k);
    }
    assert StateAt(I, f, env, n + 1).pred == Some(b);
  }

  // ----- each rule holds of the model a run leaves -----

  lemma JumpRuleHolds(I: Interp, f: Func, env: Env, last: nat, b: BlockId, i: nat)
    requires Finished(I, f, env, last) && HasInst(f, b, i) && InstOf(f, b, i).Jump?
    ensures InstRule(f, ModelOf(I, f, env, last), b, InstOf(f, b, i))
  {
    var m := ModelOf(I, f, env, last);
    if b in m.blocks {
      var n: nat :| n <= last && StateAt(I, f, env, n).block == b;
      Leaving(I, f, env, last, n, i);
    } else if (b, InstOf(f, b, i).target) in m.edges {
      EdgeLeaves(I, f, env, last, b, InstOf(f, b, i).target);
    }
  }

  lemma BranchRuleHolds(I: Interp, f: Func, env: Env, last: nat, b: BlockId, i: nat)
    requires Finished(I, f, env, last) && HasInst(f, b, i) && InstOf(f, b, i).Branch?
    ensures InstRule(f, ModelOf(I, f, env, last), b, InstOf(f, b, i))
  {
    var m := ModelOf(I, f, env, last);
    var inst := InstOf(f, b, i);
    if b in m.blocks {
      var n: nat :| n <= last && StateAt(I, f, env, n).block == b;
      BranchTaken(I, f, env, last, n, i);
    } else {
      if (b, inst.onTrue) in m.edges { EdgeLeaves(I, f, env, last, b, inst.onTrue); }
      if (b, inst.onFalse) in m.edges { EdgeLeaves(I, f, env, last, b, inst.onFalse); }
    }
    assert BranchRule(m, b, inst);
  }

  lemma BranchTaken(I: Interp, f: Func, env: Env, last: nat, n: nat, i: nat)
    requires Finished(I, f, env, last) && n <= last
    requires HasInst(f, StateAt(I, f, env, n).block, i) && InstOf(f, StateAt(I, f, env, n).block, i).Branch?
    ensures BranchRule(ModelOf(I, f, env, last), StateAt(I, f, env, n).block, InstOf(f, StateAt(I, f, env, n).block, i))
  {
    var st, next := StateAt(I, f, env, n), StateAt(I, f, env, n + 1);
    Leaving(I, f, env, last, n, i);
    assert !EqualTargets(f, st.block, i);
    CondTaken(I, f, env, last, n, i);
    var inst := InstOf(f, st.block, i);
    assert NextBlock(I, inst, next.env) == Some(next.block);
    OneTrueEdge(I, ModelOf(I, f, env, last), st.block, inst, next.block, Get(next.env, inst.cond));
  }

  lemma OneTrueEdge(I: Interp, m: Model, b: BlockId, i: Inst, next: BlockId, x: Data)
    requires i.Branch? && i.onTrue != i.onFalse && b in m.blocks
    requires I.taken(x) <==> Get(EnvOf(m), i.cond) == Int(1)
    requires next == if I.taken(x) then i.onTrue else i.onFalse
    requires forall t :: (b, t) in m.edges <==> t == next
    ensures BranchRule(m, b, i)
  {
  }

  lemma CondTaken(I: Interp, f: Func, env: Env, last: nat, n: nat, i: nat)
    requires Finished(I, f, env, last) && n < last
    requires HasInst(f, StateAt(I, f, env, n).block, i) && InstOf(f, StateAt(I, f, env, n).block, i).Branch?
    requires i + 1 == Len(f, StateAt(I, f, env, n).block)
    ensures var c := InstOf(f, StateAt(I, f, env, n).block, i).cond;
            I.taken(Get(StateAt(I, f, env, n + 1).env, c)) <==> Get(EnvOf(ModelOf(I, f, env, last)), c) == Int(1)
  {
    var st := StateAt(I, f, env, n);
    RunBetween(I, f, env, n);
    RunHands(I, f, env, n);
    TerminatorReady(I, f, st, Seen(I, f, env, n), i);
    Settled(I, f, env, last, n, Len(f, st.block));
    CondAgrees(I, f, ModelOf(I, f, env, last), Before(I, f, st, Len(f, st.block)), st.block, i);
  }

  /** A jump or branch of a block the run enters is its last instruction and is followed. */
  lemma Leaving(I: Interp, f: Func, env: Env, last: nat, n: nat, i: nat)
    requires Finished(I, f, env, last) && n <= last
    requires HasInst(f, StateAt(I, f, env, n).block, i)
    requires InstOf(f, StateAt(I, f, env, n).block, i).Jump? || InstOf(f, StateAt(I, f, env, n).block, i).Branch?
    ensures n < last && i + 1 == Len(f, StateAt(I, f, env, n).block)
    ensures StateAt(I, f, env, n).block in ModelOf(I, f, env, last).blocks
    ensures var next := StateAt(I, f, env, n + 1);
            next.At? && NextBlock(I, InstOf(f, StateAt(I, f, env, n).block, i), next.env) == Some(next.block)
    ensures Follows(I, f, StateAt(I, f, env, n), StateAt(I, f, env, n + 1))
    ensures forall t :: (StateAt(I, f, env, n).block, t) in ModelOf(I, f, env, last).edges
              <==> t == StateAt(I, f, env, n + 1).block
  {
    JumpIsLast(f, StateAt(I, f, env, n).block, i);
    KeepsGoing(I, f, env, last, n);
    LeavesBy(I, f, env, last, n);
  }

  lemma JumpIsLast(f: Func, b: BlockId, i: nat)
    requires ControlOk(f) && HasInst(f, b, i) && (InstOf(f, b, i).Jump? || InstOf(f, b, i).Branch?)
    ensures i + 1 == Len(f, b) && Targets(Find(f.blocks, b).value) != {}
  {
    var t := InstOf(f, b, i);
    assert IsTerminator(t);
    assert (if t.Jump? then t.target else t.onTrue) in Targets(Find(f.blocks, b).value);
  }

  /** Edges the run takes leave blocks it enters. */
  lemma EdgeLeaves(I: Interp, f: Func, env: Env, last: nat, p: BlockId, b: BlockId)
    requires Finished(I, f, env, last) && (p, b) in ModelOf(I, f, env, last).edges
    ensures p in ModelOf(I, f, env, last).blocks && (p, b) in ControlEdges(f.blocks)
  {
    var k: nat :| k <= last && StateAt(I, f, env, k).pred == Some(p) && StateAt(I, f, env, k).block == b;
    PredOf(I, f, env, k);
  }

  lemma PhiRuleHolds(I: Interp, f: Func, env: Env, last: nat, b: BlockId, i: nat)
    requires Finished(I, f, env, last) && HasInst(f, b, i) && InstOf(f, b, i).Phi?
    ensures InstRule(f, ModelOf(I, f, env, last), b, InstOf(f, b, i))
  {
    var m := ModelOf(I, f, env, last);
    var inst := InstOf(f, b, i);
    forall p | p in inst.operands && (p, b) in m.edges
      ensures Get(EnvOf(m), inst.d) == Get(EnvOf(m), inst.operands[p])
    {
      var k: nat :| k <= last && StateAt(I, f, env, k).pred == Some(p) && StateAt(I, f, env, k).block == b;
      PhiSettled(I, f, env, last, k, i);
    }
    assert PhiRule(m, b, inst);
  }

  lemma PhiSettled(I: Interp, f: Func, env: Env, last: nat, k: nat, i: nat)
    requires Finished(I, f, env, last) && k <= last && StateAt(I, f, env, k).pred.Some?
    requires HasInst(f, StateAt(I, f, env, k).block, i) && InstOf(f, StateAt(I, f, env, k).block, i).Phi?
    ensures var inst := InstOf(f, StateAt(I, f, env, k).block, i);
            var p := StateAt(I, f, env, k).pred.value;
            p in inst.operands && Get(EnvOf(ModelOf(I, f, env, last)), inst.d)
                               == Get(EnvOf(ModelOf(I, f, env, last)), inst.operands[p])
  {
    var st := StateAt(I, f, env, k);
    RunBetween(I, f, env, k);
    PhiEntered(f, st, Seen(I, f, env, k), i);
    EnteredKeeps(f, st, Seen(I, f, env, k));
    Settled(I, f, env, last, k, 0);
    assert Before(I, f, st, 0) == Entered(f, st);
  }

  lemma BlockRuleHolds(I: Interp, f: Func, env: Env, last: nat, b: BlockId)
    requires Finished(I, f, env, last)
    ensures BlockRule(f, ModelOf(I, f, env, last), b)
  {
    var m := ModelOf(I, f, env, last);
    if b == f.entry {
      assert StateAt(I, f, env, 0).block == b;
    } else if b in m.blocks {
      var n: nat :| n <= last && StateAt(I, f, env, n).block == b;
      assert n > 0;
      RunFound(I, f, env, n);
      var p := StateAt(I, f, env, n - 1).block;
      assert StateAt(I, f, env, n).pred == Some(p);
      assert (p, b) in ControlEdges(f.blocks) && (p, b) in m.edges;
    }
  }

  lemma InstRuleHolds(I: Interp, f: Func, env: Env, last: nat, b: BlockId, i: nat)
    requires Finished(I, f, env, last) && HasInst(f, b, i)
    ensures InstRule(f, ModelOf(I, f, env, last), b, InstOf(f, b, i))
  {
    var m := ModelOf(I, f, env, last);
    var inst := InstOf(f, b, i);
    InstAt(f, b, i);
    if inst.Jump? {
      JumpRuleHolds(I, f, env, last, b, i);
    } else if inst.Branch? {
      BranchRuleHolds(I, f, env, last, b, i);
    } else if inst.Phi? {
      PhiRuleHolds(I, f, env, last, b, i);
    } else if IsIntegerOp(inst) && b in m.blocks {
      var n: nat :| n <= last && StateAt(I, f, env, n).block == b;
      OpRuleHolds(I, f, env, last, n, i);
    }
  }

  lemma RunSatisfies(I: Interp, f: Func, env: Env, last: nat)
    requires Finished(I, f, env, last)
    ensures Shaped(f, ModelOf(I, f, env, last)) && Satisfies(f, ModelOf(I, f, env, last))
  {
    var m := ModelOf(I, f, env, last);
    RunShaped(I, f, env, last);
    forall b | b in f.blocks ensures BlockRule(f, m, b.id) { BlockRuleHolds(I, f, env, last, b.id); }
    forall b | b in f.blocks ensures InstRules(f, m, b) {
      BlockFound(f, b);
      forall i | i in b.insts ensures InstRule(f, m, b.id, i) {
        var k :| 0 <= k < |b.insts| && b.insts[k] == i;
        InstRuleHolds(I, f, env, last, b.id, k);
      }
    }
  }

  /** Every run that enters no block with equal targets is a model, with its inputs as values. */
  lemma RunIsModel(I: Interp, f: Func, env: Env) returns (m: Model)
    requires TakesOnOne(I) && Encodable(f) && Inputs(f, env) && Splits(I, f, env)
    ensures Shaped(f, m) && Satisfies(f, m) && InputsOf(f, m) == env
  {
    var last := LastStep(I, f, env, 0);
    StepsUpTo(I, f, env, last);
    m := ModelOf(I, f, env, last);
    RunSatisfies(I, f, env, last);
    StartBetween(f, env);
    EnteredKeeps(f, Start(f, env), {});
    Settled(I, f, env, last, 0, 0);
    assert Before(I, f, Start(f, env), 0) == Entered(f, Start(f, env));
    InputsKept(f, m, env, Entered(f, Start(f, env)));
  }

  lemma InputsKept(f: Func, m: Model, env: Env, env': Env)
    requires Shaped(f, m) && Inputs(f, env) && Extends(env, env') && Agrees(m, env')
    ensures InputsOf(f, m) == env
  {
  }

  /** A branch with equal targets would need its edge both with the condition and against it. */
  lemma TrueBlockSplits(f: Func, m: Model, b: BlockId, i: nat)
    requires Satisfies(f, m) && b in m.blocks
    ensures !EqualTargets(f, b, i)
  {
    if HasInst(f, b, i) { RuleAt(f, m, b, i); }
  }

  /** Some model has given inputs if and only if their run enters no block whose branch has equal
      targets; the constraints of such a block contradict each other. */
  lemma ModelExists(I: Interp, f: Func, env: Env)
    requires TakesOnOne(I) && Encodable(f) && Inputs(f, env)
    ensures (exists m :: Shaped(f, m) && Satisfies(f, m) && InputsOf(f, m) == env) <==> Splits(I, f, env)
  {
    if m :| Shaped(f, m) && Satisfies(f, m) && InputsOf(f, m) == env {
      forall n: nat, i: nat | StateAt(I, f, env, n).At? ensures !EqualTargets(f, StateAt(I, f, env, n).block, i) {
        RunAgrees(I, f, m, n);
        TrueBlockSplits(f, m, StateAt(I, f, env, n).block, i);
      }
    }
    if Splits(I, f, env) {
      var m := RunIsModel(I, f, env);
    }
  }
}
