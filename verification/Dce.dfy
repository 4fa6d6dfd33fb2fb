/** Dead code elimination (optimization/dce.rs). */
module Dce {
  import opened Types
  import opened Ir
  import opened Ssa

  // ----- what is required -----

  /** get_operands: uses, and for a phi all incoming values. */
  function Operands(i: Inst): set<Value> {
    (set v | v in Uses(i)) + (if i.Phi? then i.operands.Values else {})
  }

  ghost predicate InBlocks(blocks: seq<Block>, i: Inst) {
    exists b :: b in blocks && i in b.insts
  }

  function FirstIn(insts: seq<Inst>, v: Value): Option<Inst> {
    if insts == [] then None
    else if Def(insts[0]) == Some(v) then Some(insts[0])
    else FirstIn(insts[1..], v)
  }

  /** The first instruction in block order that defines v. */
  function FirstDef(blocks: seq<Block>, v: Value): Option<Inst> {
    if blocks == [] then None
    else if FirstIn(blocks[0].insts, v).Some? then FirstIn(blocks[0].insts, v)
    else FirstDef(blocks[1..], v)
  }

  /** An operand of an instruction with side effects. */
  ghost predicate Seed(blocks: seq<Block>, v: Value) {
    exists i :: InBlocks(blocks, i) && HasSideEffects(i) && v in Operands(i)
  }

  ghost predicate Feeds(blocks: seq<Block>, v: Value, user: Value) {
    FirstDef(blocks, user).Some? && v in Operands(FirstDef(blocks, user).value)
  }

  /** v is an operand of a side effect, or n definitions away from one. */
  ghost predicate RequiredIn(blocks: seq<Block>, v: Value, n: nat)
    decreases n
  {
    if n == 0 then Seed(blocks, v)
    else exists u :: RequiredIn(blocks, u, n - 1) && Feeds(blocks, v, u)
  }

  /** v reaches a side effect through a chain of definitions. */
  ghost predicate Required(blocks: seq<Block>, v: Value) {
    exists n: nat :: RequiredIn(blocks, v, n)
  }

  ghost predicate Closed(blocks: seq<Block>, s: iset<Value>) {
    && (forall v | Seed(blocks, v) :: v in s)
    && (forall v, u | u in s && Feeds(blocks, v, u) :: v in s)
  }

  ghost function RequiredSet(blocks: seq<Block>): iset<Value> {
    iset v | Required(blocks, v)
  }

  lemma {:induction false} RequiredInClosed(blocks: seq<Block>, s: iset<Value>, v: Value, n: nat)
    requires Closed(blocks, s) && RequiredIn(blocks, v, n)
    ensures v in s
    decreases n
  {
    if n > 0 {
      var u :| RequiredIn(blocks, u, n - 1) && Feeds(blocks, v, u);
      RequiredInClosed(blocks, s, u, n - 1);
    }
  }

  /** The required values are the least set that holds the operands of side effects and is closed
      under operands of definitions. */
  lemma RequiredIsLeast(blocks: seq<Block>, s: iset<Value>)
    ensures Closed(blocks, RequiredSet(blocks))
    ensures Closed(blocks, s) ==> RequiredSet(blocks) <= s
  {
    forall v | Seed(blocks, v) ensures Required(blocks, v) {
      assert RequiredIn(blocks, v, 0);
    }
    forall v, u | Required(blocks, u) && Feeds(blocks, v, u) ensures Required(blocks, v) {
      var n: nat :| RequiredIn(blocks, u, n);
      assert RequiredIn(blocks, v, n + 1);
    }
    if Closed(blocks, s) {
      forall v | Required(blocks, v) ensures v in s {
        var n: nat :| RequiredIn(blocks, v, n);
        RequiredInClosed(blocks, s, v, n);
      }
    }
  }

  // ----- what is kept -----

  ghost predicate Keeps(used: iset<Value>, i: Inst) {
    HasSideEffects(i) || (Def(i).Some? && Def(i).value in used)
  }

  ghost function KeepInsts(used: iset<Value>, insts: seq<Inst>): seq<Inst> {
    if insts == [] then []
    else if Keeps(used, insts[0]) then [insts[0]] + KeepInsts(used, insts[1..])
    else KeepInsts(used, insts[1..])
  }

  ghost function PruneBlock(used: iset<Value>, b: Block): Block {
    b.(insts := KeepInsts(used, b.insts))
  }

  ghost function PruneBlocks(used: iset<Value>, blocks: seq<Block>): (r: seq<Block>)
    ensures |r| == |blocks| && forall k | 0 <= k < |blocks| :: r[k] == PruneBlock(used, blocks[k])
  {
    seq(|blocks|, k requires 0 <= k < |blocks| => PruneBlock(used, blocks[k]))
  }

  ghost function Pruned(f: Func): Func {
    f.(blocks := PruneBlocks(RequiredSet(f.blocks), f.blocks))
  }

  // ----- the pass -----

  method GetOperands(i: Inst) returns (ops: seq<Value>)
    ensures forall v :: v in ops <==> v in Operands(i)
  {
    ops := Uses(i);
    if i.Phi? {
      var keys := i.operands.Keys;
      while keys != {}
        invariant keys <= i.operands.Keys
        invariant forall v :: v in ops <==> exists k :: k in i.operands && k !in keys && i.operands[k] == v
        decreases |keys|
      {
        var k :| k in keys;
        keys := keys - {k};
        ops := ops + [i.operands[k]];
      }
    }
  }

  method FindDef(blocks: seq<Block>, v: Value) returns (r: Option<Inst>)
    ensures r == FirstDef(blocks, v)
  {
    for k := 0 to |blocks|
      invariant FirstDef(blocks, v) == FirstDef(blocks[k..], v)
    {
      var insts := blocks[k].insts;
      assert blocks[k..][0] == blocks[k] && blocks[k..][1..] == blocks[k + 1..];
      for j := 0 to |insts|
        invariant FirstIn(insts, v) == FirstIn(insts[j..], v)
      {
        assert insts[j..][0] == insts[j] && insts[j..][1..] == insts[j + 1..];
        if Def(insts[j]) == Some(v) {
          return Some(insts[j]);
        }
      }
    }
    return None;
  }

  ghost function AllOperands(blocks: seq<Block>): set<Value> {
    set b, i, v | b in blocks && i in b.insts && v in Operands(i) :: v
  }

  lemma FirstDefInBlocks(blocks: seq<Block>, v: Value)
    ensures FirstDef(blocks, v).Some? ==>
              InBlocks(blocks, FirstDef(blocks, v).value) && Def(FirstDef(blocks, v).value) == Some(v)
  {
    if blocks != [] {
      FirstInIn(blocks[0].insts, v);
      if FirstIn(blocks[0].insts, v).None? {
        FirstDefInBlocks(blocks[1..], v);
        if FirstDef(blocks, v).Some? {
          var b :| b in blocks[1..] && FirstDef(blocks, v).value in b.insts;
          assert b in blocks;
        }
      }
    }
  }

  lemma FirstInIn(insts: seq<Inst>, v: Value)
    ensures FirstIn(insts, v).Some? ==> FirstIn(insts, v).value in insts && Def(FirstIn(insts, v).value) == Some(v)
    ensures FirstIn(insts, v).None? ==> forall i | i in insts :: Def(i) != Some(v)
  {
    if insts != [] { FirstInIn(insts[1..], v); }
  }

  /** A required value is read by a side effect or by the definition of a required value. */
  lemma RequiredReader(blocks: seq<Block>, v: Value) returns (i: Inst)
    requires Required(blocks, v)
    ensures InBlocks(blocks, i) && v in Operands(i)
    ensures HasSideEffects(i) || (Def(i).Some? && Required(blocks, Def(i).value))
  {
    var n: nat :| RequiredIn(blocks, v, n);
    if n == 0 {
      i :| InBlocks(blocks, i) && HasSideEffects(i) && v in Operands(i);
    } else {
      var u :| RequiredIn(blocks, u, n - 1) && Feeds(blocks, v, u);
      FirstDefInBlocks(blocks, u);
      i := FirstDef(blocks, u).value;
    }
  }

  /** Step 1: the operands of every instruction with side effects. */
  method Roots(blocks: seq<Block>) returns (worklist: seq<Value>)
    ensures forall v :: v in worklist <==> Seed(blocks, v)
  {
    worklist := [];
    for k := 0 to |blocks|
      invariant forall v :: v in worklist <==> Seed(blocks[..k], v)
    {
      var insts := blocks[k].insts;
      assert blocks[..k + 1] == blocks[..k] + [blocks[k]];
      ghost var before := worklist;
      for j := 0 to |insts|
        invariant forall v :: v in worklist
                              <==> v in before || exists i :: i in insts[..j] && HasSideEffects(i) && v in Operands(i)
      {
        assert insts[..j + 1] == insts[..j] + [insts[j]];
        if HasSideEffects(insts[j]) {
          var ops := GetOperands(insts[j]);
          worklist := worklist + ops;
        }
      }
      assert insts[..|insts|] == insts;
      forall v ensures v in worklist <==> Seed(blocks[..k + 1], v) {
        if Seed(blocks[..k], v) {
          var i :| InBlocks(blocks[..k], i) && HasSideEffects(i) && v in Operands(i);
          assert InBlocks(blocks[..k + 1], i);
        }
        if exists i :: i in insts && HasSideEffects(i) && v in Operands(i) {
          var i :| i in insts && HasSideEffects(i) && v in Operands(i);
          assert InBlocks(blocks[..k + 1], i);
        }
      }
    }
    assert blocks[..|blocks|] == blocks;
  }

  /** Step 2: the worklist, which may hold a value many times. */
  method Propagate(blocks: seq<Block>, roots: seq<Value>) returns (used: set<Value>)
    requires forall v :: v in roots <==> Seed(blocks, v)
    ensures forall v :: v in used <==> Required(blocks, v)
  {
    used := {};
    var visited: set<Value> := {};
    var worklist := roots;
    ghost var all := AllOperands(blocks);
    RequiredIsLeast(blocks, iset{});
    while worklist != []
      invariant used == visited
      invariant forall v | v in worklist :: v in all && Required(blocks, v)
      invariant forall v | v in used :: Required(blocks, v)
      invariant forall v | Seed(blocks, v) :: v in used || v in worklist
      invariant forall v, u | u in used && Feeds(blocks, v, u) :: v in used || v in worklist
      decreases all - visited, |worklist|
    {
      var val := worklist[|worklist| - 1];
      ghost var was := worklist;
      worklist := worklist[..|worklist| - 1];
      assert was == worklist + [val];
      if val !in visited {
        visited := visited + {val};
        used := used + {val};
        var def := FindDef(blocks, val);
        FirstDefInBlocks(blocks, val);
        if def.Some? {
          var ops := GetOperands(def.value);
          forall v | v in ops ensures v in all && Required(blocks, v) {
            assert Feeds(blocks, v, val);
          }
          worklist := worklist + ops;
        }
      }
    }
    ClosedIsRequired(blocks, used);
  }

  /** A closed set of required values holds them all. */
  lemma ClosedIsRequired(blocks: seq<Block>, used: set<Value>)
    requires forall v | v in used :: Required(blocks, v)
    requires forall v | Seed(blocks, v) :: v in used
    requires forall v, u | u in used && Feeds(blocks, v, u) :: v in used
    ensures forall v :: v in used <==> Required(blocks, v)
  {
    var s := iset v | v in used;
    assert Closed(blocks, s);
    RequiredIsLeast(blocks, s);
    forall v | Required(blocks, v) ensures v in used {
      assert v in RequiredSet(blocks) && v in s;
    }
  }

  method EliminateDeadCode(func: Function)
    modifies func`blocks
    ensures func.View() == Pruned(old(func.View()))
  {
    ghost var blocks := func.blocks;
    var roots := Roots(func.blocks);
    var used := Propagate(func.blocks, roots);
    ghost var req := RequiredSet(blocks);
    for k := 0 to |func.blocks|
      invariant |func.blocks| == |blocks|
      invariant forall m | 0 <= m < k :: func.blocks[m] == PruneBlock(req, blocks[m])
      invariant forall m | k <= m < |blocks| :: func.blocks[m] == blocks[m]
    {
      var kept := Retain(func.blocks[k].insts, used, req);
      func.blocks := func.blocks[k := func.blocks[k].(insts := kept)];
    }
    assert func.blocks == PruneBlocks(req, blocks);
  }

  method Retain(insts: seq<Inst>, used: set<Value>, ghost req: iset<Value>) returns (kept: seq<Inst>)
    requires forall v :: v in used <==> v in req
    ensures kept == KeepInsts(req, insts)
  {
    kept := [];
    for j := 0 to |insts|
      invariant kept + KeepInsts(req, insts[j..]) == KeepInsts(req, insts)
    {
      assert insts[j..][0] == insts[j] && insts[j..][1..] == insts[j + 1..];
      if HasSideEffects(insts[j]) || (Def(insts[j]).Some? && Def(insts[j]).value in used) {
        kept := kept + [insts[j]];
      }
    }
  }

  // ----- meaning is preserved -----

  ghost predicate Agree(used: iset<Value>, env: Env, env': Env) {
    forall v | v in used :: Get(env, v) == Get(env', v)
  }

  /** Whatever is kept reads only required values. */
  ghost predicate Covered(used: iset<Value>, i: Inst) {
    FusedOk(i) && (Keeps(used, i) ==> forall v | v in Operands(i) :: v in used)
  }

  lemma {:induction false} PrunedPhiValues(used: iset<Value>, insts: seq<Inst>, pred: Option<BlockId>, env: Env,
                                           env': Env)
    requires Agree(used, env, env') && forall i | i in insts :: Covered(used, i)
    ensures var p, p' := PhiValues(insts, pred, env), PhiValues(KeepInsts(used, insts), pred, env');
            forall v | v in used :: (v in p <==> v in p') && (v in p ==> p[v] == p'[v])
  {
    if insts != [] {
      var i := insts[0];
      PrunedPhiValues(used, insts[1..], pred, env, env');
      if Keeps(used, i) {
        assert KeepInsts(used, insts)[0] == i && KeepInsts(used, insts)[1..] == KeepInsts(used, insts[1..]);
        assert Covered(used, i);
        if i.Phi? && pred.Some? && pred.value in i.operands {
          assert i.operands[pred.value] in Operands(i);
        }
      }
    }
  }

  ghost predicate SameOutcome(used: iset<Value>, o: Outcome, o': Outcome) {
    match o
    case Goto(t, env, trace) => o'.Goto? && o'.target == t && o'.trace == trace && Agree(used, env, o'.env)
    case Ret(v, trace) => o' == Ret(v, trace)
    case RanOff(trace) => o' == RanOff(trace)
  }

  /** A kept instruction does the same in both environments. */
  lemma KeptExec(I: Interp, types: map<Value, Type>, used: iset<Value>, i: Inst, env: Env, env': Env, trace: Trace)
    requires Agree(used, env, env') && Covered(used, i) && Keeps(used, i) && !IsTerminator(i)
    ensures var (e, t) := Exec(I, types, i, env, trace);
            var (e', t') := Exec(I, types, i, env', trace);
            Agree(used, e, e') && t == t'
  {
    assert forall v | v in Uses(i) :: v in Operands(i);
    assert GetAll(env, Uses(i)) == GetAll(env', Uses(i));
    if IsPureOp(i) { EvalFrame(I, types, i, env, env'); }
  }

  lemma {:induction false} PrunedExec(I: Interp, types: map<Value, Type>, used: iset<Value>, insts: seq<Inst>,
                                      env: Env, env': Env, trace: Trace)
    requires Agree(used, env, env') && forall i | i in insts :: Covered(used, i)
    ensures SameOutcome(used, ExecAll(I, types, insts, env, trace),
                        ExecAll(I, types, KeepInsts(used, insts), env', trace))
  {
    if insts != [] {
      var i := insts[0];
      var kept := KeepInsts(used, insts);
      assert Covered(used, i);
      if Keeps(used, i) {
        assert kept[0] == i && kept[1..] == KeepInsts(used, insts[1..]);
        assert forall v | v in Uses(i) :: v in Operands(i);
        assert GetAll(env, Uses(i)) == GetAll(env', Uses(i));
        if !IsTerminator(i) {
          KeptExec(I, types, used, i, env, env', trace);
          var (e, t) := Exec(I, types, i, env, trace);
          var (e', t') := Exec(I, types, i, env', trace);
          PrunedExec(I, types, used, insts[1..], e, e', t);
        } else if i.Branch? {
          assert i.cond in Uses(i);
        } else if i.Return? && i.ret.Some? {
          assert i.ret.value in Uses(i);
        }
      } else {
        var (e, t) := Exec(I, types, i, env, trace);
        forall v | v in used ensures Get(e, v) == Get(env, v) { ExecChangesOnlyDef(I, types, i, env, trace, v); }
        PrunedExec(I, types, used, insts[1..], e, env', t);
      }
    }
  }

  /** With one definition per value, find_def finds it. */
  lemma FirstDefUnique(f: Func, b: BlockId, i: nat, v: Value)
    requires UniqueIds(f) && UniqueDefs(f) && DefAt(f, b, i, v)
    ensures FirstDef(f.blocks, v) == Some(InstOf(f, b, i))
  {
    FirstDefInBlocks(f.blocks, v);
    var blk := Find(f.blocks, b).value;
    FirstDefSome(f.blocks, blk, v);
    var d := FirstDef(f.blocks, v).value;
    var b' :| b' in f.blocks && d in b'.insts;
    var k :| 0 <= k < |f.blocks| && f.blocks[k] == b';
    FindUnique(f.blocks, k);
    var j :| 0 <= j < |b'.insts| && b'.insts[j] == d;
    assert DefAt(f, b'.id, j, v);
  }

  lemma {:induction false} FirstDefSome(blocks: seq<Block>, b: Block, v: Value)
    requires b in blocks && exists i :: i in b.insts && Def(i) == Some(v)
    ensures FirstDef(blocks, v).Some?
  {
    FirstInIn(blocks[0].insts, v);
    if blocks[0] != b {
      assert b in blocks[1..];
      FirstDefSome(blocks[1..], b, v);
    }
  }

  lemma AllCovered(f: Func, b: BlockId, i: nat)
    requires UniqueIds(f) && UniqueDefs(f) && FusedListed(f) && HasInst(f, b, i)
    ensures Covered(RequiredSet(f.blocks), InstOf(f, b, i))
  {
    var inst := InstOf(f, b, i);
    var req := RequiredSet(f.blocks);
    assert InBlocks(f.blocks, inst);
    RequiredIsLeast(f.blocks, req);
    if Keeps(req, inst) {
      forall v | v in Operands(inst) ensures v in req {
        if HasSideEffects(inst) {
          assert Seed(f.blocks, v);
        } else {
          assert DefAt(f, b, i, Def(inst).value);
          FirstDefUnique(f, b, i, Def(inst).value);
          assert Feeds(f.blocks, v, Def(inst).value);
        }
      }
    }
  }

  lemma {:induction false} FindPruned(used: iset<Value>, blocks: seq<Block>, id: BlockId)
    ensures Find(PruneBlocks(used, blocks), id)
         == (match Find(blocks, id) case Some(b) => Some(PruneBlock(used, b)) case None => None)
  {
    if blocks != [] {
      assert PruneBlocks(used, blocks)[1..] == PruneBlocks(used, blocks[1..]);
      FindPruned(used, blocks[1..], id);
    }
  }

  ghost predicate Similar(used: iset<Value>, st: State, st': State) {
    match st
    case At(b, p, env, trace) =>
      st'.At? && st'.block == b && st'.pred == p && st'.trace == trace && Agree(used, env, st'.env)
    case Halted(v, trace) => st' == Halted(v, trace)
    case Stuck(trace) => st' == Stuck(trace)
  }

  lemma PrunedStep(I: Interp, f: Func, st: State, st': State)
    requires UniqueIds(f) && UniqueDefs(f) && FusedListed(f)
    requires Similar(RequiredSet(f.blocks), st, st')
    ensures Similar(RequiredSet(f.blocks), Step(I, f, st), Step(I, Pruned(f), st'))
  {
    var req := RequiredSet(f.blocks);
    if st.At? {
      FindPruned(req, f.blocks, st.block);
      if Find(f.blocks, st.block).Some? {
        var insts := Find(f.blocks, st.block).value.insts;
        forall i | i in insts ensures Covered(req, i) {
          var k :| 0 <= k < |insts| && insts[k] == i;
          AllCovered(f, st.block, k);
          assert InstOf(f, st.block, k) == i;
        }
        PrunedPhiValues(req, insts, st.pred, st.env, st'.env);
        var env := st.env + PhiValues(insts, st.pred, st.env);
        var env' := st'.env + PhiValues(KeepInsts(req, insts), st.pred, st'.env);
        assert Agree(req, env, env');
        PrunedExec(I, f.types, req, insts, env, env', st.trace);
      }
    }
  }

  lemma {:induction false} PrunedRun(I: Interp, f: Func, env: Env, n: nat)
    requires UniqueIds(f) && UniqueDefs(f) && FusedListed(f)
    ensures Similar(RequiredSet(f.blocks), Run(I, f, Start(f, env), n), Run(I, Pruned(f), Start(Pruned(f), env), n))
  {
    if n > 0 {
      PrunedRun(I, f, env, n - 1);
      PrunedStep(I, f, Run(I, f, Start(f, env), n - 1), Run(I, Pruned(f), Start(Pruned(f), env), n - 1));
    }
  }

  /** DCE preserves every run: same blocks, same effects, same result, after any number of blocks. */
  lemma DcePreservesRuns(I: Interp, f: Func, env: Env, n: nat)
    requires UniqueIds(f) && UniqueDefs(f) && FusedListed(f)
    ensures Observe(Run(I, f, Start(f, env), n)) == Observe(Run(I, Pruned(f), Start(Pruned(f), env), n))
  {
    PrunedRun(I, f, env, n);
  }

  // ----- once is enough -----

  lemma {:induction false} KeepInstsMember(used: iset<Value>, insts: seq<Inst>, i: Inst)
    ensures i in KeepInsts(used, insts) <==> i in insts && Keeps(used, i)
  {
    if insts != [] { KeepInstsMember(used, insts[1..], i); }
  }

  lemma {:induction false} FirstInPruned(used: iset<Value>, insts: seq<Inst>, v: Value)
    requires v in used
    ensures FirstIn(KeepInsts(used, insts), v) == FirstIn(insts, v)
  {
    if insts != [] {
      FirstInPruned(used, insts[1..], v);
      if Keeps(used, insts[0]) {
        assert KeepInsts(used, insts)[1..] == KeepInsts(used, insts[1..]);
      }
    }
  }

  lemma {:induction false} FirstDefPruned(used: iset<Value>, blocks: seq<Block>, v: Value)
    requires v in used
    ensures FirstDef(PruneBlocks(used, blocks), v) == FirstDef(blocks, v)
  {
    if blocks != [] {
      assert PruneBlocks(used, blocks)[1..] == PruneBlocks(used, blocks[1..]);
      FirstInPruned(used, blocks[0].insts, v);
      FirstDefPruned(used, blocks[1..], v);
    }
  }

  lemma SeedPruned(used: iset<Value>, blocks: seq<Block>, v: Value)
    requires Seed(blocks, v)
    ensures Seed(PruneBlocks(used, blocks), v)
  {
    var i :| InBlocks(blocks, i) && HasSideEffects(i) && v in Operands(i);
    var b :| b in blocks && i in b.insts;
    KeepInstsMember(used, b.insts, i);
    var k :| 0 <= k < |blocks| && blocks[k] == b;
    assert PruneBlocks(used, blocks)[k] == PruneBlock(used, b);
    assert InBlocks(PruneBlocks(used, blocks), i);
  }

  /** Everything required before pruning is still required after it. */
  lemma StillRequired(blocks: seq<Block>)
    ensures RequiredSet(blocks) <= RequiredSet(PruneBlocks(RequiredSet(blocks), blocks))
  {
    var req := RequiredSet(blocks);
    var pruned := PruneBlocks(req, blocks);
    var both := iset v | v in req && Required(pruned, v);
    RequiredIsLeast(blocks, both);
    RequiredIsLeast(pruned, both);
    forall v | Seed(blocks, v) ensures v in both { SeedPruned(req, blocks, v); }
    forall v, u | u in both && Feeds(blocks, v, u) ensures v in both {
      FirstDefPruned(req, blocks, u);
      assert Feeds(pruned, v, u);
    }
  }

  lemma {:induction false} KeepInstsTwice(used: iset<Value>, used': iset<Value>, insts: seq<Inst>)
    requires used <= used'
    ensures KeepInsts(used', KeepInsts(used, insts)) == KeepInsts(used, insts)
  {
    if insts != [] {
      KeepInstsTwice(used, used', insts[1..]);
      if Keeps(used, insts[0]) {
        assert KeepInsts(used, insts)[1..] == KeepInsts(used, insts[1..]);
      }
    }
  }

  /** Running DCE twice equals running it once. */
  lemma DceIdempotent(f: Func)
    ensures Pruned(Pruned(f)) == Pruned(f)
  {
    var req := RequiredSet(f.blocks);
    var req' := RequiredSet(Pruned(f).blocks);
    StillRequired(f.blocks);
    forall k | 0 <= k < |f.blocks| ensures Pruned(Pruned(f)).blocks[k] == Pruned(f).blocks[k] {
      KeepInstsTwice(req, req', f.blocks[k].insts);
    }
    assert Pruned(Pruned(f)).blocks == Pruned(f).blocks;
  }

  // ----- the pruned function is well-formed -----

  /** Where instruction k of the kept list stood. */
  ghost function PosOf(used: iset<Value>, insts: seq<Inst>, k: nat): (r: nat)
    requires k < |KeepInsts(used, insts)|
    ensures r < |insts| && insts[r] == KeepInsts(used, insts)[k]
  {
    if Keeps(used, insts[0]) then
      if k == 0 then 0 else 1 + PosOf(used, insts[1..], k - 1)
    else 1 + PosOf(used, insts[1..], k)
  }

  /** Pruning keeps the order of what it keeps. */
  lemma {:induction false} PosOfOrdered(used: iset<Value>, insts: seq<Inst>, k: nat, m: nat)
    requires k < m < |KeepInsts(used, insts)|
    ensures PosOf(used, insts, k) < PosOf(used, insts, m)
  {
    if Keeps(used, insts[0]) {
      if k > 0 { PosOfOrdered(used, insts[1..], k - 1, m - 1); }
    } else {
      PosOfOrdered(used, insts[1..], k, m);
    }
  }

  /** The position in f of instruction i of block b of the pruned function. */
  ghost function Origin(f: Func, b: BlockId, i: nat): nat {
    var used := RequiredSet(f.blocks);
    if Find(f.blocks, b).Some? && i < |KeepInsts(used, Find(f.blocks, b).value.insts)|
    then PosOf(used, Find(f.blocks, b).value.insts, i)
    else 0
  }

  lemma OriginAt(f: Func, b: BlockId, i: nat)
    requires HasInst(Pruned(f), b, i)
    ensures HasInst(f, b, Origin(f, b, i)) && InstOf(Pruned(f), b, i) == InstOf(f, b, Origin(f, b, i))
  {
    FindPruned(RequiredSet(f.blocks), f.blocks, b);
  }

  lemma OriginOrdered(f: Func, b: BlockId, i: nat, j: nat)
    requires HasInst(Pruned(f), b, i) && HasInst(Pruned(f), b, j)
    ensures i < j <==> Origin(f, b, i) < Origin(f, b, j)
  {
    var used := RequiredSet(f.blocks);
    FindPruned(used, f.blocks, b);
    var insts := Find(f.blocks, b).value.insts;
    if i < j { PosOfOrdered(used, insts, i, j); }
    if j < i { PosOfOrdered(used, insts, j, i); }
  }

  lemma PrunedEdges(f: Func, p: BlockId, b: BlockId)
    ensures Edge(Pruned(f), p, b) <==> Edge(f, p, b)
    ensures Find(Pruned(f).blocks, b).Some? <==> Find(f.blocks, b).Some?
    ensures Find(f.blocks, b).Some? ==> Find(Pruned(f).blocks, b).value.preds == Find(f.blocks, b).value.preds
  {
    FindPruned(RequiredSet(f.blocks), f.blocks, p);
    FindPruned(RequiredSet(f.blocks), f.blocks, b);
  }

  lemma PrunedStrictDom(f: Func, a: BlockId, b: BlockId)
    requires StrictDom(f, a, b)
    ensures StrictDom(Pruned(f), a, b)
  {
    forall p | IsPath(Pruned(f), p) && Last(p) == b ensures a in p[..|p| - 1] {
      forall k: nat ensures EdgeAt(f, p, k) {
        assert EdgeAt(Pruned(f), p, k);
        if 0 < k < |p| { PrunedEdges(f, p[k - 1], p[k]); }
      }
      assert IsPath(f, p);
    }
  }

  /** A definition that dominates a point still does, if it is still there. */
  lemma PrunedDefDominates(f: Func, v: Value, b: BlockId, i: nat, i': nat)
    requires DefDominates(f, v, b, i)
    requires forall j: nat | HasInst(Pruned(f), b, j) && Origin(f, b, j) < i :: j < i'
    ensures DefDominates(Pruned(f), v, b, i')
  {
    forall a, j | DefAt(Pruned(f), a, j, v) ensures DomPoint(Pruned(f), a, j, b, i') {
      OriginAt(f, a, j);
      assert DefAt(f, a, Origin(f, a, j), v);
      if StrictDom(f, a, b) { PrunedStrictDom(f, a, b); }
    }
  }

  lemma PrunedUniqueDefs(f: Func)
    requires UniqueDefs(f)
    ensures UniqueDefs(Pruned(f))
  {
    var f' := Pruned(f);
    forall v: Value, a: BlockId, i: nat, b: BlockId, j: nat | DefAt(f', a, i, v) && DefAt(f', b, j, v)
      ensures a == b && i == j
    {
      OriginAt(f, a, i);
      OriginAt(f, b, j);
      assert DefAt(f, a, Origin(f, a, i), v) && DefAt(f, b, Origin(f, b, j), v);
      OriginOrdered(f, a, i, j);
      OriginOrdered(f, a, j, i);
    }
  }

  lemma PrunedControlOk(f: Func)
    requires ControlOk(f)
    ensures ControlOk(Pruned(f))
  {
    var f' := Pruned(f);
    forall b: BlockId, i: nat | HasInst(f', b, i)
      ensures (IsTerminator(InstOf(f', b, i)) ==> i + 1 == Len(f', b)) && JumpsAlongEdges(f', b, InstOf(f', b, i))
    {
      OriginAt(f, b, i);
      var inst := InstOf(f, b, Origin(f, b, i));
      assert JumpsAlongEdges(f, b, inst);
      if inst.Jump? { PrunedEdges(f, b, inst.target); }
      if inst.Branch? { PrunedEdges(f, b, inst.onTrue); PrunedEdges(f, b, inst.onFalse); }
      if IsTerminator(inst) && i + 1 < Len(f', b) {
        OriginAt(f, b, i + 1);
        OriginOrdered(f, b, i, i + 1);
      }
    }
  }

  lemma PrunedPhis(f: Func)
    requires PhisFirst(f) && PredsMatch(f) && PhiKeysArePreds(f)
    ensures PhisFirst(Pruned(f)) && PredsMatch(Pruned(f)) && PhiKeysArePreds(Pruned(f))
  {
    var f' := Pruned(f);
    forall b: BlockId, i: nat, j: nat | i < j && HasInst(f', b, i) && HasInst(f', b, j) && InstOf(f', b, j).Phi?
      ensures InstOf(f', b, i).Phi?
    {
      OriginAt(f, b, i);
      OriginAt(f, b, j);
      OriginOrdered(f, b, i, j);
    }
    forall b: BlockId, p: BlockId | Find(f'.blocks, b).Some?
      ensures Edge(f', p, b) <==> p in Find(f'.blocks, b).value.preds
    {
      PrunedEdges(f, p, b);
    }
    forall b: BlockId, i: nat | HasInst(f', b, i) && InstOf(f', b, i).Phi?
      ensures InstOf(f', b, i).operands.Keys == set p | p in Find(f'.blocks, b).value.preds
    {
      OriginAt(f, b, i);
      PrunedEdges(f, b, b);
    }
  }

  lemma PrunedUses(f: Func)
    requires UsesDominated(f) && LocalOrder(f)
    ensures UsesDominated(Pruned(f)) && LocalOrder(Pruned(f))
  {
    var f' := Pruned(f);
    forall b: BlockId, i: nat, v: Value | HasInst(f', b, i) && v in Uses(InstOf(f', b, i))
      ensures DefDominates(f', v, b, i)
    {
      OriginAt(f, b, i);
      forall j: nat | HasInst(f', b, j) && Origin(f, b, j) < Origin(f, b, i)
        ensures j < i
      {
        OriginOrdered(f, b, j, i);
      }
      PrunedDefDominates(f, v, b, Origin(f, b, i), i);
    }
    forall b: BlockId, i: nat, j: nat, v: Value | HasInst(f', b, i) && v in Uses(InstOf(f', b, i)) && DefAt(f', b, j, v)
      ensures j < i
    {
      OriginAt(f, b, i);
      OriginAt(f, b, j);
      assert DefAt(f, b, Origin(f, b, j), v);
      OriginOrdered(f, b, j, i);
    }
  }

  lemma PrunedPhiInputs(f: Func)
    requires PhiInputsDominated(f)
    ensures PhiInputsDominated(Pruned(f))
  {
    var f' := Pruned(f);
    forall b: BlockId, i: nat, p: BlockId | HasInst(f', b, i) && InstOf(f', b, i).Phi? && p in InstOf(f', b, i).operands
      ensures DefDominates(f', InstOf(f', b, i).operands[p], p, Len(f', p))
    {
      OriginAt(f, b, i);
      PrunedDefDominates(f, InstOf(f', b, i).operands[p], p, Len(f, p), Len(f', p));
    }
  }

  /** Pruning a well-formed function leaves a well-formed one: what follows may rely on dominance again. */
  lemma DceKeepsWellFormed(f: Func)
    requires WellFormed(f)
    ensures WellFormed(Pruned(f))
  {
    var f' := Pruned(f);
    PrunedUniqueDefs(f);
    PrunedControlOk(f);
    PrunedPhis(f);
    PrunedUses(f);
    PrunedPhiInputs(f);
    forall b: BlockId, i: nat | HasInst(f', b, i) ensures FusedOk(InstOf(f', b, i)) { OriginAt(f, b, i); }
  }

  // ----- exactly what is kept -----

  /** s holds what effects and control read, and what the definitions of its own values read. */
  ghost predicate HoldsReads(f: Func, s: iset<Value>) {
    forall b, i, v | b in f.blocks && i in b.insts && (v in Uses(i) || (i.Phi? && v in i.operands.Values)) ::
      i.Effect? || i.Jump? || i.Branch? || i.Return? || (Def(i).Some? && Def(i).value in s) ==> v in s
  }

  lemma HoldsReadsIsClosed(f: Func, s: iset<Value>)
    requires HoldsReads(f, s)
    ensures Closed(f.blocks, s)
  {
    forall v, u | u in s && Feeds(f.blocks, v, u) ensures v in s { FirstDefInBlocks(f.blocks, u); }
  }

  lemma RequiredHoldsReads(f: Func)
    requires UniqueIds(f) && UniqueDefs(f)
    ensures HoldsReads(f, RequiredSet(f.blocks))
  {
    var req := RequiredSet(f.blocks);
    RequiredIsLeast(f.blocks, req);
    forall b, i, v | b in f.blocks && i in b.insts && (v in Uses(i) || (i.Phi? && v in i.operands.Values))
      ensures i.Effect? || i.Jump? || i.Branch? || i.Return? || (Def(i).Some? && Def(i).value in req) ==> v in req
    {
      assert InBlocks(f.blocks, i) && v in Operands(i);
      if HasSideEffects(i) {
        assert Seed(f.blocks, v);
      } else if Def(i).Some? && Def(i).value in req {
        BlockFound(f, b);
        var k :| 0 <= k < |b.insts| && b.insts[k] == i;
        FirstDefUnique(f, b.id, k, Def(i).value);
        assert Feeds(f.blocks, v, Def(i).value);
      }
    }
  }

  /** Pruning keeps the effects and the control of each block, and of its other instructions exactly those
      whose result no set that holds what is read can leave out. */
  lemma PrunedExactly(f: Func, k: nat, i: Inst)
    requires UniqueIds(f) && UniqueDefs(f) && k < |f.blocks|
    ensures i in Pruned(f).blocks[k].insts
       <==> i in f.blocks[k].insts
            && (i.Effect? || i.Jump? || i.Branch? || i.Return?
                || (Def(i).Some? && forall s | HoldsReads(f, s) :: Def(i).value in s))
  {
    var req := RequiredSet(f.blocks);
    KeepInstsMember(req, f.blocks[k].insts, i);
    RequiredHoldsReads(f);
    if Def(i).Some? && Def(i).value in req {
      forall s | HoldsReads(f, s) ensures Def(i).value in s {
        HoldsReadsIsClosed(f, s);
        RequiredIsLeast(f.blocks, s);
      }
    }
  }
}
