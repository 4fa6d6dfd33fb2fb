/** Integer constant folding (optimization/constant_folding.rs). */
module ConstFold {
  import opened Types
  import opened Bits
  import opened Ir
  import opened Ssa
  import opened Rewrite

  type Consts = map<Value, int>

  /** The 64-bit constant an instruction is known to give, release-build wrap-around. */
  function Known(K: Consts, i: Inst): Option<int> {
    match i
    case ConstInt(_, v) => Some(v)
    case Arith(op, _, l, r) =>
      if l in K && r in K then
        (match op
         case Add => Some(WrapI64(K[l] + K[r]))
         case Sub => Some(WrapI64(K[l] - K[r]))
         case Mul => Some(WrapI64(K[l] * K[r]))
         case _ => None)
      else None
    case Neg(_, s) => if s in K then Some(WrapI64(-K[s])) else None
    case _ => None
  }

  function FoldInst(K: Consts, i: Inst): Inst {
    if Known(K, i).Some? then ConstInt(i.d, Known(K, i).value) else i
  }

  function Learn(K: Consts, i: Inst): Consts {
    if Known(K, i).Some? then K[i.d := Known(K, i).value] else K
  }

  function FoldInsts(K: Consts, insts: seq<Inst>): (seq<Inst>, Consts)
    decreases insts
  {
    if insts == [] then ([], K)
    else
      var (rest, K') := FoldInsts(Learn(K, insts[0]), insts[1..]);
      ([FoldInst(K, insts[0])] + rest, K')
  }

  /** One map for the whole function, filled in block-list order. */
  function FoldBlocks(K: Consts, blocks: seq<Block>): (seq<Block>, Consts)
    decreases blocks
  {
    if blocks == [] then ([], K)
    else
      var (insts, K') := FoldInsts(K, blocks[0].insts);
      var (rest, K'') := FoldBlocks(K', blocks[1..]);
      ([blocks[0].(insts := insts)] + rest, K'')
  }

  function Folded(f: Func): Func {
    f.(blocks := FoldBlocks(map[], f.blocks).0)
  }

  lemma FoldBlocksNext(K: Consts, blocks: seq<Block>, k: nat)
    requires k < |blocks|
    ensures var (insts, K') := FoldInsts(K, blocks[k].insts);
            FoldBlocks(K, blocks[k..]).0 == [blocks[k].(insts := insts)] + FoldBlocks(K', blocks[k + 1..]).0
  {
    assert blocks[k..][0] == blocks[k] && blocks[k..][1..] == blocks[k + 1..];
  }

  /** The first k blocks are done; the rest are as they were. */
  ghost predicate FoldedUpTo(now: seq<Block>, blocks: seq<Block>, K: Consts, k: nat) {
    && k <= |blocks| == |now| && now[k..] == blocks[k..]
    && now[..k] + FoldBlocks(K, blocks[k..]).0 == FoldBlocks(map[], blocks).0
  }

  lemma FoldedNext(now: seq<Block>, blocks: seq<Block>, K: Consts, k: nat, insts: seq<Inst>, K': Consts)
    requires FoldedUpTo(now, blocks, K, k) && k < |blocks| && (insts, K') == FoldInsts(K, blocks[k].insts)
    ensures now[k] == blocks[k] && FoldedUpTo(now[k := now[k].(insts := insts)], blocks, K', k + 1)
  {
    var b := blocks[k].(insts := insts);
    FoldBlocksNext(K, blocks, k);
    assert now[k] == now[k..][0] == blocks[k..][0];
    assert now[k := b][k + 1..] == now[k..][1..] == blocks[k + 1..];
    assert now[k := b][..k + 1] == now[..k] + [b];
    assert now[..k] + [b] + FoldBlocks(K', blocks[k + 1..]).0 == now[..k] + ([b] + FoldBlocks(K', blocks[k + 1..]).0);
  }

  method FoldConstants(func: Function)
    modifies func`blocks
    ensures func.View() == Folded(old(func.View()))
  {
    ghost var blocks := func.blocks;
    var constants: Consts := map[];
    assert FoldedUpTo(blocks, blocks, constants, 0) by { assert blocks[0..] == blocks; }
    for k := 0 to |func.blocks|
      invariant FoldedUpTo(func.blocks, blocks, constants, k)
    {
      ghost var K := constants;
      var done;
      done, constants := FoldBlock(constants, func.blocks[k].insts);
      assert func.blocks[k] == func.blocks[k..][0] == blocks[k..][0];
      FoldedNext(func.blocks, blocks, K, k, done, constants);
      func.blocks := func.blocks[k := func.blocks[k].(insts := done)];
    }
    assert func.blocks[..|func.blocks|] == func.blocks;
  }

  /** Drains one block and rebuilds it. */
  method FoldBlock(K: Consts, insts: seq<Inst>) returns (done: seq<Inst>, constants: Consts)
    ensures (done, constants) == FoldInsts(K, insts)
  {
    done, constants := [], K;
    assert insts[0..] == insts;
    for j := 0 to |insts|
      invariant FoldInsts(K, insts).0 == done + FoldInsts(constants, insts[j..]).0
      invariant FoldInsts(K, insts).1 == FoldInsts(constants, insts[j..]).1
    {
      assert insts[j..][0] == insts[j] && insts[j..][1..] == insts[j + 1..];
      var inst := insts[j];
      var c := Known(constants, inst);
      if c.Some? {
        done := done + [ConstInt(inst.d, c.value)];
        constants := constants[inst.d := c.value];
      } else {
        done := done + [inst];
      }
    }
    assert FoldInsts(constants, insts[|insts|..]) == ([], constants);
    assert done == FoldInsts(K, insts).0 && constants == FoldInsts(K, insts).1;
  }

  // ----- 64-bit arithmetic cut to width w is arithmetic at width w -----

  /** Folding in wrapping v-bit arithmetic and cutting to width w equals computing at width w on
      operands cut to their own widths. */
  lemma FoldAdd(x: int, y: int, v: nat, wl: nat, wr: nat, w: nat)
    requires 0 < v && w <= v && w <= wl && w <= wr
    ensures Wrap(ToSigned(Wrap(x + y, v), v), w) == Wrap(Wrap(x, wl) + Wrap(y, wr), w)
  {
    var j := WrapOperand(x, w, wl);
    var k := WrapOperand(y, w, wr);
    SignedThenWrap(x + y, v, w);
    assert x + y == (Wrap(x, wl) + Wrap(y, wr)) + (j + k) * Pow2(w);
    WrapCongruent(x + y, Wrap(x, wl) + Wrap(y, wr), j + k, w);
  }

  lemma FoldSub(x: int, y: int, v: nat, wl: nat, wr: nat, w: nat)
    requires 0 < v && w <= v && w <= wl && w <= wr
    ensures Wrap(ToSigned(Wrap(x - y, v), v), w) == Wrap(Wrap(x, wl) - Wrap(y, wr), w)
  {
    var j := WrapOperand(x, w, wl);
    var k := WrapOperand(y, w, wr);
    SignedThenWrap(x - y, v, w);
    assert x - y == (Wrap(x, wl) - Wrap(y, wr)) + (j - k) * Pow2(w);
    WrapCongruent(x - y, Wrap(x, wl) - Wrap(y, wr), j - k, w);
  }

  lemma FoldMul(x: int, y: int, v: nat, wl: nat, wr: nat, w: nat)
    requires 0 < v && w <= v && w <= wl && w <= wr
    ensures Wrap(ToSigned(Wrap(x * y, v), v), w) == Wrap(Wrap(x, wl) * Wrap(y, wr), w)
  {
    var j := WrapOperand(x, w, wl);
    var k := WrapOperand(y, w, wr);
    var a, b, m := Wrap(x, wl), Wrap(y, wr), Pow2(w);
    SignedThenWrap(x * y, v, w);
    MulCongruent(x, y, a, b, j, k, m);
    WrapCongruent(x * y, a * b, a * k + b * j + j * k * m, w);
  }

  // ----- exactly when folding is right -----

  predicate Folds(op: ArithOp) {
    op == Add || op == Sub || op == Mul
  }

  function Exact(op: ArithOp, x: int, y: int): int
    requires Folds(op)
  {
    if op == Add then x + y else if op == Sub then x - y else x * y
  }

  /** Folding op in wrapping v-bit arithmetic gives the operation's result for all constants. */
  ghost predicate FoldsRight(op: ArithOp, v: nat, wl: nat, wr: nat, w: nat)
    requires Folds(op)
  {
    forall x: int, y: int | InWord(x, v) && InWord(y, v) ::
      Wrap(ToSigned(Wrap(Exact(op, x, y), v), v), w) == EvalArith(op, Wrap(x, wl), Wrap(y, wr), w)
  }

  lemma Pow2Grows(a: nat, b: nat)
    requires a <= b
    ensures Pow2(a) <= Pow2(b)
  {
  }

  lemma PowerNotMultiple(a: nat, w: nat)
    requires a < w
    ensures Wrap(Minus(a), w) != 0 && Wrap(Pow2(a), w) != 0
  {
    Pow2Grows(a + 1, w);
    assert Pow2(a + 1) == 2 * Pow2(a);
    DivModUnique(Minus(a), Pow2(w), -1, Pow2(w) - Pow2(a));
    DivModUnique(Pow2(a), Pow2(w), 0, Pow2(a));
  }

  lemma PowerWraps(a: nat)
    ensures Wrap(Minus(a), a) == 0 && Wrap(0, a) == 0
  {
    DivModUnique(Minus(a), Pow2(a), -1, 0);
    DivModUnique(0, Pow2(a), 0, 0);
  }

  lemma PowerInWord(a: nat, v: nat)
    requires a < v
    ensures InWord(Minus(a), v) && InWord(0, v)
  {
    Pow2Grows(a, v - 1);
  }

  lemma NarrowLeft(op: ArithOp, v: nat, wl: nat, wr: nat, w: nat)
    requires Folds(op) && wl < w <= v && 1 < v
    ensures !FoldsRight(op, v, wl, wr, w)
  {
    var x, y := Minus(wl), if op == Mul then 1 else 0;
    PowerInWord(wl, v);
    PowerInWord(0, v);
    assert InWord(y, v) by { assert Pow2(v - 1) == 2 * Pow2(v - 2); }
    assert Exact(op, x, y) == x;
    SignedThenWrap(x, v, w);
    PowerNotMultiple(wl, w);
    PowerWraps(wl);
    PowerWraps(wr);
    PowerWraps(w);
  }

  lemma NarrowRight(op: ArithOp, v: nat, wl: nat, wr: nat, w: nat)
    requires Folds(op) && wr < w <= v && 1 < v
    ensures !FoldsRight(op, v, wl, wr, w)
  {
    var x, y := if op == Mul then 1 else 0, Minus(wr);
    PowerInWord(wr, v);
    PowerInWord(0, v);
    assert InWord(x, v) by { assert Pow2(v - 1) == 2 * Pow2(v - 2); }
    assert Exact(op, x, y) == if op == Sub then Pow2(wr) else y;
    SignedThenWrap(Exact(op, x, y), v, w);
    PowerNotMultiple(wr, w);
    PowerWraps(wl);
    PowerWraps(wr);
    PowerWraps(w);
  }

  /** Folding a sum, difference or product in v-bit arithmetic is right for all constants if and only
      if neither operand is narrower than the result. */
  lemma FoldsRightExactly(op: ArithOp, v: nat, wl: nat, wr: nat, w: nat)
    requires Folds(op) && w <= v && 1 < v
    ensures FoldsRight(op, v, wl, wr, w) <==> w <= wl && w <= wr
  {
    if wl < w {
      NarrowLeft(op, v, wl, wr, w);
    } else if wr < w {
      NarrowRight(op, v, wl, wr, w);
    } else {
      forall x: int, y: int | InWord(x, v) && InWord(y, v)
        ensures Wrap(ToSigned(Wrap(Exact(op, x, y), v), v), w) == EvalArith(op, Wrap(x, wl), Wrap(y, wr), w)
      {
        FoldedArith(op, x, y, v, wl, wr, w);
      }
    }
  }

  // ----- meaning is preserved -----

  /** The instructions the pass folds once it knows the values of C. */
  predicate OnConsts(i: Inst, C: set<Value>) {
    match i
    case ConstInt(_, _) => true
    case Arith(op, _, l, r) => Folds(op) && l in C && r in C
    case Neg(_, s) => s in C
    case _ => false
  }

  /** C holds every constant of f, and every result of a foldable operation on values of C. */
  ghost predicate HoldsConsts(f: Func, C: set<Value>) {
    forall b, i | HasInst(f, b, i) && OnConsts(InstOf(f, b, i), C) :: InstOf(f, b, i).d in C
  }

  ghost predicate WidthsIn(f: Func, C: set<Value>) {
    && HoldsConsts(f, C)
    && forall b, i | HasInst(f, b, i) && OnConsts(InstOf(f, b, i), C) :: InstWidthsOk(f.types, InstOf(f, b, i))
  }

  /** What is computed from constants alone is computed from operands at least as wide as the result.
      Nothing is asked of any other instruction. */
  ghost predicate WidthsOk(f: Func) {
    exists C :: WidthsIn(f, C)
  }

  predicate InstWidthsOk(types: map<Value, Type>, i: Inst) {
    match i
    case Arith(_, d, l, r) => Width(types, d) <= Width(types, l) && Width(types, d) <= Width(types, r)
    case Neg(d, s) => Width(types, d) <= Width(types, s)
    case _ => true
  }

  /** Wherever v is available it holds the constant c. */
  ghost predicate AlwaysConst(I: Interp, f: Func, v: Value, c: int) {
    && (exists a, j :: DefAt(f, a, j, v))
    && forall env, b, i | Equations(I, f, env, b, i) && DefDominates(f, v, b, i) ::
         Get(env, v) == Int(Wrap(c, Width(f.types, v)))
  }

  ghost predicate AllConst(I: Interp, f: Func, K: Consts) {
    forall v | v in K :: AlwaysConst(I, f, v, K[v])
  }

  lemma KnownIsOnConsts(K: Consts, C: set<Value>, i: Inst)
    requires K.Keys <= C && Known(K, i).Some?
    ensures OnConsts(i, C)
  {
  }

  lemma WidthAtMost64(types: map<Value, Type>, v: Value)
    ensures Width(types, v) <= 64
  {
    if v in types { BitWidthAtMost64(types[v]); }
  }

  lemma BitWidthAtMost64(t: Type)
    ensures IntBitWidth(t).Some? ==> IntBitWidth(t).value <= 64
  {
  }

  /** The operands of an instruction are available where it is, and so wherever its result is. */
  lemma OperandConst(I: Interp, f: Func, K: Consts, a: BlockId, j: nat, env: Env, b: BlockId, i: nat, u: Value)
    requires WellFormed(f) && AllConst(I, f, K) && HasInst(f, a, j)
    requires u in Uses(InstOf(f, a, j)) && u in K
    requires DomPoint(f, a, j, b, i) || (a == b && j == i)
    requires Equations(I, f, env, b, i)
    ensures Get(env, u) == Int(Wrap(K[u], Width(f.types, u)))
  {
    assert DefDominates(f, u, a, j);
    forall c, k | DefAt(f, c, k, u) ensures DomPoint(f, c, k, b, i) {
      if !(a == b && j == i) { DomTransitive(f, c, k, a, j, b, i); }
    }
    assert DefDominates(f, u, b, i);
    assert AlwaysConst(I, f, u, K[u]);
  }

  /** The constant computed from constant operands is the instruction's result. */
  lemma KnownIsArith(types: map<Value, Type>, K: Consts, i: Inst)
    requires (i.Arith? || i.Neg?) && Known(K, i).Some? && InstWidthsOk(types, i)
    ensures i.Arith? ==>
              Wrap(Known(K, i).value, Width(types, i.d))
              == EvalArith(i.aop, Wrap(K[i.l], Width(types, i.l)), Wrap(K[i.r], Width(types, i.r)), Width(types, i.d))
    ensures i.Neg? ==>
              Wrap(Known(K, i).value, Width(types, i.d))
                == Wrap(0 - (Wrap(K[i.s], Width(types, i.s)) as int), Width(types, i.d))
  {
    WidthAtMost64(types, i.d);
    if i.Neg? {
      NegIsArith(K[i.s], 64, Width(types, i.s), Width(types, i.d));
    } else {
      FoldedArith(i.aop, K[i.l], K[i.r], 64, Width(types, i.l), Width(types, i.r), Width(types, i.d));
    }
  }

  lemma NegIsArith(x: int, v: nat, ws: nat, w: nat)
    requires 0 < v && w <= v && w <= ws
    ensures Wrap(ToSigned(Wrap(0 - x, v), v), w) == Wrap(0 - (Wrap(x, ws) as int), w)
  {
    FoldSub(0, x, v, w, ws, w);
    PowerWraps(w);
  }

  lemma FoldedArith(op: ArithOp, x: int, y: int, v: nat, wl: nat, wr: nat, w: nat)
    requires Folds(op) && 0 < v && w <= v && w <= wl && w <= wr
    ensures Wrap(ToSigned(Wrap(Exact(op, x, y), v), v), w) == EvalArith(op, Wrap(x, wl), Wrap(y, wr), w)
  {
    if op == Add { FoldAdd(x, y, v, wl, wr, w); }
    else if op == Sub { FoldSub(x, y, v, wl, wr, w); }
    else { FoldMul(x, y, v, wl, wr, w); }
  }

  /** What the pass computes for an instruction is what the instruction gives. */
  lemma KnownIsEval(I: Interp, f: Func, C: set<Value>, K: Consts, a: BlockId, j: nat, env: Env, b: BlockId, i: nat)
    requires WellFormed(f) && WidthsIn(f, C) && K.Keys <= C && AllConst(I, f, K) && HasInst(f, a, j)
    requires Known(K, InstOf(f, a, j)).Some?
    requires DomPoint(f, a, j, b, i) || (a == b && j == i)
    requires Equations(I, f, env, b, i)
    ensures Eval(I, f.types, InstOf(f, a, j), env)
         == Int(Wrap(Known(K, InstOf(f, a, j)).value, Width(f.types, InstOf(f, a, j).d)))
  {
    var inst := InstOf(f, a, j);
    KnownIsOnConsts(K, C, inst);
    forall u | u in Uses(inst) && u in K ensures Get(env, u) == Int(Wrap(K[u], Width(f.types, u))) {
      OperandConst(I, f, K, a, j, env, b, i, u);
    }
    EvalKnown(I, f.types, K, inst, env);
  }

  lemma EvalKnown(I: Interp, types: map<Value, Type>, K: Consts, i: Inst, env: Env)
    requires Known(K, i).Some? && InstWidthsOk(types, i)
    requires forall u | u in Uses(i) && u in K :: Get(env, u) == Int(Wrap(K[u], Width(types, u)))
    ensures Eval(I, types, i, env) == Int(Wrap(Known(K, i).value, Width(types, i.d)))
  {
    if i.Arith? {
      assert i.l in Uses(i) && i.r in Uses(i);
      KnownIsArith(types, K, i);
    } else if i.Neg? {
      assert i.s in Uses(i);
      KnownIsArith(types, K, i);
    }
  }

  lemma LearnKeepsConst(I: Interp, f: Func, C: set<Value>, K: Consts, a: BlockId, j: nat)
    requires WellFormed(f) && WidthsIn(f, C) && K.Keys <= C && AllConst(I, f, K) && HasInst(f, a, j)
    ensures AllConst(I, f, Learn(K, InstOf(f, a, j))) && Learn(K, InstOf(f, a, j)).Keys <= C
  {
    var inst := InstOf(f, a, j);
    if Known(K, inst).Some? {
      KnownIsOnConsts(K, C, inst);
      assert DefAt(f, a, j, inst.d);
      forall env, b, i | Equations(I, f, env, b, i) && DefDominates(f, inst.d, b, i)
        ensures Get(env, inst.d) == Int(Wrap(Known(K, inst).value, Width(f.types, inst.d)))
      {
        assert EquationAt(I, f, env, a, j);
        KnownIsEval(I, f, C, K, a, j, env, b, i);
      }
    }
  }

  lemma FoldedReplaces(I: Interp, f: Func, C: set<Value>, K: Consts, a: BlockId, j: nat)
    requires WellFormed(f) && WidthsIn(f, C) && K.Keys <= C && AllConst(I, f, K) && HasInst(f, a, j)
    ensures Replaces(I, f, a, j, FoldInst(K, InstOf(f, a, j)))
  {
    var inst := InstOf(f, a, j);
    assert FusedOk(inst);
    forall v | v in Uses(FoldInst(K, inst)) ensures DefDominates(f, v, a, j) && DefinedEarlier(f, v, a, j) {
      assert v in Uses(inst);
    }
    forall env | Equations(I, f, env, a, j) ensures SameResult(I, f.types, inst, FoldInst(K, inst), env) {
      FoldedResult(I, f, C, K, a, j, env);
    }
  }

  lemma FoldedResult(I: Interp, f: Func, C: set<Value>, K: Consts, a: BlockId, j: nat, env: Env)
    requires WellFormed(f) && WidthsIn(f, C) && K.Keys <= C && AllConst(I, f, K)
    requires HasInst(f, a, j) && Equations(I, f, env, a, j)
    ensures SameResult(I, f.types, InstOf(f, a, j), FoldInst(K, InstOf(f, a, j)), env)
  {
    var inst := InstOf(f, a, j);
    if Known(K, inst).Some? {
      KnownIsEval(I, f, C, K, a, j, env, a, j);
      ConstResult(I, f.types, inst, Known(K, inst).value, env);
    }
  }

  lemma ConstResult(I: Interp, types: map<Value, Type>, i: Inst, v: int, env: Env)
    requires IsPureOp(i) && Eval(I, types, i, env) == Int(Wrap(v, Width(types, i.d)))
    ensures SameResult(I, types, i, ConstInt(i.d, v), env)
  {
  }

  lemma {:induction false} FoldInstsFacts(I: Interp, f: Func, C: set<Value>, K: Consts, a: BlockId, j: nat)
    requires WellFormed(f) && WidthsIn(f, C) && K.Keys <= C && AllConst(I, f, K)
    requires Find(f.blocks, a).Some? && j <= Len(f, a)
    ensures var (insts, K') := FoldInsts(K, Find(f.blocks, a).value.insts[j..]);
            AllConst(I, f, K') && K'.Keys <= C && |insts| == Len(f, a) - j && ReplacedInsts(I, f, a, j, insts)
    decreases Len(f, a) - j
  {
    var insts := Find(f.blocks, a).value.insts;
    if j < |insts| {
      assert insts[j..][0] == InstOf(f, a, j) && insts[j..][1..] == insts[j + 1..];
      LearnKeepsConst(I, f, C, K, a, j);
      FoldedReplaces(I, f, C, K, a, j);
      FoldInstsFacts(I, f, C, Learn(K, insts[j]), a, j + 1);
      var rest := FoldInsts(Learn(K, insts[j]), insts[j + 1..]).0;
      var folded := FoldInsts(K, insts[j..]).0;
      assert folded == [FoldInst(K, insts[j])] + rest;
      forall k | 0 <= k < |folded| ensures HasInst(f, a, j + k) && Replaces(I, f, a, j + k, folded[k]) {
        if k > 0 {
          assert folded[k] == rest[k - 1];
          assert Replaces(I, f, a, (j + 1) + (k - 1), rest[k - 1]);
        }
      }
    }
  }

  lemma {:induction false} FoldBlocksFacts(I: Interp, f: Func, C: set<Value>, K: Consts, k: nat)
    requires WellFormed(f) && WidthsIn(f, C) && K.Keys <= C && AllConst(I, f, K) && k <= |f.blocks|
    ensures var blocks := FoldBlocks(K, f.blocks[k..]).0;
            && |blocks| == |f.blocks| - k
            && forall m | k <= m < |f.blocks| :: ReplacedBlock(I, f, f.blocks[m], blocks[m - k])
    decreases |f.blocks| - k
  {
    if k < |f.blocks| {
      var b := f.blocks[k];
      FoldBlocksNext(K, f.blocks, k);
      FindUnique(f.blocks, k);
      assert b.insts[0..] == b.insts;
      FoldInstsFacts(I, f, C, K, b.id, 0);
      var (insts, K') := FoldInsts(K, b.insts);
      FoldBlocksFacts(I, f, C, K', k + 1);
      var rest := FoldBlocks(K', f.blocks[k + 1..]).0;
      var blocks := FoldBlocks(K, f.blocks[k..]).0;
      assert blocks == [b.(insts := insts)] + rest;
      forall m | k <= m < |f.blocks| ensures ReplacedBlock(I, f, f.blocks[m], blocks[m - k]) {
        if m > k { assert blocks[m - k] == rest[m - (k + 1)]; }
      }
    }
  }

  /** Folding leaves every run exactly as it was, whatever the order of the block list, if what is computed
      from constants is computed at their width or below. */
  lemma FoldingPreservesRuns(I: Interp, f: Func, env: Env, n: nat)
    requires WellFormed(f) && WidthsOk(f)
    ensures WellFormed(Folded(f))
    ensures Run(I, f, Start(f, env), n) == Run(I, Folded(f), Start(Folded(f), env), n)
  {
    var C :| WidthsIn(f, C);
    assert f.blocks[0..] == f.blocks;
    FoldBlocksFacts(I, f, C, map[], 0);
    assert Rewritten(I, f, Folded(f));
    RewrittenIsEqual(I, f, Folded(f), env, n);
  }
}
