/** Folding on whole functions: on `return x op y` it is right for all constants exactly where the widths
    allow it, and on a program whose constant a comparison retypes it changes the returned value. */
module FoldExamples {
  import opened Types
  import opened Bits
  import opened Ir
  import opened Ssa
  import opened ConstFold

  /** One instruction of straight-line code. */
  lemma ExecFirst(I: Interp, types: map<Value, Type>, i: Inst, rest: seq<Inst>, env: Env, x: Data)
    requires IsPureOp(i) && Eval(I, types, i, env) == x
    ensures ExecAll(I, types, [i] + rest, env, []) == ExecAll(I, types, rest, env[i.d := x], [])
  {
    assert ([i] + rest)[1..] == rest;
  }

  /** One step of the pass inside a block. */
  lemma FoldFirst(K: Consts, i: Inst, rest: seq<Inst>, i': Inst, K': Consts)
    requires FoldInst(K, i) == i' && Learn(K, i) == K'
    ensures FoldInsts(K, [i] + rest) == ([i'] + FoldInsts(K', rest).0, FoldInsts(K', rest).1)
  {
    assert ([i] + rest)[1..] == rest;
  }

  /** A list without constants and foldable operations stays as it is. */
  lemma {:induction false} Unfolded(K: Consts, insts: seq<Inst>)
    requires forall i | i in insts :: !i.ConstInt? && !i.Arith? && !i.Neg?
    ensures FoldInsts(K, insts) == (insts, K)
  {
    if insts != [] {
      Unfolded(K, insts[1..]);
      assert [insts[0]] + insts[1..] == insts;
    }
  }

  /** One block of the pass. */
  lemma FoldFirstBlock(K: Consts, b: Block, rest: seq<Block>, insts: seq<Inst>, K': Consts)
    requires FoldInsts(K, b.insts) == (insts, K')
    ensures FoldBlocks(K, [b] + rest).0 == [b.(insts := insts)] + FoldBlocks(K', rest).0
  {
    assert ([b] + rest)[1..] == rest;
  }

  /** What is defined in the entry block dominates every other block. */
  lemma EntryDominates(f: Func, b: BlockId)
    requires b != f.entry
    ensures StrictDom(f, f.entry, b)
  {
    forall p | IsPath(f, p) && Last(p) == b ensures f.entry in p[..|p| - 1] {
      assert p[..|p| - 1][0] == p[0];
    }
  }

  // ----- return x op y -----

  function Operation(op: ArithOp, x: int, y: int, types: map<Value, Type>): Func {
    Func([Block(0, [ConstInt(0, x), ConstInt(1, y), Arith(op, 2, 0, 1), Return(Some(2))], [], [])], 0, types)
  }

  function Straight(i: Inst, x: int, y: int, types: map<Value, Type>): Func {
    Func([Block(0, [ConstInt(0, x), ConstInt(1, y), i, Return(Some(2))], [], [])], 0, types)
  }

  lemma OperationFolds(op: ArithOp, x: int, y: int, types: map<Value, Type>)
    requires Folds(op)
    ensures Folded(Operation(op, x, y, types)) == Straight(ConstInt(2, WrapI64(Exact(op, x, y))), x, y, types)
  {
    var b := Operation(op, x, y, types).blocks[0];
    OperationInstsFold(op, x, y);
    var (insts, K) := FoldInsts(map[], b.insts);
    FoldFirstBlock(map[], b, [], insts, K);
    assert [b] + [] == [b];
  }

  lemma OperationInstsFold(op: ArithOp, x: int, y: int)
    requires Folds(op)
    ensures FoldInsts(map[], [ConstInt(0, x), ConstInt(1, y), Arith(op, 2, 0, 1), Return(Some(2))]).0
         == [ConstInt(0, x), ConstInt(1, y), ConstInt(2, WrapI64(Exact(op, x, y))), Return(Some(2))]
  {
    var K, c, tail := map[0 := x, 1 := y], WrapI64(Exact(op, x, y)), [Return(Some(2))];
    ResultFolds(op, x, y, K);
    FoldFirst(map[0 := x], ConstInt(1, y), [Arith(op, 2, 0, 1)] + tail, ConstInt(1, y), K);
    FoldFirst(map[], ConstInt(0, x), [ConstInt(1, y)] + ([Arith(op, 2, 0, 1)] + tail), ConstInt(0, x), map[0 := x]);
    OperationSplit(x, y, Arith(op, 2, 0, 1));
    OperationSplit(x, y, ConstInt(2, c));
  }

  lemma OperationSplit(x: int, y: int, i: Inst)
    ensures [ConstInt(0, x)] + ([ConstInt(1, y)] + ([i] + [Return(Some(2))]))
         == [ConstInt(0, x), ConstInt(1, y), i, Return(Some(2))]
  {
  }

  lemma ResultKnown(op: ArithOp, x: int, y: int, K: Consts)
    requires Folds(op) && K == map[0 := x, 1 := y]
    ensures Known(K, Arith(op, 2, 0, 1)) == Some(WrapI64(Exact(op, x, y)))
  {
  }

  lemma ResultFolds(op: ArithOp, x: int, y: int, K: Consts)
    requires Folds(op) && K == map[0 := x, 1 := y]
    ensures FoldInsts(K, [Arith(op, 2, 0, 1)] + [Return(Some(2))]).0
         == [ConstInt(2, WrapI64(Exact(op, x, y)))] + [Return(Some(2))]
  {
    var c := WrapI64(Exact(op, x, y));
    ResultKnown(op, x, y, K);
    Unfolded(K[2 := c], [Return(Some(2))]);
    FoldFirst(K, Arith(op, 2, 0, 1), [Return(Some(2))], ConstInt(2, c), K[2 := c]);
  }

  lemma StraightRun(I: Interp, i: Inst, x: int, y: int, types: map<Value, Type>, env: Env, r: Data)
    requires IsPureOp(i) && i.d == 2
    requires var e := env[0 := Int(Wrap(x, Width(types, 0)))][1 := Int(Wrap(y, Width(types, 1)))];
             Eval(I, types, i, e) == r
    ensures var f := Straight(i, x, y, types); Run(I, f, Start(f, env), 1) == Halted(Some(r), [])
  {
    var f := Straight(i, x, y, types);
    NoPhiValues(f.blocks[0].insts, None, env);
    StraightExec(I, i, x, y, types, env, r);
    assert Run(I, f, Start(f, env), 1) == Step(I, f, Start(f, env));
  }

  lemma StraightExec(I: Interp, i: Inst, x: int, y: int, types: map<Value, Type>, env: Env, r: Data)
    requires IsPureOp(i) && i.d == 2
    requires var e := env[0 := Int(Wrap(x, Width(types, 0)))][1 := Int(Wrap(y, Width(types, 1)))];
             Eval(I, types, i, e) == r
    ensures ExecAll(I, types, Straight(i, x, y, types).blocks[0].insts, env, []) == Ret(Some(r), [])
  {
    var a, b, tail := Int(Wrap(x, Width(types, 0))), Int(Wrap(y, Width(types, 1))), [Return(Some(2))];
    ExecFirst(I, types, i, tail, env[0 := a][1 := b], r);
    ExecFirst(I, types, ConstInt(1, y), [i] + tail, env[0 := a], b);
    ExecFirst(I, types, ConstInt(0, x), [ConstInt(1, y)] + ([i] + tail), env, a);
    OperationSplit(x, y, i);
  }

  lemma OperationRuns(I: Interp, op: ArithOp, x: int, y: int, types: map<Value, Type>, env: Env)
    requires Folds(op)
    ensures var f := Operation(op, x, y, types);
            var w := Width(types, 2);
            && Run(I, f, Start(f, env), 1)
               == Halted(Some(Int(EvalArith(op, Wrap(x, Width(types, 0)), Wrap(y, Width(types, 1)), w))), [])
            && Run(I, Folded(f), Start(Folded(f), env), 1) == Halted(Some(Int(Wrap(WrapI64(Exact(op, x, y)), w))), [])
  {
    var w := Width(types, 2);
    OperationFolds(op, x, y, types);
    StraightRun(I, Arith(op, 2, 0, 1), x, y, types, env,
                Int(EvalArith(op, Wrap(x, Width(types, 0)), Wrap(y, Width(types, 1)), w)));
    StraightRun(I, ConstInt(2, WrapI64(Exact(op, x, y))), x, y, types, env, Int(Wrap(WrapI64(Exact(op, x, y)), w)));
  }

  lemma OperationInsts(op: ArithOp, x: int, y: int, types: map<Value, Type>, b: BlockId, i: nat)
    ensures var f := Operation(op, x, y, types);
            && (HasInst(f, b, i) <==> b == 0 && i < 4)
            && (HasInst(f, b, i) ==> InstOf(f, b, i) == f.blocks[0].insts[i] && Len(f, b) == 4)
            && (forall v :: DefAt(f, b, i, v) <==> b == 0 && i < 3 && v == i)
            && forall p :: !Edge(f, p, b)
  {
    var f := Operation(op, x, y, types);
    assert Find(f.blocks, 0) == Some(f.blocks[0]);
    assert f.blocks[1..] == [];
    assert b != 0 ==> Find(f.blocks, b) == None;
  }

  lemma OperationWellFormed(op: ArithOp, x: int, y: int, types: map<Value, Type>)
    ensures WellFormed(Operation(op, x, y, types))
  {
    var f := Operation(op, x, y, types);
    forall b: BlockId, i: nat
      ensures HasInst(f, b, i) <==> b == 0 && i < 4
      ensures HasInst(f, b, i) ==> InstOf(f, b, i) == f.blocks[0].insts[i] && Len(f, b) == 4
    {
      OperationInsts(op, x, y, types, b, i);
    }
    forall b: BlockId, i: nat, v: Value ensures DefAt(f, b, i, v) <==> b == 0 && i < 3 && v == i {
      OperationInsts(op, x, y, types, b, i);
    }
    forall p: BlockId, b: BlockId ensures !Edge(f, p, b) { OperationInsts(op, x, y, types, b, 0); }
  }

  ghost predicate SameRuns(I: Interp, f: Func, env: Env) {
    forall n: nat :: Run(I, f, Start(f, env), n) == Run(I, Folded(f), Start(Folded(f), env), n)
  }

  lemma OperationWidths(op: ArithOp, x: int, y: int, types: map<Value, Type>)
    requires Width(types, 2) <= Width(types, 0) && Width(types, 2) <= Width(types, 1)
    ensures WidthsOk(Operation(op, x, y, types))
  {
    var f := Operation(op, x, y, types);
    forall b: BlockId, i: nat | HasInst(f, b, i) && OnConsts(InstOf(f, b, i), {0, 1, 2})
      ensures InstOf(f, b, i).d in {0, 1, 2} && InstWidthsOk(types, InstOf(f, b, i))
    {
      OperationInsts(op, x, y, types, b, i);
    }
    assert WidthsIn(f, {0, 1, 2});
  }

  /** Folding keeps the runs of `return x op y` for all constants if and only if neither operand is narrower
      than the result. */
  lemma FoldingExact(I: Interp, op: ArithOp, types: map<Value, Type>, env: Env)
    requires Folds(op)
    ensures (forall x, y | InWord(x, 64) && InWord(y, 64) :: SameRuns(I, Operation(op, x, y, types), env))
       <==> Width(types, 2) <= Width(types, 0) && Width(types, 2) <= Width(types, 1)
  {
    var wl, wr, w := Width(types, 0), Width(types, 1), Width(types, 2);
    WidthAtMost64(types, 2);
    FoldsRightExactly(op, 64, wl, wr, w);
    if w <= wl && w <= wr {
      forall x, y | InWord(x, 64) && InWord(y, 64) ensures SameRuns(I, Operation(op, x, y, types), env) {
        var f := Operation(op, x, y, types);
        OperationWellFormed(op, x, y, types);
        OperationWidths(op, x, y, types);
        forall n: nat ensures Run(I, f, Start(f, env), n) == Run(I, Folded(f), Start(Folded(f), env), n) {
          FoldingPreservesRuns(I, f, env, n);
        }
      }
    } else {
      var x: int, y: int :| InWord(x, 64) && InWord(y, 64)
        && Wrap(WrapI64(Exact(op, x, y)), w) != EvalArith(op, Wrap(x, wl), Wrap(y, wr), w);
      var f := Operation(op, x, y, types);
      OperationRuns(I, op, x, y, types, env);
      assert Run(I, f, Start(f, env), 1) != Run(I, Folded(f), Start(Folded(f), env), 1);
      assert !SameRuns(I, f, env);
    }
  }

  // ----- x = 2; y = x + 1; if flag == x: return y; return y -----

  function EntryInsts(y: Inst): seq<Inst> {
    [ConstInt(1, 2), ConstInt(2, 1), y] + Tail()
  }

  function Tail(): seq<Inst> {
    [Cmp(Eq, 4, 0, 1), Branch(4, 1, 2)]
  }

  lemma EntrySplit(y: Inst)
    ensures [ConstInt(1, 2)] + ([ConstInt(2, 1)] + ([y] + Tail())) == EntryInsts(y)
  {
  }

  /** flag is value 0, x is 1, y is 3. The comparison has made the constant x a boolean. */
  function Compared(y: Inst): Func {
    Func([Block(0, EntryInsts(y), [], [1, 2]),
          Block(1, [Nop, Return(Some(3))], [0], []),
          Block(2, [Nop, Jump(3)], [0], [3]),
          Block(3, [Return(Some(3))], [2], [])],
         0, map[0 := Bool, 1 := Bool, 2 := I64, 3 := I64, 4 := Bool])
  }

  function Retyped(): Func {
    Compared(Arith(Add, 3, 1, 2))
  }

  lemma ComparedFound(y: Inst, b: BlockId)
    ensures Find(Compared(y).blocks, b) == if b < 4 then Some(Compared(y).blocks[b]) else None
  {
    var bs := Compared(y).blocks;
    assert bs[1..] == [bs[1], bs[2], bs[3]] && bs[1..][1..] == [bs[2], bs[3]];
    assert bs[1..][1..][1..] == [bs[3]] && bs[1..][1..][1..][1..] == [];
  }

  lemma RetypedInsts(b: BlockId, i: nat)
    ensures HasInst(Retyped(), b, i) <==> b < 4 && i < |Retyped().blocks[b].insts|
    ensures HasInst(Retyped(), b, i) ==> InstOf(Retyped(), b, i) == Retyped().blocks[b].insts[i]
    ensures b < 4 ==> Len(Retyped(), b) == |Retyped().blocks[b].insts|
  {
    ComparedFound(Arith(Add, 3, 1, 2), b);
  }

  lemma RetypedDefs(b: BlockId, i: nat)
    ensures forall v :: DefAt(Retyped(), b, i, v) <==> b == 0 && i < 4 && v == i + 1
  {
    RetypedInsts(b, i);
    if 0 < b < 4 && i < |Retyped().blocks[b].insts| { assert Def(Retyped().blocks[b].insts[i]) == None; }
  }

  lemma RetypedEdges(p: BlockId, b: BlockId)
    ensures Edge(Retyped(), p, b) <==> (p == 0 && (b == 1 || b == 2)) || (p == 2 && b == 3)
  {
    ComparedFound(Arith(Add, 3, 1, 2), p);
  }

  lemma RetypedPreds(p: BlockId, b: BlockId)
    requires Find(Retyped().blocks, b).Some?
    ensures Edge(Retyped(), p, b) <==> p in Find(Retyped().blocks, b).value.preds
  {
    RetypedEdges(p, b);
    ComparedFound(Arith(Add, 3, 1, 2), b);
  }

  lemma RetypedUse(b: BlockId, i: nat, v: Value)
    requires HasInst(Retyped(), b, i) && v in Uses(InstOf(Retyped(), b, i))
    ensures DefDominates(Retyped(), v, b, i) && forall j: nat | DefAt(Retyped(), b, j, v) :: j < i
  {
    RetypedInsts(b, i);
    forall a: BlockId, j: nat | DefAt(Retyped(), a, j, v)
      ensures DomPoint(Retyped(), a, j, b, i) && (a == b ==> j < i)
    {
      RetypedDefs(a, j);
      if b != 0 { EntryDominates(Retyped(), b); }
    }
  }

  lemma RetypedInst(b: BlockId, i: nat)
    requires HasInst(Retyped(), b, i)
    ensures !InstOf(Retyped(), b, i).Phi? && FusedOk(InstOf(Retyped(), b, i))
  {
    RetypedInsts(b, i);
  }

  lemma RetypedLast(b: BlockId, i: nat)
    requires HasInst(Retyped(), b, i) && IsTerminator(InstOf(Retyped(), b, i))
    ensures i + 1 == Len(Retyped(), b)
  {
    RetypedInsts(b, i);
  }

  lemma RetypedTargets(b: BlockId, i: nat)
    requires HasInst(Retyped(), b, i)
    ensures InstOf(Retyped(), b, i).Jump? ==> b == 2 && InstOf(Retyped(), b, i).target == 3
    ensures InstOf(Retyped(), b, i).Branch? ==> b == 0 && InstOf(Retyped(), b, i) == Branch(4, 1, 2)
  {
    RetypedInsts(b, i);
  }

  lemma RetypedJump(b: BlockId, i: nat)
    requires HasInst(Retyped(), b, i)
    ensures JumpsAlongEdges(Retyped(), b, InstOf(Retyped(), b, i))
  {
    RetypedTargets(b, i);
    RetypedEdges(0, 1);
    RetypedEdges(0, 2);
    RetypedEdges(2, 3);
  }

  lemma RetypedWellFormed()
    ensures WellFormed(Retyped())
  {
    var f := Retyped();
    forall b: BlockId, i: nat | HasInst(f, b, i)
      ensures !InstOf(f, b, i).Phi? && FusedOk(InstOf(f, b, i)) && JumpsAlongEdges(f, b, InstOf(f, b, i))
      ensures IsTerminator(InstOf(f, b, i)) ==> i + 1 == Len(f, b)
    {
      RetypedInst(b, i);
      RetypedJump(b, i);
      if IsTerminator(InstOf(f, b, i)) { RetypedLast(b, i); }
    }
    forall b: BlockId, i: nat, v: Value ensures DefAt(f, b, i, v) <==> b == 0 && i < 4 && v == i + 1 {
      RetypedDefs(b, i);
    }
    forall b: BlockId, i: nat, v: Value | HasInst(f, b, i) && v in Uses(InstOf(f, b, i))
      ensures DefDominates(f, v, b, i) && forall j: nat | DefAt(f, b, j, v) :: j < i
    {
      RetypedUse(b, i, v);
    }
    forall p: BlockId, b: BlockId | Find(f.blocks, b).Some?
      ensures Edge(f, p, b) <==> p in Find(f.blocks, b).value.preds
    {
      RetypedPreds(p, b);
    }
  }

  lemma RetypedFolds()
    ensures Folded(Retyped()) == Compared(ConstInt(3, 3))
  {
    var bs := Retyped().blocks;
    var K := RetypedEntry();
    UnfoldedBlocks(K, bs[1..]);
    FoldFirstBlock(map[], bs[0], bs[1..], EntryInsts(ConstInt(3, 3)), K);
    assert [bs[0]] + bs[1..] == bs;
  }

  lemma {:induction false} UnfoldedBlocks(K: Consts, blocks: seq<Block>)
    requires forall b, i | b in blocks && i in b.insts :: !i.ConstInt? && !i.Arith? && !i.Neg?
    ensures FoldBlocks(K, blocks).0 == blocks
  {
    if blocks != [] {
      Unfolded(K, blocks[0].insts);
      UnfoldedBlocks(K, blocks[1..]);
      FoldFirstBlock(K, blocks[0], blocks[1..], blocks[0].insts, K);
      assert [blocks[0]] + blocks[1..] == blocks;
    }
  }

  lemma RetypedEntry() returns (K: Consts)
    ensures FoldInsts(map[], EntryInsts(Arith(Add, 3, 1, 2))) == (EntryInsts(ConstInt(3, 3)), K)
  {
    var K1, K2, sum := map[1 := 2], map[1 := 2, 2 := 1], Arith(Add, 3, 1, 2);
    K := K2[3 := 3];
    EntrySplit(sum);
    EntrySplit(ConstInt(3, 3));
    SumFolds(K2, K);
    FoldFirst(K1, ConstInt(2, 1), [sum] + Tail(), ConstInt(2, 1), K2);
    FoldFirst(map[], ConstInt(1, 2), [ConstInt(2, 1)] + ([sum] + Tail()), ConstInt(1, 2), K1);
  }

  lemma SumFolds(K: Consts, K': Consts)
    requires K == map[1 := 2, 2 := 1] && K' == K[3 := 3]
    ensures FoldInsts(K, [Arith(Add, 3, 1, 2)] + Tail()) == ([ConstInt(3, 3)] + Tail(), K')
  {
    SmallSum();
    Unfolded(K', Tail());
    FoldFirst(K, Arith(Add, 3, 1, 2), Tail(), ConstInt(3, 3), K');
  }

  lemma SmallSum()
    ensures WrapI64(2 + 1) == 3
  {
    assert Pow2(2) == 4;
    Pow2Grows(2, 63);
    DivModUnique(3, Pow2(64), 0, 3);
  }

  /** From flag = 0 the true branch is taken, and y is returned. */
  lemma ComparedRun(I: Interp, y: Inst, r: Data)
    requires TakesOnNonZero(I) && IsPureOp(y) && y.d == 3
    requires Eval(I, Retyped().types, y, map[0 := Int(0), 1 := Int(0), 2 := Int(1)]) == r
    ensures var f := Compared(y); Run(I, f, Start(f, map[0 := Int(0)]), 2) == Halted(Some(r), [])
  {
    var f := Compared(y);
    var start, env := Start(f, map[0 := Int(0)]), Chosen(r);
    EntryGoes(I, y, r);
    ReturnsY(I, r);
    ComparedFound(y, 0);
    ComparedFound(y, 1);
    NoPhiValues(f.blocks[0].insts, None, map[0 := Int(0)]);
    NoPhiValues(f.blocks[1].insts, Some(0), env);
    TwoSteps(I, f, start, At(1, Some(0), env, []));
  }

  lemma TwoSteps(I: Interp, f: Func, st: State, next: State)
    requires Step(I, f, st) == next
    ensures Run(I, f, st, 2) == Step(I, f, next)
  {
    assert Run(I, f, st, 1) == next;
  }

  /** The environment in which the true branch starts. */
  function Chosen(r: Data): Env {
    map[0 := Int(0), 1 := Int(0), 2 := Int(1), 3 := r, 4 := Int(1)]
  }

  lemma ReturnsY(I: Interp, r: Data)
    ensures ExecAll(I, Retyped().types, [Nop, Return(Some(3))], Chosen(r), []) == Ret(Some(r), [])
  {
    assert [Nop, Return(Some(3))][1..] == [Return(Some(3))];
  }

  lemma EntryGoes(I: Interp, y: Inst, r: Data)
    requires TakesOnNonZero(I) && IsPureOp(y) && y.d == 3
    requires Eval(I, Retyped().types, y, map[0 := Int(0), 1 := Int(0), 2 := Int(1)]) == r
    ensures ExecAll(I, Retyped().types, Compared(y).blocks[0].insts, map[0 := Int(0)], []) == Goto(1, Chosen(r), [])
  {
    var env := map[0 := Int(0), 1 := Int(0), 2 := Int(1)];
    ConstsGo(I, [y] + Tail());
    ExecFirst(I, Retyped().types, y, Tail(), env, r);
    TailGoes(I, env[3 := r], r);
    EntrySplit(y);
  }

  lemma ConstsGo(I: Interp, rest: seq<Inst>)
    ensures ExecAll(I, Retyped().types, [ConstInt(1, 2)] + ([ConstInt(2, 1)] + rest), map[0 := Int(0)], [])
         == ExecAll(I, Retyped().types, rest, map[0 := Int(0), 1 := Int(0), 2 := Int(1)], [])
  {
    CutBits();
    ConstFirst(I, Retyped().types, 2, 1, rest, map[0 := Int(0), 1 := Int(0)]);
    ConstFirst(I, Retyped().types, 1, 2, [ConstInt(2, 1)] + rest, map[0 := Int(0)]);
  }

  lemma ConstFirst(I: Interp, types: map<Value, Type>, d: Value, v: int, rest: seq<Inst>, env: Env)
    ensures ExecAll(I, types, [ConstInt(d, v)] + rest, env, [])
         == ExecAll(I, types, rest, env[d := Int(Wrap(v, Width(types, d)))], [])
  {
    ExecFirst(I, types, ConstInt(d, v), rest, env, Int(Wrap(v, Width(types, d))));
  }

  lemma TailGoes(I: Interp, env: Env, r: Data)
    requires TakesOnNonZero(I) && env == map[0 := Int(0), 1 := Int(0), 2 := Int(1), 3 := r]
    ensures ExecAll(I, Retyped().types, Tail(), env, []) == Goto(1, Chosen(r), [])
  {
    ExecFirst(I, Retyped().types, Cmp(Eq, 4, 0, 1), [Branch(4, 1, 2)], env, Int(1));
    assert [Cmp(Eq, 4, 0, 1)] + [Branch(4, 1, 2)] == Tail();
    assert env[4 := Int(1)] == Chosen(r);
  }

  lemma CutBits()
    ensures Wrap(2, 1) == 0 && Wrap(1, 64) == 1 && Wrap(0 + 1, 64) == 1 && Wrap(3, 64) == 3
  {
    assert Pow2(1) == 2 && Pow2(2) == 4;
    Pow2Grows(2, 64);
    DivModUnique(1, Pow2(64), 0, 1);
    DivModUnique(3, Pow2(64), 0, 3);
  }

  /** The width condition is needed on graphs the front end builds: here folding changes the result from 1,
      the sum of the one bit left of x and 1, to 3. */
  lemma RetypedFoldsWrong(I: Interp)
    requires TakesOnNonZero(I)
    ensures WellFormed(Retyped()) && !WidthsOk(Retyped())
    ensures var f := Retyped();
            && Run(I, f, Start(f, map[0 := Int(0)]), 2) == Halted(Some(Int(1)), [])
            && Run(I, Folded(f), Start(Folded(f), map[0 := Int(0)]), 2) == Halted(Some(Int(3)), [])
  {
    RetypedWellFormed();
    RetypedRuns(I);
    forall C ensures !WidthsIn(Retyped(), C) { RetypedNarrow(C); }
  }

  lemma RetypedRuns(I: Interp)
    requires TakesOnNonZero(I)
    ensures var f := Retyped();
            && Run(I, f, Start(f, map[0 := Int(0)]), 2) == Halted(Some(Int(1)), [])
            && Run(I, Folded(f), Start(Folded(f), map[0 := Int(0)]), 2) == Halted(Some(Int(3)), [])
  {
    RetypedFolds();
    SumValue(I);
    ComparedRun(I, Arith(Add, 3, 1, 2), Int(1));
    ComparedRun(I, ConstInt(3, 3), Int(3));
  }

  lemma SumValue(I: Interp)
    ensures var env := map[0 := Int(0), 1 := Int(0), 2 := Int(1)];
            && Eval(I, Retyped().types, Arith(Add, 3, 1, 2), env) == Int(1)
            && Eval(I, Retyped().types, ConstInt(3, 3), env) == Int(3)
  {
    CutBits();
  }

  lemma RetypedNarrow(C: set<Value>)
    ensures !WidthsIn(Retyped(), C)
  {
    RetypedInsts(0, 2);
    assert !InstWidthsOk(Retyped().types, InstOf(Retyped(), 0, 2));
    if HoldsConsts(Retyped(), C) { RetypedSum(C); }
  }

  lemma RetypedSum(C: set<Value>)
    requires HoldsConsts(Retyped(), C)
    ensures HasInst(Retyped(), 0, 2) && OnConsts(InstOf(Retyped(), 0, 2), C)
  {
    RetypedInsts(0, 0);
    RetypedInsts(0, 1);
    RetypedInsts(0, 2);
    assert OnConsts(InstOf(Retyped(), 0, 0), C) && OnConsts(InstOf(Retyped(), 0, 1), C);
  }
}
