/** Two functions under the theorem: one whose division by zero is found, and one with an integer
    condition whose division by zero is not. */
module QueryExamples {
  import opened Types
  import Bits
  import opened Ir
  import opened Ssa
  import opened Reach
  import opened Encoding
  import opened Translation
  import opened IntegerRuns
  import opened Models
  import opened Exactness

  // ----- return a // b, return a % b -----

  function Quotient(op: ArithOp): Func {
    Func([Block(0, [Arith(op, 2, 0, 1), Return(Some(2))], [], [])], 0, map[0 := I64, 1 := I64, 2 := I64])
  }

  lemma QuotientInsts(op: ArithOp, b: BlockId, i: nat)
    ensures HasInst(Quotient(op), b, i) <==> b == 0 && i < 2
    ensures b == 0 && i == 0 ==> InstOf(Quotient(op), b, i) == Arith(op, 2, 0, 1)
    ensures b == 0 && i == 1 ==> InstOf(Quotient(op), b, i) == Return(Some(2))
    ensures forall v :: DefAt(Quotient(op), b, i, v) <==> b == 0 && i == 0 && v == 2
    ensures forall p :: !Edge(Quotient(op), p, b)
    ensures Len(Quotient(op), 0) == 2
  {
    var f := Quotient(op);
    assert Find(f.blocks, 0) == Some(f.blocks[0]);
    assert f.blocks[1..] == [];
    assert b != 0 ==> Find(f.blocks, b) == None;
  }

  lemma QuotientEncodable(op: ArithOp)
    ensures Encodable(Quotient(op))
  {
    var f := Quotient(op);
    forall b: BlockId, i: nat ensures HasInst(f, b, i) <==> b == 0 && i < 2 { QuotientInsts(op, b, i); }
    QuotientInsts(op, 0, 0);
    QuotientInsts(op, 0, 1);
    forall b: BlockId, i: nat, v: Value
      ensures DefAt(f, b, i, v) <==> b == 0 && i == 0 && v == 2
    {
      QuotientInsts(op, b, i);
    }
    forall p: BlockId, b: BlockId ensures !Edge(f, p, b) { QuotientInsts(op, b, 0); }
    QuotientUses(op);
    QuotientTranslatable(op);
  }

  lemma QuotientUses(op: ArithOp)
    ensures UsesDominated(Quotient(op))
  {
    var f := Quotient(op);
    forall b: BlockId, i: nat, v: Value | HasInst(f, b, i) && v in Uses(InstOf(f, b, i))
      ensures DefDominates(f, v, b, i)
    {
      QuotientInsts(op, b, i);
      forall a, j | DefAt(f, a, j, v) ensures DomPoint(f, a, j, b, i) { QuotientInsts(op, a, j); }
    }
  }

  lemma QuotientTranslatable(op: ArithOp)
    ensures Translatable(Quotient(op))
  {
    var f := Quotient(op);
    var b := f.blocks[0];
    assert Targets(b) == {};
    assert ControlEdges(f.blocks) == {};
    var none: Edges := {};
    forall p: seq<BlockId> ensures !(Walk(none, p) && |p| > 1) {
      if |p| > 1 { assert !StepIn(none, p, 1); }
    }
    forall i | i in b.insts ensures IntegerInst(f.types, i) {
      assert i == b.insts[0] || i == b.insts[1];
      forall v | v in MentionedIn(i) ensures IsBitVector(f.types, v) { assert v == 0 || v == 1 || v == 2; }
    }
    assert IntegerBlock(f, b);
  }

  lemma QuotientConditions(op: ArithOp)
    ensures DistinctTargets(Quotient(op)) && BooleanConditions(Quotient(op))
  {
    var f := Quotient(op);
    forall b: BlockId, i: nat ensures HasInst(f, b, i) ==> !InstOf(f, b, i).Branch? { QuotientInsts(op, b, i); }
    assert FlagValues(f, {}) && TestsOnly(f, {});
  }

  lemma QuotientDivisor(I: Interp, op: ArithOp, env: Env)
    requires (op == SDiv || op == SRem) && Inputs(Quotient(op), env) && Get(env, 1) == Int(0)
    ensures HasInst(Quotient(op), 0, 0) && InstOf(Quotient(op), 0, 0) == Arith(op, 2, 0, 1)
    ensures DividesByZero(I, Quotient(op), env, 0, 0)
  {
    var f := Quotient(op);
    QuotientInsts(op, 0, 0);
    var st := Start(f, env);
    assert StateAt(I, f, env, 0) == st;
    PhiValuesDomain(f.blocks[0].insts, None, env, 1);
    assert Find(f.blocks, 0) == Some(f.blocks[0]);
    assert Before(I, f, st, 0) == Entered(f, st);
    assert Get(Before(I, f, st, 0), 1) == Int(0);
  }

  lemma QuotientCheck(op: ArithOp)
    requires op == SDiv || op == SRem
    ensures HasInst(Quotient(op), 0, 0) && IsDivision(InstOf(Quotient(op), 0, 0))
    ensures CheckOf(Quotient(op).types, 0, InstOf(Quotient(op), 0, 0))
         == SafetyCheck(BlockVar(0), BvCmp(Eq, BvVar(1), BvConst(0, 64)))
  {
    QuotientInsts(op, 0, 0);
  }

  lemma QuotientFound(I: Interp, op: ArithOp, env: Env, asserts: seq<Bool_>)
    requires TakesOnNonZero(I) && Constrains(Quotient(op), asserts) && Encodable(Quotient(op))
    requires (op == SDiv || op == SRem) && Inputs(Quotient(op), env) && Get(env, 1) == Int(0)
    requires HasInst(Quotient(op), 0, 0) && IsDivision(InstOf(Quotient(op), 0, 0))
    ensures Satisfiable(Quotient(op), asserts, CheckOf(Quotient(op).types, 0, InstOf(Quotient(op), 0, 0)))
  {
    QuotientConditions(op);
    QuotientDivisor(I, op, env);
    DivisionCheckExact(I, Quotient(op), asserts, 0, 0);
  }

  /** The theorem applies to a function that divides its arguments, and finds the division by zero, whether
      it returns the quotient or the remainder. */
  lemma QuotientDivides(I: Interp, op: ArithOp, asserts: seq<Bool_>)
    requires TakesOnNonZero(I) && Constrains(Quotient(op), asserts) && (op == SDiv || op == SRem)
    ensures Satisfiable(Quotient(op), asserts, SafetyCheck(BlockVar(0), BvCmp(Eq, BvVar(1), BvConst(0, 64))))
  {
    QuotientEncodable(op);
    var env := QuotientInputs(op);
    QuotientCheck(op);
    QuotientFound(I, op, env, asserts);
  }

  lemma QuotientParams(op: ArithOp)
    ensures Params(Quotient(op)) == {0, 1} && Values(Quotient(op)) == {0, 1, 2}
  {
    var f := Quotient(op);
    var b := f.blocks[0];
    assert b.insts[0] in b.insts && b.insts[1] in b.insts;
    assert 0 in MentionedIn(b.insts[0]) && 1 in MentionedIn(b.insts[0]) && 2 in MentionedIn(b.insts[0]);
    assert Values(f) == {0, 1, 2};
    forall b: BlockId, i: nat, v: Value
      ensures DefAt(f, b, i, v) <==> b == 0 && i == 0 && v == 2
    {
      QuotientInsts(op, b, i);
    }
    assert DefAt(f, 0, 0, 2);
  }

  lemma QuotientInputs(op: ArithOp) returns (env: Env)
    ensures Inputs(Quotient(op), env) && Get(env, 1) == Int(0)
  {
    env := map[0 := Int(7), 1 := Int(0)];
    QuotientParams(op);
    var f := Quotient(op);
    assert Width(f.types, 0) == 64 && Width(f.types, 1) == 64;
    SmallInRange(f, env);
  }

  lemma SmallInRange(f: Func, env: Env)
    requires forall v | v in env :: v in Values(f) && env[v].Int? && env[v].n < 8 && Width(f.types, v) >= 3
    ensures InRange(f, env)
  {
    forall v | v in env ensures env[v].n < Bits.Pow2(Width(f.types, v)) { SmallInWord(env[v].n, Width(f.types, v)); }
  }

  lemma SmallInWord(n: nat, w: nat)
    requires n < 8 && w >= 3
    ensures n < Bits.Pow2(w)
  {
    assert Bits.Pow2(w) == 2 * Bits.Pow2(w - 1) == 4 * Bits.Pow2(w - 2) == 8 * Bits.Pow2(w - 3);
  }

  // ----- if n: return 2 // (n - 2) -----

  function WideIf(): Func {
    Func([Block(0, [Branch(0, 1, 2)], [], [1, 2]),
          Block(1, [ConstInt(1, 2), Arith(Sub, 2, 0, 1), Arith(SDiv, 3, 1, 2), Return(Some(3))], [0], []),
          Block(2, [Return(None)], [0], [])],
         0, map[0 := I64, 1 := I64, 2 := I64, 3 := I64])
  }

  lemma WideFound(b: BlockId)
    ensures Find(WideIf().blocks, b) == if b < 3 then Some(WideIf().blocks[b]) else None
  {
    var bs := WideIf().blocks;
    assert bs[1..] == [bs[1], bs[2]] && bs[1..][1..] == [bs[2]] && bs[1..][1..][1..] == [];
  }

  lemma WideFind()
    ensures forall b: BlockId :: Find(WideIf().blocks, b) == if b < 3 then Some(WideIf().blocks[b]) else None
  {
    forall b: BlockId ensures Find(WideIf().blocks, b) == if b < 3 then Some(WideIf().blocks[b]) else None {
      WideFound(b);
    }
  }

  lemma WideInsts(b: BlockId, i: nat)
    ensures HasInst(WideIf(), b, i) <==> (b == 0 && i < 1) || (b == 1 && i < 4) || (b == 2 && i < 1)
    ensures HasInst(WideIf(), b, i) ==> InstOf(WideIf(), b, i) == WideIf().blocks[b].insts[i]
    ensures forall v :: DefAt(WideIf(), b, i, v) <==> b == 1 && i < 3 && v == i + 1
  {
    WideFound(b);
  }

  lemma WideEdges(p: BlockId, b: BlockId)
    ensures Edge(WideIf(), p, b) <==> p == 0 && (b == 1 || b == 2)
    ensures Find(WideIf().blocks, b).Some? ==> (Edge(WideIf(), p, b) <==> p in Find(WideIf().blocks, b).value.preds)
  {
    WideFound(p);
    WideFound(b);
  }

  /** No phis, terminators last, and edges as recorded. */
  lemma WideInstOk(b: BlockId, i: nat)
    requires HasInst(WideIf(), b, i)
    ensures !InstOf(WideIf(), b, i).Phi? && FusedOk(InstOf(WideIf(), b, i))
    ensures IsTerminator(InstOf(WideIf(), b, i)) ==> i + 1 == Len(WideIf(), b)
    ensures JumpsAlongEdges(WideIf(), b, InstOf(WideIf(), b, i))
  {
    WideInsts(b, i);
    WideFound(b);
    WideEdges(0, 1);
    WideEdges(0, 2);
  }

  lemma WideDefs()
    ensures UniqueDefs(WideIf()) && UsesDominated(WideIf()) && LocalOrder(WideIf())
  {
    var f := WideIf();
    forall b: BlockId, i: nat, v: Value
      ensures DefAt(f, b, i, v) <==> b == 1 && i < 3 && v == i + 1
    {
      WideInsts(b, i);
    }
    forall b: BlockId, i: nat, v: Value | HasInst(f, b, i) && v in Uses(InstOf(f, b, i))
      ensures DefDominates(f, v, b, i)
    {
      WideUses(b, i, v);
    }
    forall b: BlockId, i: nat, j: nat, v: Value | HasInst(f, b, i) && v in Uses(InstOf(f, b, i)) && DefAt(f, b, j, v)
      ensures j < i
    {
      WideUses(b, i, v);
    }
  }

  lemma WideWellFormed()
    ensures WellFormed(WideIf())
  {
    var f := WideIf();
    WideDefs();
    forall b: BlockId, i: nat | HasInst(f, b, i)
      ensures !InstOf(f, b, i).Phi? && FusedOk(InstOf(f, b, i)) && JumpsAlongEdges(f, b, InstOf(f, b, i))
      ensures IsTerminator(InstOf(f, b, i)) ==> i + 1 == Len(f, b)
    {
      WideInstOk(b, i);
    }
    forall b: BlockId, p: BlockId | Find(f.blocks, b).Some?
      ensures Edge(f, p, b) <==> p in Find(f.blocks, b).value.preds
    {
      WideEdges(p, b);
    }
  }

  lemma WideUses(b: BlockId, i: nat, v: Value)
    requires HasInst(WideIf(), b, i) && v in Uses(InstOf(WideIf(), b, i))
    ensures v == 0 || (b == 1 && v <= i)
  {
    WideInsts(b, i);
  }

  lemma WideTranslatable()
    ensures Translatable(WideIf()) && ControlEdges(WideIf().blocks) == {(0, 1), (0, 2)}
  {
    var f := WideIf();
    var edges := ControlEdges(f.blocks);
    assert Targets(f.blocks[0]) == {1, 2} && Targets(f.blocks[1]) == {} && Targets(f.blocks[2]) == {};
    assert f.blocks[0] in f.blocks;
    assert edges == {(0, 1), (0, 2)};
    forall p: seq<BlockId> | Walk(edges, p) && |p| > 1 ensures p[0] != p[|p| - 1] {
      assert StepIn(edges, p, 1) && StepIn(edges, p, |p| - 1);
    }
    forall b | b in f.blocks ensures IntegerBlock(f, b) { WideBlock(b); }
  }

  lemma WideBlock(b: Block)
    requires b in WideIf().blocks
    ensures IntegerBlock(WideIf(), b)
  {
    forall i | i in b.insts ensures IntegerInst(WideIf().types, i) { WideInst(b, i); }
  }

  lemma WideInst(b: Block, i: Inst)
    requires b in WideIf().blocks && i in b.insts
    ensures IntegerInst(WideIf().types, i)
  {
    forall v | v in MentionedIn(i) ensures IsBitVector(WideIf().types, v) { WideMentioned(b, i, v); }
  }

  lemma WideEncodable()
    ensures Encodable(WideIf()) && DistinctTargets(WideIf())
  {
    var f := WideIf();
    WideFind();
    WideWellFormed();
    WideTranslatable();
    forall p: BlockId, b: BlockId | Edge(f, p, b) ensures Find(f.blocks, b).Some? && (p, b) in ControlEdges(f.blocks) {
      WideEdges(p, b);
    }
    forall b: BlockId, i: nat ensures !EqualTargets(f, b, i) { WideInsts(b, i); }
  }

  lemma MinusOne(w: nat)
    requires w > 1
    ensures Bits.Wrap(1 - 2, w) != 0 && Bits.Wrap(2, w) == 2 && Bits.Wrap(2 - 2, w) == 0
  {
    assert Bits.Pow2(w) == 2 * Bits.Pow2(w - 1) == 4 * Bits.Pow2(w - 2);
    Bits.DivModUnique(-1, Bits.Pow2(w), -1, Bits.Pow2(w) - 1);
    Bits.DivModUnique(0, Bits.Pow2(w), 0, 0);
    if w == 2 { Bits.DivModUnique(2, Bits.Pow2(w), 0, 2); } else { Bits.DivModUnique(2, Bits.Pow2(w), 0, 2); }
  }

  lemma WideInstRule(m: Model, b: BlockId, k: nat)
    requires Satisfies(WideIf(), m) && b < 3 && k < |WideIf().blocks[b].insts|
    ensures InstRule(WideIf(), m, b, WideIf().blocks[b].insts[k])
  {
    var blk := WideIf().blocks[b];
    assert InstRules(WideIf(), m, blk);
    assert InstRule(WideIf(), m, blk.id, blk.insts[k]);
  }

  lemma WideCondition(m: Model)
    requires Satisfies(WideIf(), m) && 1 in m.blocks
    ensures Get(EnvOf(m), 0) == Int(1)
  {
    var f := WideIf();
    WideTranslatable();
    assert BlockRule(f, m, f.blocks[1].id);
    WideInstRule(m, 0, 0);
    assert BranchRule(m, 0, f.blocks[0].insts[0]);
  }

  lemma WideSum(m: Model, w: nat)
    requires Satisfies(WideIf(), m) && 1 in m.blocks && Get(EnvOf(m), 0) == Int(1) && w > 1
    requires Width(WideIf().types, 1) == w && Width(WideIf().types, 2) == w
    ensures Get(EnvOf(m), 2) == Int(Bits.Wrap(1 - 2, w))
  {
    MinusOne(w);
    WideInstRule(m, 1, 0);
    assert Get(EnvOf(m), 1) == Int(Bits.Wrap(2, w));
    WideInstRule(m, 1, 1);
    ModelDifference(WideIf().types, EnvOf(m), w);
  }

  lemma ModelDifference(types: map<Value, Type>, env: Env, w: nat)
    requires Get(env, 0) == Int(1) && Get(env, 1) == Int(2) && w == Width(types, 2)
    ensures Eval(NoInterp(), types, Arith(Sub, 2, 0, 1), env) == Int(Bits.Wrap(1 - 2, w))
  {
  }

  /** In a model where the division runs, n is 1, so the divisor is -1. */
  lemma WideModel(m: Model)
    requires Satisfies(WideIf(), m) && 1 in m.blocks
    ensures Get(EnvOf(m), 2) != Int(0)
  {
    var w := Width(WideIf().types, 1);
    WideCondition(m);
    WideSum(m, w);
    MinusOne(w);
  }

  lemma WideRun(I: Interp)
    requires TakesOnNonZero(I)
    ensures HasInst(WideIf(), 1, 2) && InstOf(WideIf(), 1, 2) == Arith(SDiv, 3, 1, 2)
    ensures exists env :: Inputs(WideIf(), env) && DividesByZero(I, WideIf(), env, 1, 2)
  {
    WideFound(1);
    WideInsts(1, 2);
    var env := WideInputs();
    WideStart(I, env);
    WideDivisor(I, StateAt(I, WideIf(), env, 1));
  }

  /** The first step goes to block 1, with n still 2. */
  lemma WideStart(I: Interp, env: Env)
    requires TakesOnNonZero(I) && env == map[0 := Int(2)]
    ensures var st := StateAt(I, WideIf(), env, 1);
            st.At? && st.block == 1 && Find(WideIf().blocks, 1) == Some(WideIf().blocks[1])
            && Get(Entered(WideIf(), st), 0) == Int(2)
  {
    var f := WideIf();
    WideFound(0);
    WideFound(1);
    var st := StateAt(I, f, env, 1);
    assert StateAt(I, f, env, 0) == Start(f, env);
    assert st == Step(I, f, Start(f, env));
    NoPhiValues(f.blocks[0].insts, None, env);
    assert f.blocks[0].insts[0].Branch?;
    assert st == At(1, Some(0), env, []);
    NoPhiValues(f.blocks[1].insts, st.pred, env);
  }

  lemma WideDivisor(I: Interp, st: State)
    requires st.At? && st.block == 1 && Find(WideIf().blocks, 1) == Some(WideIf().blocks[1])
    requires Get(Entered(WideIf(), st), 0) == Int(2)
    ensures Get(Before(I, WideIf(), st, 2), 2) == Int(0)
  {
    var f := WideIf();
    WideTranslatable();
    assert Before(I, f, st, 0) == Entered(f, st);
    WideTwo(I, st, Width(f.types, 1));
    WideDifference(I, st, Width(f.types, 2));
  }

  lemma WideTwo(I: Interp, st: State, w: nat)
    requires st.At? && st.block == 1 && Find(WideIf().blocks, 1) == Some(WideIf().blocks[1])
    requires Before(I, WideIf(), st, 0) == Entered(WideIf(), st) && Get(Entered(WideIf(), st), 0) == Int(2)
    requires w == Width(WideIf().types, 1) && w > 1 && Translatable(WideIf())
    ensures Get(Before(I, WideIf(), st, 1), 1) == Int(2) && Get(Before(I, WideIf(), st, 1), 0) == Int(2)
  {
    MinusOne(w);
    BeforeNext(I, WideIf(), st, 0);
  }

  lemma WideDifference(I: Interp, st: State, w: nat)
    requires st.At? && st.block == 1 && Find(WideIf().blocks, 1) == Some(WideIf().blocks[1])
    requires Get(Before(I, WideIf(), st, 1), 1) == Int(2) && Get(Before(I, WideIf(), st, 1), 0) == Int(2)
    requires w == Width(WideIf().types, 2) && w > 1 && Translatable(WideIf())
    ensures Get(Before(I, WideIf(), st, 2), 2) == Int(0)
  {
    BeforeNext(I, WideIf(), st, 1);
    Difference(WideIf().types, Before(I, WideIf(), st, 1), w);
  }

  lemma Difference(types: map<Value, Type>, env: Env, w: nat)
    requires Get(env, 0) == Int(2) && Get(env, 1) == Int(2) && w == Width(types, 2) > 1
    ensures Eval(NoInterp(), types, Arith(Sub, 2, 0, 1), env) == Int(0)
  {
    MinusOne(w);
  }

  lemma WideMentions(v: Value)
    ensures v in Values(WideIf()) <==> v <= 3
  {
    var bs := WideIf().blocks;
    if v in Values(WideIf()) {
      var c, i :| c in bs && i in c.insts && v in MentionedIn(i);
      WideMentioned(c, i, v);
    }
    if v <= 3 {
      var i := bs[1].insts[if v == 3 then 2 else 1];
      MentionsOf(i, v);
      assert bs[1] in bs && i in bs[1].insts && v in MentionedIn(i);
    }
  }

  lemma WideMentioned(c: Block, i: Inst, v: Value)
    requires c in WideIf().blocks && i in c.insts && v in MentionedIn(i)
    ensures v <= 3
  {
  }

  lemma MentionsOf(i: Inst, v: Value)
    requires i.Arith? && (v == i.d || v == i.l || v == i.r)
    ensures v in MentionedIn(i)
  {
    assert i.l in Uses(i) && i.r in Uses(i);
  }

  lemma WideParams()
    ensures Params(WideIf()) == {0}
  {
    var f := WideIf();
    forall v: Value ensures v in Params(f) <==> v == 0 {
      WideMentions(v);
      if v > 0 && v <= 3 {
        WideInsts(1, v - 1);
        assert DefAt(f, 1, v - 1, v);
      }
      forall b: BlockId, i: nat ensures !DefAt(f, b, i, 0) { WideInsts(b, i); }
    }
  }

  lemma WideInputs() returns (env: Env)
    ensures Inputs(WideIf(), env) && env == map[0 := Int(2)]
  {
    env := map[0 := Int(2)];
    WideParams();
    WideMentions(0);
    SmallInRange(WideIf(), env);
  }

  /** The query has no model, although the compiled run from n = 2 divides by zero: no condition of the
      theorem but boolean conditions is missing. */
  lemma WideConditionHidesDivision(I: Interp, asserts: seq<Bool_>)
    requires TakesOnNonZero(I) && Constrains(WideIf(), asserts)
    ensures Encodable(WideIf()) && DistinctTargets(WideIf())
    ensures !Satisfiable(WideIf(), asserts, CheckOf(WideIf().types, 1, Arith(SDiv, 3, 1, 2)))
    ensures HasInst(WideIf(), 1, 2) && InstOf(WideIf(), 1, 2) == Arith(SDiv, 3, 1, 2)
    ensures exists env :: Inputs(WideIf(), env) && DividesByZero(I, WideIf(), env, 1, 2)
  {
    WideEncodable();
    WideRun(I);
    forall m | Shaped(WideIf(), m) && Satisfies(WideIf(), m) && 1 in m.blocks ensures Get(EnvOf(m), 2) != Int(0) {
      WideModel(m);
    }
    forall m | Shaped(WideIf(), m) && Satisfies(WideIf(), m) ensures !(1 in m.blocks && 2 in m.vals && m.vals[2] == 0) {
      if 2 in m.vals { assert Get(EnvOf(m), 2) == Int(m.vals[2]); }
    }
    forall m | Shaped(WideIf(), m) && Satisfies(WideIf(), m) { CheckMeaning(WideIf(), m, 1, 2); }
  }
}
