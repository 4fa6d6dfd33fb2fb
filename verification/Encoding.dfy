/** The verifier's constraints (verifier/cfg.rs, control_flow.rs, arithmetic.rs) for integer code. */
module Encoding {
  import opened Types
  import Bits
  import opened Ir
  import opened Reach

  // ----- the solver's language -----

  datatype Bv =
    | BvVar(v: Value)
    | BvConst(val: int, bits: nat)
    | BvOp(op: ArithOp, l: Bv, r: Bv)
    | BvSext(e: Bv, bits: nat)
    | BvZext(e: Bv, bits: nat)
    | BvExtract(e: Bv, bits: nat)

  datatype Bool_ =
    | Const(val: bool)
    | BlockVar(b: BlockId)
    | EdgeVar(p: BlockId, b: BlockId)
    | Not(e: Bool_)
    | And(l: Bool_, r: Bool_)
    | Or(es: seq<Bool_>)
    | Implies(l: Bool_, r: Bool_)
    | Iff(l: Bool_, r: Bool_)
    | BvCmp(op: CmpOp, x: Bv, y: Bv)

  /** A registered safety check: a violation reachable under a path condition. */
  datatype SafetyCheck = SafetyCheck(path: Bool_, violation: Bool_)

  /** A solver model: the true block and edge variables and the bit patterns of all values. */
  datatype Model = Model(blocks: set<BlockId>, edges: Edges, vals: map<Value, nat>)

  function Size(types: map<Value, Type>, e: Bv): nat {
    match e
    case BvVar(v) => Width(types, v)
    case BvConst(_, bits) => bits
    case BvOp(_, l, _) => Size(types, l)
    case BvSext(_, bits) => bits
    case BvZext(_, bits) => bits
    case BvExtract(_, bits) => bits
  }

  function BvValue(types: map<Value, Type>, m: Model, e: Bv): nat {
    match e
    case BvVar(v) => if v in m.vals then m.vals[v] else 0
    case BvConst(val, bits) => Bits.Wrap(val, bits)
    case BvOp(op, l, r) => EvalArith(op, BvValue(types, m, l), BvValue(types, m, r), Size(types, l))
    case BvSext(x, bits) => Bits.Wrap(Bits.ToSigned(BvValue(types, m, x), Size(types, x)), bits)
    case BvZext(x, bits) => Bits.Wrap(BvValue(types, m, x), bits)
    case BvExtract(x, bits) => Bits.Wrap(BvValue(types, m, x), bits)
  }

  predicate Holds(types: map<Value, Type>, m: Model, e: Bool_) {
    match e
    case Const(val) => val
    case BlockVar(b) => b in m.blocks
    case EdgeVar(p, b) => (p, b) in m.edges
    case Not(x) => !Holds(types, m, x)
    case And(x, y) => Holds(types, m, x) && Holds(types, m, y)
    case Or(es) => exists x | x in es :: Holds(types, m, x)
    case Implies(x, y) => Holds(types, m, x) ==> Holds(types, m, y)
    case Iff(x, y) => Holds(types, m, x) <==> Holds(types, m, y)
    case BvCmp(op, x, y) => EvalCmp(op, BvValue(types, m, x), BvValue(types, m, y), Size(types, x))
  }

  predicate AllHold(types: map<Value, Type>, m: Model, asserts: seq<Bool_>) {
    forall e | e in asserts :: Holds(types, m, e)
  }

  // ----- what the constraints say -----

  function MentionedIn(i: Inst): set<Value> {
    (set v | v in Uses(i)) + (if i.Phi? then i.operands.Values else {}) + (if Def(i).Some? then {Def(i).value} else {})
  }

  function Values(f: Func): set<Value> {
    set b, i, v | b in f.blocks && i in b.insts && v in MentionedIn(i) :: v
  }

  /** A model gives every value of the function a pattern of its width. */
  ghost predicate Shaped(f: Func, m: Model) {
    m.vals.Keys == Values(f) && forall v | v in m.vals :: m.vals[v] < Bits.Pow2(Width(f.types, v))
  }

  function EnvOf(m: Model): Env {
    map v | v in m.vals :: Int(m.vals[v])
  }

  predicate IsIntegerOp(i: Inst) {
    i.ConstInt? || i.Arith? || i.Neg? || i.Cmp? || i.Assign?
  }

  /** The integer fragment: operations the verifier turns into bit-vector equations, phis and control. */
  predicate IsInteger(i: Inst) {
    IsIntegerOp(i) || i.Phi? || i.Nop? || IsTerminator(i)
  }

  /** The types whose values are declared as one unconstrained bit-vector. */
  predicate IsBitVector(types: map<Value, Type>, v: Value) {
    v in types && (types[v].I8? || types[v].U8? || types[v].I16? || types[v].U16? || types[v].I32?
      || types[v].U32? || types[v].I64? || types[v].U64? || types[v].Bool?)
  }

  predicate TypedInteger(types: map<Value, Type>, i: Inst) {
    && (i.Arith? ==> Width(types, i.d) == Width(types, i.l) == Width(types, i.r))
    && (i.Neg? ==> Width(types, i.d) == Width(types, i.s))
    && (i.Cmp? ==> Width(types, i.l) == Width(types, i.r))
    && (i.Phi? ==> forall p | p in i.operands :: Width(types, i.operands[p]) == Width(types, i.d))
  }

  /** One true incoming edge variable, if and only if the block variable is true. */
  ghost predicate BlockRule(f: Func, m: Model, b: BlockId) {
    if b == f.entry then b in m.blocks
    else b in m.blocks <==> exists p :: (p, b) in ControlEdges(f.blocks) && (p, b) in m.edges
  }

  ghost predicate PhiRule(m: Model, b: BlockId, i: Inst)
    requires i.Phi?
  {
    forall p | p in i.operands && (p, b) in m.edges :: Get(EnvOf(m), i.d) == Get(EnvOf(m), i.operands[p])
  }

  ghost predicate BranchRule(m: Model, b: BlockId, i: Inst)
    requires i.Branch?
  {
    && ((b, i.onTrue) in m.edges <==> b in m.blocks && Get(EnvOf(m), i.cond) == Int(1))
    && ((b, i.onFalse) in m.edges <==> b in m.blocks && Get(EnvOf(m), i.cond) != Int(1))
  }

  /** What one instruction of block b contributes. */
  ghost predicate InstRule(f: Func, m: Model, b: BlockId, i: Inst) {
    && (i.Jump? ==> ((b, i.target) in m.edges <==> b in m.blocks))
    && (i.Branch? ==> BranchRule(m, b, i))
    && (i.Phi? ==> PhiRule(m, b, i))
    && (IsIntegerOp(i) && b in m.blocks ==> Get(EnvOf(m), i.d) == Eval(NoInterp(), f.types, i, EnvOf(m)))
  }

  ghost predicate BlockRules(f: Func, m: Model) {
    forall b {:trigger BlockRule(f, m, b.id)} | b in f.blocks :: BlockRule(f, m, b.id)
  }

  ghost predicate InstRules(f: Func, m: Model, b: Block) {
    forall i {:trigger InstRule(f, m, b.id, i)} | i in b.insts :: InstRule(f, m, b.id, i)
  }

  ghost predicate Satisfies(f: Func, m: Model) {
    BlockRules(f, m) && forall b {:trigger InstRules(f, m, b)} | b in f.blocks :: InstRules(f, m, b)
  }

  // ----- the formulas -----

  /** The formula of one operation, without its path condition. */
  function OpFormula(types: map<Value, Type>, i: Inst): Bool_
    requires IsIntegerOp(i)
  {
    match i
    case ConstInt(d, val) => BvCmp(Eq, BvVar(d), BvConst(val, Width(types, d)))
    case Arith(op, d, l, r) => BvCmp(Eq, BvVar(d), BvOp(op, BvVar(l), BvVar(r)))
    case Neg(d, s) => BvCmp(Eq, BvVar(d), BvOp(Sub, BvConst(0, Width(types, s)), BvVar(s)))
    case Cmp(op, d, l, r) => CmpFormula(op, BvVar(l), BvVar(r), BvVar(d), Width(types, d))
    case Assign(d, s) => BvCmp(Eq, BvVar(d), Resized(types, d, s))
  }

  /** The destination is 1 where the comparison holds and 0 where it does not. */
  function CmpFormula(op: CmpOp, l: Bv, r: Bv, d: Bv, w: nat): Bool_ {
    And(Implies(BvCmp(op, l, r), BvCmp(Eq, d, BvConst(1, w))),
        Implies(Not(BvCmp(op, l, r)), BvCmp(Eq, d, BvConst(0, w))))
  }

  /** The source of an assignment at the destination's width. */
  function Resized(types: map<Value, Type>, d: Value, s: Value): Bv {
    var dBits, sBits := Width(types, d), Width(types, s);
    if dBits == sBits then BvVar(s)
    else if dBits > sBits then
      (if s in types && IsSigned(types[s]) then BvSext(BvVar(s), dBits) else BvZext(BvVar(s), dBits))
    else BvExtract(BvVar(s), dBits)
  }

  lemma WrapSmall(n: nat, w: nat)
    requires n < Bits.Pow2(w)
    ensures Bits.Wrap(n, w) == n
  {
    Bits.DivModUnique(n, Bits.Pow2(w), 0, n);
  }

  lemma ResizedMeaning(types: map<Value, Type>, m: Model, d: Value, s: Value)
    requires s in m.vals && m.vals[s] < Bits.Pow2(Width(types, s))
    ensures BvValue(types, m, Resized(types, d, s)) == EvalAssign(types, d, s, m.vals[s])
  {
    if Width(types, d) == Width(types, s) { WrapSmall(m.vals[s], Width(types, s)); }
  }

  lemma CmpFormulaMeaning(types: map<Value, Type>, m: Model, op: CmpOp, l: Bv, r: Bv, d: Bv, w: nat)
    requires w > 0
    ensures Holds(types, m, CmpFormula(op, l, r, d, w))
       <==> BvValue(types, m, d) == if Holds(types, m, BvCmp(op, l, r)) then 1 else 0
  {
    EqualsBit(types, m, d, 1, w);
    EqualsBit(types, m, d, 0, w);
    BothWays(types, m, BvCmp(op, l, r), BvCmp(Eq, d, BvConst(1, w)), BvCmp(Eq, d, BvConst(0, w)));
  }

  lemma EqualsBit(types: map<Value, Type>, m: Model, d: Bv, n: nat, w: nat)
    requires n <= 1 && w > 0
    ensures Holds(types, m, BvCmp(Eq, d, BvConst(n, w))) <==> BvValue(types, m, d) == n
  {
    assert Bits.Pow2(w) >= 2;
    WrapSmall(n, w);
    assert BvValue(types, m, BvConst(n, w)) == n;
  }

  lemma BothWays(types: map<Value, Type>, m: Model, c: Bool_, yes: Bool_, no: Bool_)
    ensures Holds(types, m, And(Implies(c, yes), Implies(Not(c), no)))
       <==> if Holds(types, m, c) then Holds(types, m, yes) else Holds(types, m, no)
  {
    assert Holds(types, m, Implies(c, yes)) <==> (Holds(types, m, c) ==> Holds(types, m, yes));
    assert Holds(types, m, Not(c)) <==> !Holds(types, m, c);
    assert Holds(types, m, Implies(Not(c), no)) <==> (!Holds(types, m, c) ==> Holds(types, m, no));
  }

  /** Every value the instruction mentions has a pattern in the model. */
  ghost predicate Modelled(types: map<Value, Type>, m: Model, i: Inst) {
    forall v | v in MentionedIn(i) :: v in m.vals && m.vals[v] < Bits.Pow2(Width(types, v)) && Width(types, v) > 0
  }

  lemma UseModelled(types: map<Value, Type>, m: Model, i: Inst, v: Value)
    requires Modelled(types, m, i) && v in Uses(i)
    ensures v in m.vals && m.vals[v] < Bits.Pow2(Width(types, v))
    ensures Get(EnvOf(m), v) == Int(m.vals[v]) && BvValue(types, m, BvVar(v)) == m.vals[v]
  {
    assert v in MentionedIn(i);
  }

  lemma DefModelled(types: map<Value, Type>, m: Model, i: Inst)
    requires Modelled(types, m, i) && IsIntegerOp(i)
    ensures Get(EnvOf(m), i.d) == Int(BvValue(types, m, BvVar(i.d))) && Width(types, i.d) > 0
  {
    assert i.d in MentionedIn(i);
  }

  lemma ArithMeaning(types: map<Value, Type>, m: Model, i: Inst)
    requires i.Arith? && TypedInteger(types, i) && Modelled(types, m, i)
    ensures Holds(types, m, OpFormula(types, i)) <==> Get(EnvOf(m), i.d) == Eval(NoInterp(), types, i, EnvOf(m))
  {
    DefModelled(types, m, i);
    UseModelled(types, m, i, i.l);
    UseModelled(types, m, i, i.r);
    assert BvValue(types, m, BvOp(i.aop, BvVar(i.l), BvVar(i.r)))
        == EvalArith(i.aop, m.vals[i.l], m.vals[i.r], Width(types, i.l));
  }

  lemma NegMeaning(types: map<Value, Type>, m: Model, i: Inst)
    requires i.Neg? && TypedInteger(types, i) && Modelled(types, m, i)
    ensures Holds(types, m, OpFormula(types, i)) <==> Get(EnvOf(m), i.d) == Eval(NoInterp(), types, i, EnvOf(m))
  {
    DefModelled(types, m, i);
    UseModelled(types, m, i, i.s);
    WrapSmall(0, Width(types, i.s));
    assert BvValue(types, m, BvConst(0, Width(types, i.s))) == 0;
    assert BvValue(types, m, BvOp(Sub, BvConst(0, Width(types, i.s)), BvVar(i.s)))
        == EvalArith(Sub, 0, m.vals[i.s], Width(types, i.s));
  }

  lemma CmpMeaning(types: map<Value, Type>, m: Model, i: Inst)
    requires i.Cmp? && TypedInteger(types, i) && Modelled(types, m, i)
    ensures Holds(types, m, OpFormula(types, i)) <==> Get(EnvOf(m), i.d) == Eval(NoInterp(), types, i, EnvOf(m))
  {
    DefModelled(types, m, i);
    UseModelled(types, m, i, i.l);
    UseModelled(types, m, i, i.r);
    CmpFormulaMeaning(types, m, i.cop, BvVar(i.l), BvVar(i.r), BvVar(i.d), Width(types, i.d));
    assert Holds(types, m, BvCmp(i.cop, BvVar(i.l), BvVar(i.r)))
      <==> EvalCmp(i.cop, m.vals[i.l], m.vals[i.r], Width(types, i.l));
  }

  lemma AssignMeaning(types: map<Value, Type>, m: Model, i: Inst)
    requires i.Assign? && TypedInteger(types, i) && Modelled(types, m, i)
    ensures Holds(types, m, OpFormula(types, i)) <==> Get(EnvOf(m), i.d) == Eval(NoInterp(), types, i, EnvOf(m))
  {
    DefModelled(types, m, i);
    UseModelled(types, m, i, i.s);
    ResizedMeaning(types, m, i.d, i.s);
  }

  lemma ConstMeaning(types: map<Value, Type>, m: Model, i: Inst)
    requires i.ConstInt? && Modelled(types, m, i)
    ensures Holds(types, m, OpFormula(types, i)) <==> Get(EnvOf(m), i.d) == Eval(NoInterp(), types, i, EnvOf(m))
  {
    DefModelled(types, m, i);
    assert BvValue(types, m, BvConst(i.val, Width(types, i.d))) == Bits.Wrap(i.val, Width(types, i.d));
  }

  /** The formula of an operation says exactly that the result is what the instruction computes. */
  lemma OpFormulaMeaning(types: map<Value, Type>, m: Model, i: Inst)
    requires IsIntegerOp(i) && TypedInteger(types, i) && Modelled(types, m, i)
    ensures Holds(types, m, OpFormula(types, i)) <==> Get(EnvOf(m), i.d) == Eval(NoInterp(), types, i, EnvOf(m))
  {
    if i.ConstInt? { ConstMeaning(types, m, i); }
    else if i.Arith? { ArithMeaning(types, m, i); }
    else if i.Neg? { NegMeaning(types, m, i); }
    else if i.Cmp? { CmpMeaning(types, m, i); }
    else { AssignMeaning(types, m, i); }
  }
}
