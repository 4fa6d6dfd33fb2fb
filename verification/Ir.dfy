/** The SSA intermediate representation (ir/instruction.rs, ir/function.rs) and its meaning. */
module Ir {
  import opened Types
  import Bits

  type Value = nat
  type BlockId = nat

  datatype ArithOp = Add | Sub | Mul | SDiv | SRem | UDiv | URem
  datatype CmpOp = Eq | Ne | SLt | SLe | SGt | SGe | ULt | ULe | UGt | UGe
  datatype TensorOp = TAdd | TSub | TMul | TDiv

  datatype FusedExpr =
    | Input(v: Value)
    | Scalar(v: Value)
    | Apply(op: TensorOp, l: FusedExpr, r: FusedExpr)

  /** One constructor per shape of instruction; Pure, Load and Effect stand for the remaining
      side-effect-free, memory-reading and side-effecting ones. */
  datatype Inst =
    | ConstInt(d: Value, val: int)
    | Arith(aop: ArithOp, d: Value, l: Value, r: Value)
    | Neg(d: Value, s: Value)
    | Cmp(cop: CmpOp, d: Value, l: Value, r: Value)
    | Assign(d: Value, s: Value)
    | TensorBin(top: TensorOp, d: Value, l: Value, r: Value)
    | TensorScalar(top: TensorOp, d: Value, l: Value, r: Value)
    | TensorFused(d: Value, inputs: seq<Value>, expr: FusedExpr)
    | Pure(name: string, d: Value, args: seq<Value>)
    | Load(name: string, d: Value, args: seq<Value>)
    | Effect(name: string, dest: Option<Value>, args: seq<Value>)
    | Phi(d: Value, operands: map<BlockId, Value>)
    | Jump(target: BlockId)
    | Branch(cond: Value, onTrue: BlockId, onFalse: BlockId)
    | Return(ret: Option<Value>)
    | Nop

  datatype Block = Block(id: BlockId, insts: seq<Inst>, preds: seq<BlockId>, succs: seq<BlockId>)

  /** The value of a function object at one moment. */
  datatype Func = Func(blocks: seq<Block>, entry: BlockId, types: map<Value, Type>)

  /** The function object the builder grows and the passes rewrite in place. */
  class Function {
    var blocks: seq<Block>
    var entryBlock: BlockId
    var valueTypes: map<Value, Type>
    var valueCount: nat
    var blockCount: nat

    constructor ()
      ensures blocks == [] && entryBlock == 0 && valueTypes == map[] && valueCount == 0 && blockCount == 0
    {
      blocks, entryBlock, valueTypes, valueCount, blockCount := [], 0, map[], 0, 0;
    }

    function View(): Func
      reads this
    {
      Func(blocks, entryBlock, valueTypes)
    }

    method NextValue() returns (val: Value)
      modifies this`valueCount
      ensures val == old(valueCount) && valueCount == old(valueCount) + 1
    {
      val := valueCount;
      valueCount := valueCount + 1;
    }

    method NextBlock() returns (id: BlockId)
      modifies this`blockCount
      ensures id == old(blockCount) && blockCount == old(blockCount) + 1
    {
      id := blockCount;
      blockCount := blockCount + 1;
    }
  }

  // ----- the instruction tables -----

  /** get_def */
  function Def(i: Inst): Option<Value> {
    match i
    case Effect(_, dest, _) => dest
    case Jump(_) | Branch(_, _, _) | Return(_) | Nop => None
    case _ => Some(i.d)
  }

  /** get_uses: the operands, phis reporting none. */
  function Uses(i: Inst): seq<Value> {
    match i
    case ConstInt(_, _) | Phi(_, _) | Jump(_) | Nop => []
    case Arith(_, _, l, r) => [l, r]
    case Neg(_, s) => [s]
    case Cmp(_, _, l, r) => [l, r]
    case Assign(_, s) => [s]
    case TensorBin(_, _, l, r) => [l, r]
    case TensorScalar(_, _, l, r) => [l, r]
    case TensorFused(_, inputs, _) => inputs
    case Pure(_, _, args) => args
    case Load(_, _, args) => args
    case Effect(_, _, args) => args
    case Branch(c, _, _) => [c]
    case Return(v) => if v.Some? then [v.value] else []
  }

  /** has_side_effects */
  predicate HasSideEffects(i: Inst) {
    i.Effect? || IsTerminator(i)
  }

  predicate IsTerminator(i: Inst) {
    i.Jump? || i.Branch? || i.Return?
  }

  /** The result depends on nothing but the operands. */
  predicate IsPureOp(i: Inst) {
    !i.Effect? && !i.Load? && !i.Phi? && !i.Nop? && !IsTerminator(i)
  }

  function Width(types: map<Value, Type>, v: Value): nat {
    if v in types then
      (var b := IntBitWidth(types[v]); if b.Some? then b.value else 64)
    else 64
  }

  predicate TensorTyped(types: map<Value, Type>, v: Value) {
    v in types && IsTensor(types[v])
  }

  /** `blocks.iter().find(|b| b.id == id)` */
  function Find(blocks: seq<Block>, id: BlockId): (r: Option<Block>)
    ensures r.Some? ==> r.value.id == id && r.value in blocks
    ensures r.None? ==> forall k | 0 <= k < |blocks| :: blocks[k].id != id
  {
    if blocks == [] then None
    else if blocks[0].id == id then Some(blocks[0])
    else Find(blocks[1..], id)
  }

  // ----- run-time meaning -----

  /** A float is an uninterpreted token; Undef is what a read of an unset value gives. */
  datatype Data = Undef | Int(n: nat) | Float(bits: int) | Tensor_(elems: seq<int>)

  type Env = map<Value, Data>

  datatype Event = Event(name: string, args: seq<Data>)
  type Trace = seq<Event>

  /** What the IR leaves to its environment: float arithmetic, other pure operations, memory reads,
      calls, and which values make a branch take its true edge. Every theorem holds for all of them
      unless it says otherwise. */
  datatype Interp = Interp(
    fop: (TensorOp, int, int) -> int,
    pure: (string, seq<Data>) -> Data,
    load: (string, seq<Data>, Trace) -> Data,
    call: (string, seq<Data>, Trace) -> Data,
    taken: Data -> bool)

  /** An interpretation, for what depends on none. */
  function NoInterp(): Interp {
    Interp((o, a, b) => 0, (n, a) => Undef, (n, a, t) => Undef, (n, a, t) => Undef, x => true)
  }

  function Get(env: Env, v: Value): Data {
    if v in env then env[v] else Undef
  }

  function GetAll(env: Env, vs: seq<Value>): (r: seq<Data>)
    ensures |r| == |vs|
    ensures forall k | 0 <= k < |vs| :: r[k] == Get(env, vs[k])
  {
    seq(|vs|, k requires 0 <= k < |vs| => Get(env, vs[k]))
  }

  function EvalArith(op: ArithOp, a: nat, b: nat, w: nat): nat {
    match op
    case Add => Bits.Wrap(a + b, w)
    case Sub => Bits.Wrap(a - b, w)
    case Mul => Bits.Wrap(a * b, w)
    case SDiv => Bits.SDiv(a, b, w)
    case SRem => Bits.SRem(a, b, w)
    case UDiv => Bits.UDiv(a, b, w)
    case URem => Bits.URem(a, b, w)
  }

  predicate EvalCmp(op: CmpOp, a: nat, b: nat, w: nat) {
    match op
    case Eq => a == b
    case Ne => a != b
    case SLt => Bits.ToSigned(a, w) < Bits.ToSigned(b, w)
    case SLe => Bits.ToSigned(a, w) <= Bits.ToSigned(b, w)
    case SGt => Bits.ToSigned(a, w) > Bits.ToSigned(b, w)
    case SGe => Bits.ToSigned(a, w) >= Bits.ToSigned(b, w)
    case ULt => a < b
    case ULe => a <= b
    case UGt => a > b
    case UGe => a >= b
  }

  /** Same width copies; widening extends by the source's signedness; narrowing truncates. */
  function EvalAssign(types: map<Value, Type>, d: Value, s: Value, x: nat): nat {
    if Width(types, d) > Width(types, s) && s in types && IsSigned(types[s])
    then Bits.Wrap(Bits.ToSigned(x, Width(types, s)), Width(types, d))
    else Bits.Wrap(x, Width(types, d))
  }

  function Zip(I: Interp, op: TensorOp, a: seq<int>, b: seq<int>): (r: seq<int>)
    requires |a| == |b|
    ensures |r| == |a|
    ensures forall k | 0 <= k < |a| :: r[k] == I.fop(op, a[k], b[k])
  {
    seq(|a|, k requires 0 <= k < |a| => I.fop(op, a[k], b[k]))
  }

  function ZipScalar(I: Interp, op: TensorOp, a: seq<int>, c: int): (r: seq<int>)
    ensures |r| == |a|
    ensures forall k | 0 <= k < |a| :: r[k] == I.fop(op, a[k], c)
  {
    seq(|a|, k requires 0 <= k < |a| => I.fop(op, a[k], c))
  }

  /** A shape mismatch, which the verifier reports, gives Undef. */
  function Elementwise(I: Interp, op: TensorOp, a: Data, b: Data): Data {
    if a.Tensor_? && b.Tensor_? && |a.elems| == |b.elems| then Tensor_(Zip(I, op, a.elems, b.elems)) else Undef
  }

  function Scalarwise(I: Interp, op: TensorOp, a: Data, b: Data): Data {
    if a.Tensor_? && b.Float? then Tensor_(ZipScalar(I, op, a.elems, b.bits)) else Undef
  }

  /** One element of a fused expression: inputs are read at the index, scalars as they are. */
  function FusedElem(I: Interp, env: Env, e: FusedExpr, k: nat): int {
    match e
    case Input(v) => (match Get(env, v) case Tensor_(x) => if k < |x| then x[k] else 0 case _ => 0)
    case Scalar(v) => (match Get(env, v) case Float(x) => x case _ => 0)
    case Apply(op, l, r) => I.fop(op, FusedElem(I, env, l, k), FusedElem(I, env, r, k))
  }

  /** The shape check of a fused kernel: tensor inputs of one length n, float scalars. */
  predicate FusedShape(types: map<Value, Type>, env: Env, inputs: seq<Value>, n: nat) {
    forall v | v in inputs ::
      if TensorTyped(types, v) then Get(env, v).Tensor_? && |Get(env, v).elems| == n
      else Get(env, v).Float?
  }

  /** The length the kernel runs to: that of the first tensor input. */
  function FusedLength(types: map<Value, Type>, env: Env, inputs: seq<Value>): nat {
    if inputs == [] then 0
    else if TensorTyped(types, inputs[0]) then
      (match Get(env, inputs[0]) case Tensor_(x) => |x| case _ => 0)
    else FusedLength(types, env, inputs[1..])
  }

  /** The result of a pure operation. */
  function Eval(I: Interp, types: map<Value, Type>, i: Inst, env: Env): Data
    requires IsPureOp(i)
  {
    match i
    case ConstInt(d, val) => Int(Bits.Wrap(val, Width(types, d)))
    case Arith(op, d, l, r) =>
      (match (Get(env, l), Get(env, r))
       case (Int(a), Int(b)) => Int(EvalArith(op, a, b, Width(types, d)))
       case _ => Undef)
    case Neg(d, s) =>
      (match Get(env, s) case Int(a) => Int(Bits.Wrap(0 - (a as int), Width(types, d))) case _ => Undef)
    case Cmp(op, d, l, r) =>
      (match (Get(env, l), Get(env, r))
       case (Int(a), Int(b)) => Int(if EvalCmp(op, a, b, Width(types, l)) then 1 else 0)
       case _ => Undef)
    case Assign(d, s) =>
      (match Get(env, s) case Int(a) => Int(EvalAssign(types, d, s, a)) case x => x)
    case TensorBin(op, _, l, r) => Elementwise(I, op, Get(env, l), Get(env, r))
    case TensorScalar(op, _, l, r) => Scalarwise(I, op, Get(env, l), Get(env, r))
    case TensorFused(_, inputs, e) =>
      var n := FusedLength(types, env, inputs);
      if FusedShape(types, env, inputs, n)
      then Tensor_(seq(n, k requires 0 <= k < n => FusedElem(I, env, e, k)))
      else Undef
    case Pure(name, _, args) => I.pure(name, GetAll(env, args))
  }

  datatype Outcome =
    | Goto(target: BlockId, env: Env, trace: Trace)
    | Ret(val: Option<Data>, trace: Trace)
    | RanOff(trace: Trace)

  /** One straight-line instruction: new environment and trace. */
  function Exec(I: Interp, types: map<Value, Type>, i: Inst, env: Env, trace: Trace): (Env, Trace)
    requires !IsTerminator(i)
  {
    if i.Phi? || i.Nop? then (env, trace)   // phis are done on the incoming edge
    else if i.Load? then (env[i.d := I.load(i.name, GetAll(env, i.args), trace)], trace)
    else if i.Effect? then
      var vs := GetAll(env, i.args);
      (if i.dest.Some? then env[i.dest.value := I.call(i.name, vs, trace)] else env,
       trace + [Event(i.name, vs)])
    else (env[i.d := Eval(I, types, i, env)], trace)
  }

  /** The compiled code takes the true edge on any pattern but zero. */
  ghost predicate TakesOnNonZero(I: Interp) {
    forall x :: I.taken(x) <==> x != Int(0)
  }

  /** Runs a list of instructions up to its first terminator. */
  function ExecAll(I: Interp, types: map<Value, Type>, insts: seq<Inst>, env: Env, trace: Trace): Outcome {
    if insts == [] then RanOff(trace)
    else if insts[0].Jump? then Goto(insts[0].target, env, trace)
    else if insts[0].Branch? then
      Goto(if I.taken(Get(env, insts[0].cond)) then insts[0].onTrue else insts[0].onFalse, env, trace)
    else if insts[0].Return? then
      Ret(if insts[0].ret.Some? then Some(Get(env, insts[0].ret.value)) else None, trace)
    else
      var (env', trace') := Exec(I, types, insts[0], env, trace);
      ExecAll(I, types, insts[1..], env', trace')
  }

  /** What the phis of a block receive along the edge from pred, all read before any is set. */
  function PhiValues(insts: seq<Inst>, pred: Option<BlockId>, env: Env): Env {
    if insts == [] then map[]
    else
      var rest := PhiValues(insts[1..], pred, env);
      if insts[0].Phi? then map[insts[0].d := PhiInput(insts[0], pred, env)] + rest else rest
  }

  /** The operand of a phi keyed by the predecessor control came from. */
  function PhiInput(i: Inst, pred: Option<BlockId>, env: Env): Data
    requires i.Phi?
  {
    if pred.Some? && pred.value in i.operands then Get(env, i.operands[pred.value]) else Undef
  }

  datatype State =
    | At(block: BlockId, pred: Option<BlockId>, env: Env, trace: Trace)
    | Halted(val: Option<Data>, trace: Trace)
    | Stuck(trace: Trace)

  /** One block: phis on the edge, then the instructions. */
  function Step(I: Interp, f: Func, st: State): State {
    match st
    case At(b, pred, env, trace) =>
      (match Find(f.blocks, b)
       case None => Stuck(trace)
       case Some(blk) =>
         match ExecAll(I, f.types, blk.insts, env + PhiValues(blk.insts, pred, env), trace)
         case Goto(t, env', trace') => At(t, Some(b), env', trace')
         case Ret(v, trace') => Halted(v, trace')
         case RanOff(trace') => Stuck(trace'))
    case _ => st
  }

  function Run(I: Interp, f: Func, st: State, n: nat): State {
    if n == 0 then st else Step(I, f, Run(I, f, st, n - 1))
  }

  function Start(f: Func, env: Env): State {
    At(f.entry, None, env, [])
  }

  /** What an observer sees: the block, the effects so far and the returned value. */
  datatype Observation = Observation(at: Option<(BlockId, Option<BlockId>)>, ret: Option<Option<Data>>, trace: Trace)

  function Observe(st: State): Observation {
    match st
    case At(b, p, _, trace) => Observation(Some((b, p)), None, trace)
    case Halted(v, trace) => Observation(None, Some(v), trace)
    case Stuck(trace) => Observation(None, None, trace)
  }
}
