/** The state of on-the-fly SSA construction (builder/mod.rs), its invariant, and what each builder
    step does to it. */
module SsaState {
  import opened Types
  import opened Ir

  type Var = string
  type VarDefs = map<Var, map<BlockId, Value>>

  /** What the front end did in a block, in order: emit an instruction, assign a source variable,
      or read one and get a value back. */
  datatype Item = Do(inst: Inst) | Write(x: Var, v: Value) | Read(x: Var, v: Value)

  /** blocks to sealed are the builder's own fields; the rest is history:
      log      what the front end did in each block
      inval    the value of a variable at the start of a block, once asked for
      owner    the variable and block each phi was made for
      site     the block that defines each value
      pending  phis of sealed blocks whose operands are still being collected */
  datatype Builder = Builder(
    blocks: seq<Block>, next: nat, defs: VarDefs, incomplete: map<BlockId, map<Var, Value>>, sealed: set<BlockId>,
    log: seq<seq<Item>>, inval: map<(Var, BlockId), Value>, owner: map<Value, (Var, BlockId)>,
    site: map<Value, BlockId>, pending: set<Value>)

  // ----- lookups -----

  function DefOf(defs: VarDefs, x: Var, b: BlockId): Option<Value> {
    if x in defs && b in defs[x] then Some(defs[x][b]) else None
  }

  /** `variable_defs.entry(x).or_default().insert(b, v)` */
  function SetDef(defs: VarDefs, x: Var, b: BlockId, v: Value): (r: VarDefs)
    ensures forall y, c :: DefOf(r, y, c) == if y == x && c == b then Some(v) else DefOf(defs, y, c)
  {
    defs[x := (if x in defs then defs[x] else map[])[b := v]]
  }

  function Inval(s: Builder, x: Var, b: BlockId): Option<Value> {
    if (x, b) in s.inval then Some(s.inval[(x, b)]) else None
  }

  function Preds(s: Builder, b: BlockId): seq<BlockId> {
    if b < |s.blocks| then s.blocks[b].preds else []
  }

  function Out(s: Builder, x: Var, b: BlockId): Option<Value> {
    DefOf(s.defs, x, b)
  }

  /** The value x stands for before item i, given its value at the start of the block. */
  function Cur(items: seq<Item>, x: Var, init: Option<Value>, i: nat): Option<Value>
    requires i <= |items|
  {
    if i == 0 then init
    else if items[i - 1].Write? && items[i - 1].x == x then Some(items[i - 1].v)
    else Cur(items, x, init, i - 1)
  }

  function Emitted(items: seq<Item>): seq<Inst> {
    if items == [] then []
    else
      var rest := Emitted(items[..|items| - 1]);
      var last := items[|items| - 1];
      if last.Do? then rest + [last.inst] else rest
  }

  /** How many phis lead the list. */
  function PhiCount(insts: seq<Inst>): (n: nat)
    ensures n <= |insts|
  {
    if insts != [] && insts[0].Phi? then 1 + PhiCount(insts[1..]) else 0
  }

  // ----- the control-flow graph -----

  /** b can be reached in n edges from a sealed block without predecessors. */
  ghost predicate Anchored(s: Builder, b: BlockId, n: nat)
    decreases n
  {
    b < |s.blocks| &&
    if n == 0 then b in s.sealed && Preds(s, b) == []
    else exists p | p in Preds(s, b) :: Anchored(s, p, n - 1)
  }

  ghost predicate IsAnchored(s: Builder, b: BlockId) {
    exists n: nat :: Anchored(s, b, n)
  }

  predicate HasPred(s: Builder, b: BlockId, p: BlockId) {
    b < |s.blocks| && p in s.blocks[b].preds
  }

  predicate HasSucc(s: Builder, p: BlockId, b: BlockId) {
    p < |s.blocks| && b in s.blocks[p].succs
  }

  /** Both ends of an edge know it, and it starts at an anchored block. */
  ghost predicate EdgeOk(s: Builder, p: BlockId, b: BlockId) {
    (HasPred(s, b, p) <==> HasSucc(s, p, b)) && (HasPred(s, b, p) ==> IsAnchored(s, p))
  }

  ghost predicate NoRepeats(xs: seq<BlockId>) {
    forall i, j | 0 <= i < j < |xs| :: xs[i] != xs[j]
  }

  /** The ends of block b are recorded once each. */
  ghost predicate EndsOnce(s: Builder, b: BlockId) {
    b < |s.blocks| ==> NoRepeats(s.blocks[b].preds) && NoRepeats(s.blocks[b].succs)
  }

  ghost predicate GraphOk(s: Builder) {
    && |s.blocks| > 0 && |s.log| == |s.blocks|
    && (forall b | 0 <= b < |s.blocks| :: s.blocks[b].id == b)
    && 0 in s.sealed && s.blocks[0].preds == []
    && (forall b | b in s.sealed :: b < |s.blocks|)
    && (forall p: BlockId, b: BlockId :: EdgeOk(s, p, b))
    && (forall b: BlockId :: EndsOnce(s, b))
  }

  // ----- instructions -----

  /** Phis, then what the front end emitted; no value defined twice; definitions recorded. */
  ghost predicate InstsOk(s: Builder, b: BlockId)
    requires b < |s.blocks| == |s.log|
  {
    var insts := s.blocks[b].insts;
    && insts[PhiCount(insts)..] == Emitted(s.log[b])
    && (forall i | i in Emitted(s.log[b]) :: !i.Phi?)
    && (forall i, j | 0 <= i < j < |insts| && Def(insts[i]).Some? :: Def(insts[i]) != Def(insts[j]))
    && (forall i | i in insts && Def(i).Some? :: Def(i).value in s.site && s.site[Def(i).value] == b)
  }

  // ----- variables -----

  ghost predicate VarOk(s: Builder, x: Var, b: BlockId) {
    if b < |s.log| then Out(s, x, b) == Cur(s.log[b], x, Inval(s, x, b), |s.log[b]|) else Out(s, x, b) == None
  }

  ghost predicate ReadsOk(s: Builder, b: BlockId)
    requires b < |s.log|
  {
    forall i | 0 <= i < |s.log[b]| && s.log[b][i].Read? ::
      Cur(s.log[b], s.log[b][i].x, Inval(s, s.log[b][i].x, b), i) == Some(s.log[b][i].v)
  }

  ghost predicate Owned(s: Builder, v: Value, x: Var, b: BlockId) {
    v in s.owner && s.owner[v] == (x, b)
  }

  /** The value at the start of a block is its own phi, or that of its only predecessor. */
  ghost predicate InvalOk(s: Builder, x: Var, b: BlockId) {
    (x, b) in s.inval ==>
      var v := s.inval[(x, b)];
      && b < |s.blocks| && b != 0
      && (Owned(s, v, x, b) || (b in s.sealed && |Preds(s, b)| == 1 && Out(s, x, Preds(s, b)[0]) == Some(v)))
  }

  /** One operand per predecessor, each what the variable is at the end of that predecessor. */
  ghost predicate Filled(s: Builder, x: Var, b: BlockId, ops: map<BlockId, Value>) {
    && (forall p :: p in ops <==> p in Preds(s, b))
    && forall p | p in ops :: Out(s, x, p) == Some(ops[p])
  }

  /** A phi is owned, and empty exactly while it waits for its block's predecessors. */
  ghost predicate PhiOk(s: Builder, b: BlockId, i: Inst)
    requires i.Phi?
  {
    && i.d in s.owner && s.owner[i.d].1 == b && Inval(s, s.owner[i.d].0, b) == Some(i.d)
    && var x := s.owner[i.d].0;
       if b !in s.sealed then
         i.operands == map[] && b in s.incomplete && x in s.incomplete[b] && s.incomplete[b][x] == i.d
       else if i.d in s.pending then i.operands == map[]
       else Filled(s, x, b, i.operands)
  }

  ghost predicate PhisOk(s: Builder, b: BlockId)
    requires b < |s.blocks|
  {
    forall i | i in s.blocks[b].insts && i.Phi? :: PhiOk(s, b, i)
  }

  ghost predicate OwnerOk(s: Builder, v: Value) {
    v in s.owner ==>
      var (x, b) := s.owner[v];
      && v < s.next && b < |s.blocks| && Inval(s, x, b) == Some(v) && v in s.site && s.site[v] == b
      && exists i :: i in s.blocks[b].insts && i.Phi? && i.d == v
  }

  ghost predicate IncompleteOk(s: Builder, b: BlockId, x: Var) {
    b in s.incomplete && x in s.incomplete[b] ==> b !in s.sealed && b < |s.blocks| && Owned(s, s.incomplete[b][x], x, b)
  }

  ghost predicate BlockOk(s: Builder, b: BlockId) {
    b < |s.blocks| && |s.log| == |s.blocks| ==> InstsOk(s, b) && ReadsOk(s, b) && PhisOk(s, b)
  }

  ghost predicate VarsOk(s: Builder, x: Var, b: BlockId) {
    VarOk(s, x, b) && InvalOk(s, x, b) && IncompleteOk(s, b, x)
  }

  ghost predicate ValueOk(s: Builder, v: Value) {
    && OwnerOk(s, v)
    && (v in s.site ==> v < s.next)
    && (v in s.pending ==> v in s.owner && s.owner[v].1 in s.sealed)
  }

  ghost predicate Inv(s: Builder) {
    && GraphOk(s)
    && (forall b: BlockId :: BlockOk(s, b))
    && (forall x: Var, b: BlockId :: VarsOk(s, x, b))
    && (forall v: Value :: ValueOk(s, v))
  }

  // ----- the steps -----

  function Initial(): Builder {
    Builder([Block(0, [], [], [])], 0, map[], map[], {0}, [[]], map[], map[], map[], {})
  }

  /** next_value */
  function NewValue(s: Builder): Builder {
    s.(next := s.next + 1)
  }

  /** create_block */
  function NewBlock(s: Builder): Builder {
    s.(blocks := s.blocks + [Block(|s.blocks|, [], [], [])], log := s.log + [[]])
  }

  function PushNew(xs: seq<BlockId>, b: BlockId): seq<BlockId> {
    if b in xs then xs else xs + [b]
  }

  /** link_blocks */
  function Linked(s: Builder, p: BlockId, b: BlockId): Builder
    requires p < |s.blocks| && b < |s.blocks|
  {
    var mid := s.blocks[p := s.blocks[p].(succs := PushNew(s.blocks[p].succs, b))];
    s.(blocks := mid[b := mid[b].(preds := PushNew(mid[b].preds, p))])
  }

  function Logged(s: Builder, b: BlockId, item: Item): Builder
    requires b < |s.log|
  {
    s.(log := s.log[b := s.log[b] + [item]])
  }

  /** The front end assigns x := v in b. */
  function Assigned(s: Builder, x: Var, b: BlockId, v: Value): Builder
    requires b < |s.log|
  {
    Logged(s, b, Write(x, v)).(defs := SetDef(s.defs, x, b, v))
  }

  /** The front end emits a non-phi instruction at the end of b. */
  function Emit(s: Builder, b: BlockId, i: Inst): Builder
    requires b < |s.blocks| == |s.log|
  {
    var t := Logged(s, b, Do(i));
    t.(blocks := s.blocks[b := s.blocks[b].(insts := s.blocks[b].insts + [i])],
       site := if Def(i).Some? then s.site[Def(i).value := b] else s.site)
  }

  /** A new empty phi for x at the head of b, recorded as the definition of x there. */
  function WithPhi(s: Builder, x: Var, b: BlockId): Builder
    requires b < |s.blocks|
  {
    s.(next := s.next + 1,
       blocks := s.blocks[b := s.blocks[b].(insts := [Phi(s.next, map[])] + s.blocks[b].insts)],
       defs := SetDef(s.defs, x, b, s.next),
       inval := s.inval[(x, b) := s.next],
       owner := s.owner[s.next := (x, b)],
       site := s.site[s.next := b])
  }

  function SetIncomplete(m: map<BlockId, map<Var, Value>>, b: BlockId, x: Var, v: Value)
    : map<BlockId, map<Var, Value>>
  {
    m[b := (if b in m then m[b] else map[])[x := v]]
  }

  /** The unsealed case of a read. */
  function WithIncompletePhi(s: Builder, x: Var, b: BlockId): Builder
    requires b < |s.blocks|
  {
    WithPhi(s, x, b).(incomplete := SetIncomplete(s.incomplete, b, x, s.next))
  }

  /** The join case of a read, before its operands are read. */
  function WithPendingPhi(s: Builder, x: Var, b: BlockId): Builder
    requires b < |s.blocks|
  {
    WithPhi(s, x, b).(pending := s.pending + {s.next})
  }

  /** The single-predecessor case of a read. */
  function Memoized(s: Builder, x: Var, b: BlockId, v: Value): Builder {
    s.(defs := SetDef(s.defs, x, b, v), inval := s.inval[(x, b) := v])
  }

  /** Sets the operands of the phi that defines v. */
  function FillIn(insts: seq<Inst>, v: Value, ops: map<BlockId, Value>): seq<Inst> {
    if insts == [] then []
    else if insts[0].Phi? && insts[0].d == v then [Phi(v, ops)] + insts[1..]
    else [insts[0]] + FillIn(insts[1..], v, ops)
  }

  function WithOperands(s: Builder, b: BlockId, v: Value, ops: map<BlockId, Value>): Builder
    requires b < |s.blocks|
  {
    s.(blocks := s.blocks[b := s.blocks[b].(insts := FillIn(s.blocks[b].insts, v, ops))], pending := s.pending - {v})
  }

  /** The block is sealed and its incomplete phis are taken over. */
  function SealedBlock(s: Builder, b: BlockId): Builder {
    s.(sealed := s.sealed + {b}, incomplete := s.incomplete - {b},
       pending := s.pending + (if b in s.incomplete then s.incomplete[b].Values else {}))
  }
}
