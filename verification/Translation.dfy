/** The translation of a function into constraints and safety checks (verifier/mod.rs, cfg.rs,
    control_flow.rs, arithmetic.rs): what the assertions it leaves in the solver mean. */
module Translation {
  import opened Types
  import Bits
  import opened Ir
  import opened Reach
  import opened Encoding

  // ----- what the translation needs of the function -----

  ghost predicate LoopFree(edges: Edges) {
    forall p | Walk(edges, p) && |p| > 1 :: p[0] != p[|p| - 1]
  }

  /** Instructions of the integer fragment over declared bit-vectors. */
  ghost predicate IntegerInst(types: map<Value, Type>, i: Inst) {
    IsInteger(i) && TypedInteger(types, i) && forall v | v in MentionedIn(i) :: IsBitVector(types, v)
  }

  /** A block of such instructions: phis are keyed by blocks whose terminator leads here, and
      terminators come last. */
  ghost predicate IntegerBlock(f: Func, b: Block) {
    && (forall i | i in b.insts :: IntegerInst(f.types, i))
    && (forall i | i in b.insts && i.Phi? :: forall p | p in i.operands :: (p, b.id) in ControlEdges(f.blocks))
    && (forall k | 0 <= k < |b.insts| - 1 :: !IsTerminator(b.insts[k]))
  }

  ghost predicate Translatable(f: Func) {
    LoopFree(ControlEdges(f.blocks)) && forall b {:trigger IntegerBlock(f, b)} | b in f.blocks :: IntegerBlock(f, b)
  }

  lemma ModelledInst(f: Func, m: Model, b: Block, i: Inst)
    requires Translatable(f) && Shaped(f, m) && b in f.blocks && i in b.insts
    ensures Modelled(f.types, m, i)
  {
    assert IntegerBlock(f, b) && IntegerInst(f.types, i);
    forall v | v in MentionedIn(i) ensures v in m.vals && Width(f.types, v) > 0 {
      assert v in Values(f);
    }
  }

  /** Without loops no phi sits in a loop header. */
  lemma NoLoopHeader(edges: Edges, b: BlockId, p: BlockId)
    requires LoopFree(edges) && (p, b) in edges
    ensures !Reaches(edges, b, p) && Reaches(edges, p, b)
  {
    ReachesSelf(edges, p);
    ReachesStep(edges, p, p, b);
    if Reaches(edges, b, p) {
      var w :| Walk(edges, w) && w[0] == b && w[|w| - 1] == p;
      WalkExtend(edges, w, b);
    }
  }

  // ----- meanings of lists of assertions -----

  lemma AllHoldAppend(types: map<Value, Type>, m: Model, es: seq<Bool_>, e: Bool_)
    ensures AllHold(types, m, es + [e]) <==> AllHold(types, m, es) && Holds(types, m, e)
  {
    assert e in es + [e];
    forall x | x in es ensures x in es + [e] { }
  }

  /** The first n block rules. */
  ghost predicate FirstBlockRules(f: Func, m: Model, n: nat)
    requires n <= |f.blocks|
  {
    forall b | b in f.blocks[..n] :: b.id == f.entry || BlockRule(f, m, b.id)
  }

  ghost predicate EntryRule(f: Func, m: Model) {
    (exists b :: b in f.blocks && b.id == f.entry) ==> f.entry in m.blocks
  }

  lemma EntryMeaning(f: Func, m: Model)
    ensures (exists b :: b in f.blocks && b.id == f.entry) ==>
              (Holds(f.types, m, Iff(BlockVar(f.entry), Const(true))) <==> EntryRule(f, m))
    ensures !(exists b :: b in f.blocks && b.id == f.entry) ==> EntryRule(f, m)
  {
  }

  lemma EntryAndOthers(f: Func, m: Model)
    ensures EntryRule(f, m) && FirstBlockRules(f, m, |f.blocks|) <==> BlockRules(f, m)
  {
    assert f.blocks[..|f.blocks|] == f.blocks;
    if exists b :: b in f.blocks && b.id == f.entry {
      var b :| b in f.blocks && b.id == f.entry;
      assert BlockRule(f, m, b.id) <==> f.entry in m.blocks;
    }
    forall b | b in f.blocks && b.id == f.entry ensures BlockRule(f, m, b.id) <==> f.entry in m.blocks { }
  }

  ghost predicate FirstInstRules(f: Func, m: Model, b: Block, n: nat)
    requires n <= |b.insts|
  {
    forall i {:trigger InstRule(f, m, b.id, i)} | i in b.insts[..n] :: InstRule(f, m, b.id, i)
  }

  ghost predicate FirstBlocksInstRules(f: Func, m: Model, n: nat)
    requires n <= |f.blocks|
  {
    forall b {:trigger InstRules(f, m, b)} | b in f.blocks[..n] :: InstRules(f, m, b)
  }

  ghost predicate PhiRuleOn(m: Model, b: BlockId, i: Inst, keys: set<BlockId>)
    requires i.Phi? && keys <= i.operands.Keys
  {
    forall p | p in keys && (p, b) in m.edges :: Get(EnvOf(m), i.d) == Get(EnvOf(m), i.operands[p])
  }

  /** The assertions made between the two moments say what instruction i contributes. */
  ghost predicate AddsInst(f: Func, before: seq<Bool_>, after: seq<Bool_>, b: Block, i: Inst) {
    forall m | Shaped(f, m) ::
      AllHold(f.types, m, after) <==> AllHold(f.types, m, before) && InstRule(f, m, b.id, i)
  }

  ghost predicate AddsPhiOn(f: Func, before: seq<Bool_>, after: seq<Bool_>, b: Block, i: Inst, keys: set<BlockId>)
    requires i.Phi? && keys <= i.operands.Keys
  {
    forall m | Shaped(f, m) ::
      AllHold(f.types, m, after) <==> AllHold(f.types, m, before) && PhiRuleOn(m, b.id, i, keys)
  }

  ghost predicate AddsFirst(f: Func, before: seq<Bool_>, after: seq<Bool_>, b: Block, n: nat)
    requires n <= |b.insts|
  {
    forall m | Shaped(f, m) ::
      AllHold(f.types, m, after) <==> AllHold(f.types, m, before) && FirstInstRules(f, m, b, n)
  }

  ghost predicate AddsBlock(f: Func, before: seq<Bool_>, after: seq<Bool_>, b: Block) {
    forall m | Shaped(f, m) ::
      AllHold(f.types, m, after) <==> AllHold(f.types, m, before) && InstRules(f, m, b)
  }

  ghost predicate AddsBlocks(f: Func, before: seq<Bool_>, after: seq<Bool_>, n: nat)
    requires n <= |f.blocks|
  {
    forall m | Shaped(f, m) ::
      AllHold(f.types, m, after) <==> AllHold(f.types, m, before) && FirstBlocksInstRules(f, m, n)
  }

  lemma AddsNext(f: Func, start: seq<Bool_>, before: seq<Bool_>, after: seq<Bool_>, b: Block, n: nat)
    requires n < |b.insts| && AddsFirst(f, start, before, b, n) && AddsInst(f, before, after, b, b.insts[n])
    ensures AddsFirst(f, start, after, b, n + 1)
  {
    assert b.insts[..n + 1] == b.insts[..n] + [b.insts[n]];
  }

  lemma AddsNextBlock(f: Func, start: seq<Bool_>, before: seq<Bool_>, after: seq<Bool_>, n: nat)
    requires n < |f.blocks| && AddsBlocks(f, start, before, n) && AddsBlock(f, before, after, f.blocks[n])
    ensures AddsBlocks(f, start, after, n + 1)
  {
    assert f.blocks[..n + 1] == f.blocks[..n] + [f.blocks[n]];
  }

  lemma PhiNotInHeader(f: Func, b: Block, i: Inst)
    requires Translatable(f) && b in f.blocks && i in b.insts && i.Phi?
    ensures forall p | p in i.operands ::
              (p, b.id) in ControlEdges(f.blocks)
              && !Reaches(ControlEdges(f.blocks), b.id, p) && Reaches(ControlEdges(f.blocks), p, b.id)
  {
    assert IntegerBlock(f, b);
    forall p | p in i.operands
      ensures (p, b.id) in ControlEdges(f.blocks)
        && !Reaches(ControlEdges(f.blocks), b.id, p) && Reaches(ControlEdges(f.blocks), p, b.id)
    {
      NoLoopHeader(ControlEdges(f.blocks), b.id, p);
    }
  }

  // ----- the division checks -----

  predicate IsDivision(i: Inst) {
    i.Arith? && (i.aop == SDiv || i.aop == SRem)
  }

  /** The query of a division in block b: the block runs and the divisor is zero. */
  function CheckOf(types: map<Value, Type>, b: BlockId, i: Inst): SafetyCheck
    requires IsDivision(i)
  {
    SafetyCheck(BlockVar(b), BvCmp(Eq, BvVar(i.r), BvConst(0, Width(types, i.r))))
  }

  function ChecksIn(types: map<Value, Type>, b: BlockId, insts: seq<Inst>): seq<SafetyCheck> {
    if insts == [] then []
    else
      var i := insts[|insts| - 1];
      ChecksIn(types, b, insts[..|insts| - 1]) + if IsDivision(i) then [CheckOf(types, b, i)] else []
  }

  function Checks(types: map<Value, Type>, blocks: seq<Block>): seq<SafetyCheck> {
    if blocks == [] then []
    else
      var b := blocks[|blocks| - 1];
      Checks(types, blocks[..|blocks| - 1]) + ChecksIn(types, b.id, b.insts)
  }

  lemma Concat(x: seq<SafetyCheck>, y: seq<SafetyCheck>, z: seq<SafetyCheck>)
    ensures x + y + z == x + (y + z)
  {
  }

  lemma ChecksNext(types: map<Value, Type>, blocks: seq<Block>, k: nat)
    requires k < |blocks|
    ensures Checks(types, blocks[..k + 1])
            == Checks(types, blocks[..k]) + ChecksIn(types, blocks[k].id, blocks[k].insts)
  {
    assert blocks[..k + 1][..k] == blocks[..k];
  }

  lemma ChecksInNext(types: map<Value, Type>, b: BlockId, insts: seq<Inst>, k: nat)
    requires k < |insts|
    ensures ChecksIn(types, b, insts[..k + 1])
         == ChecksIn(types, b, insts[..k]) + if IsDivision(insts[k]) then [CheckOf(types, b, insts[k])] else []
  {
    assert insts[..k + 1][..k] == insts[..k];
  }

  lemma {:induction false} ChecksInMembers(types: map<Value, Type>, b: BlockId, insts: seq<Inst>, c: SafetyCheck)
    ensures c in ChecksIn(types, b, insts) <==> exists i :: i in insts && IsDivision(i) && c == CheckOf(types, b, i)
  {
    if insts != [] {
      var rest, last := insts[..|insts| - 1], insts[|insts| - 1];
      assert insts == rest + [last];
      ChecksInMembers(types, b, rest, c);
    }
  }

  /** Every signed division and every signed remainder has its check, under its own block and on its own
      divisor at the divisor's width, and there is no other check. */
  lemma {:induction false} ChecksMembers(types: map<Value, Type>, blocks: seq<Block>, c: SafetyCheck)
    ensures c in Checks(types, blocks)
       <==> exists b, i :: b in blocks && i in b.insts && i.Arith? && (i.aop == SDiv || i.aop == SRem)
              && c == SafetyCheck(BlockVar(b.id), BvCmp(Eq, BvVar(i.r), BvConst(0, Width(types, i.r))))
  {
    if blocks != [] {
      var rest, last := blocks[..|blocks| - 1], blocks[|blocks| - 1];
      assert blocks == rest + [last];
      ChecksMembers(types, rest, c);
      ChecksInMembers(types, last.id, last.insts, c);
    }
  }

  // ----- declared variables -----

  lemma ControlEdgesAppend(blocks: seq<Block>, b: Block)
    ensures ControlEdges(blocks + [b]) == ControlEdges(blocks) + set t | t in Targets(b) :: (b.id, t)
  {
    assert b in blocks + [b];
    forall c, t | c in blocks && t in Targets(c) ensures (c.id, t) in ControlEdges(blocks + [b]) {
      assert c in blocks + [b];
    }
  }

  lemma TargetDeclared(f: Func, b: Block, i: Inst)
    requires b in f.blocks && i in b.insts && IntegerBlock(f, b)
    ensures i.Jump? ==> (b.id, i.target) in ControlEdges(f.blocks)
    ensures i.Branch? ==> (b.id, i.onTrue) in ControlEdges(f.blocks) && (b.id, i.onFalse) in ControlEdges(f.blocks)
  {
    if IsTerminator(i) {
      var k :| 0 <= k < |b.insts| && b.insts[k] == i;
      assert k == |b.insts| - 1;
    }
  }

  // ----- the formula of each instruction against its rule -----

  lemma OpRuleMeaning(f: Func, m: Model, b: Block, i: Inst)
    requires IntegerInst(f.types, i) && Modelled(f.types, m, i) && IsIntegerOp(i)
    ensures Holds(f.types, m, Implies(BlockVar(b.id), OpFormula(f.types, i))) <==> InstRule(f, m, b.id, i)
  {
    OpFormulaMeaning(f.types, m, i);
  }

  function IsOne(types: map<Value, Type>, cond: Value): Bool_ {
    BvCmp(Eq, BvVar(cond), BvConst(1, Width(types, cond)))
  }

  lemma IsOneMeaning(f: Func, m: Model, i: Inst)
    requires IntegerInst(f.types, i) && Modelled(f.types, m, i) && i.Branch?
    ensures Holds(f.types, m, IsOne(f.types, i.cond)) <==> Get(EnvOf(m), i.cond) == Int(1)
  {
    UseModelled(f.types, m, i, i.cond);
    var w := Width(f.types, i.cond);
    assert i.cond in Uses(i) && i.cond in MentionedIn(i);
    assert Bits.Pow2(w) >= 2;
    WrapSmall(1, w);
    assert BvValue(f.types, m, BvConst(1, w)) == 1;
  }

  lemma BranchRuleMeaning(f: Func, m: Model, b: Block, i: Inst)
    requires IntegerInst(f.types, i) && Modelled(f.types, m, i) && i.Branch?
    ensures Holds(f.types, m, Iff(EdgeVar(b.id, i.onTrue), And(BlockVar(b.id), IsOne(f.types, i.cond))))
            && Holds(f.types, m, Iff(EdgeVar(b.id, i.onFalse), And(BlockVar(b.id), Not(IsOne(f.types, i.cond)))))
       <==> InstRule(f, m, b.id, i)
  {
    IsOneMeaning(f, m, i);
    EdgeFormulas(f.types, m, b.id, i.onTrue, i.onFalse, IsOne(f.types, i.cond));
    assert InstRule(f, m, b.id, i) <==> BranchRule(m, b.id, i);
  }

  lemma EdgeFormulas(types: map<Value, Type>, m: Model, b: BlockId, t: BlockId, e: BlockId, c: Bool_)
    ensures Holds(types, m, Iff(EdgeVar(b, t), And(BlockVar(b), c)))
       <==> ((b, t) in m.edges <==> b in m.blocks && Holds(types, m, c))
    ensures Holds(types, m, Iff(EdgeVar(b, e), And(BlockVar(b), Not(c))))
       <==> ((b, e) in m.edges <==> b in m.blocks && !Holds(types, m, c))
  {
    assert Holds(types, m, Not(c)) <==> !Holds(types, m, c);
    assert Holds(types, m, And(BlockVar(b), c)) <==> b in m.blocks && Holds(types, m, c);
    assert Holds(types, m, And(BlockVar(b), Not(c))) <==> b in m.blocks && !Holds(types, m, c);
  }

  lemma JumpRuleMeaning(f: Func, m: Model, b: Block, i: Inst)
    requires i.Jump?
    ensures Holds(f.types, m, Iff(EdgeVar(b.id, i.target), BlockVar(b.id))) <==> InstRule(f, m, b.id, i)
  {
  }

  lemma PhiEdgeMeaning(f: Func, m: Model, b: BlockId, i: Inst, p: BlockId, done: set<BlockId>)
    requires i.Phi? && Modelled(f.types, m, i) && p in i.operands && done <= i.operands.Keys
    ensures PhiRuleOn(m, b, i, done) && Holds(f.types, m, PhiEdge(b, i, p)) <==> PhiRuleOn(m, b, i, done + {p})
  {
    assert i.d in MentionedIn(i) && i.operands[p] in MentionedIn(i);
    assert Holds(f.types, m, BvCmp(Eq, BvVar(i.d), BvVar(i.operands[p])))
      <==> Get(EnvOf(m), i.d) == Get(EnvOf(m), i.operands[p]);
    assert Holds(f.types, m, EdgeVar(p, b)) <==> (p, b) in m.edges;
  }

  /** Taking the edge from p makes the phi equal to its operand. */
  function PhiEdge(b: BlockId, i: Inst, p: BlockId): Bool_
    requires i.Phi? && p in i.operands
  {
    Implies(EdgeVar(p, b), BvCmp(Eq, BvVar(i.d), BvVar(i.operands[p])))
  }

  lemma AddsPhi(f: Func, before: seq<Bool_>, after: seq<Bool_>, b: Block, i: Inst)
    requires i.Phi? && AddsPhiOn(f, before, after, b, i, i.operands.Keys)
    ensures AddsInst(f, before, after, b, i)
  {
    assert forall m :: PhiRuleOn(m, b.id, i, i.operands.Keys) <==> InstRule(f, m, b.id, i);
  }

  lemma AddsNextEdge(f: Func, start: seq<Bool_>, before: seq<Bool_>, b: Block, i: Inst, p: BlockId, done: set<BlockId>)
    requires Translatable(f) && b in f.blocks && i in b.insts && i.Phi? && p in i.operands && done <= i.operands.Keys
    requires AddsPhiOn(f, start, before, b, i, done)
    ensures AddsPhiOn(f, start, before + [PhiEdge(b.id, i, p)], b, i, done + {p})
  {
    var e := PhiEdge(b.id, i, p);
    forall m | Shaped(f, m)
      ensures AllHold(f.types, m, before + [e]) <==> AllHold(f.types, m, start) && PhiRuleOn(m, b.id, i, done + {p})
    {
      AllHoldAppend(f.types, m, before, e);
      ModelledInst(f, m, b, i);
      PhiEdgeMeaning(f, m, b.id, i, p, done);
    }
  }

  method Missing(all: set<BlockId>, done: set<BlockId>) returns (p: BlockId)
    requires done < all
    ensures p in all && p !in done
  {
    p :| p in all && p !in done;
  }

  /** The edge variables of the edges seen so far that lead to b. */
  ghost predicate EdgesInto(seen: Edges, b: BlockId, incoming: seq<Bool_>) {
    forall e :: e in incoming <==> exists p :: (p, b) in seen && e == EdgeVar(p, b)
  }

  lemma EdgesIntoNext(all: Edges, todo: Edges, k: (BlockId, BlockId), b: BlockId, incoming: seq<Bool_>)
    requires todo <= all && k in todo && EdgesInto(all - todo, b, incoming)
    ensures EdgesInto(all - (todo - {k}), b, if k.1 == b then incoming + [EdgeVar(k.0, k.1)] else incoming)
  {
    assert all - (todo - {k}) == (all - todo) + {k};
  }

  class TranslationContext {
    const func: Func
    var blockConditions: map<BlockId, Bool_>
    var edgeConditions: map<(BlockId, BlockId), Bool_>
    var asserts: seq<Bool_>
    var safetyChecks: seq<SafetyCheck>

    constructor (f: Func)
      ensures func == f && blockConditions == map[] && edgeConditions == map[] && asserts == [] && safetyChecks == []
    {
      func, blockConditions, edgeConditions, asserts, safetyChecks := f, map[], map[], [], [];
    }

    /** One variable per block and per edge. */
    ghost predicate Declared()
      reads this`blockConditions, this`edgeConditions
    {
      && blockConditions.Keys == (set b | b in func.blocks :: b.id)
      && (forall b | b in blockConditions :: blockConditions[b] == BlockVar(b))
      && edgeConditions.Keys == ControlEdges(func.blocks)
      && (forall e | e in edgeConditions :: edgeConditions[e] == EdgeVar(e.0, e.1))
    }

    method Assert(e: Bool_)
      modifies this`asserts
      ensures asserts == old(asserts) + [e]
      ensures forall m :: AllHold(func.types, m, asserts)
                     <==> AllHold(func.types, m, old(asserts)) && Holds(func.types, m, e)
    {
      asserts := asserts + [e];
      forall m ensures AllHold(func.types, m, asserts)
                  <==> AllHold(func.types, m, old(asserts)) && Holds(func.types, m, e)
      {
        AllHoldAppend(func.types, m, old(asserts), e);
      }
    }

    /** The variables of the first n blocks. */
    ghost predicate DeclaredUpTo(n: nat)
      requires n <= |func.blocks|
      reads this
    {
      && blockConditions.Keys == (set b | b in func.blocks[..n] :: b.id)
      && (forall b | b in blockConditions :: blockConditions[b] == BlockVar(b))
      && edgeConditions.Keys == ControlEdges(func.blocks[..n])
      && (forall e | e in edgeConditions :: edgeConditions[e] == EdgeVar(e.0, e.1))
    }

    method DeclareConditions()
      requires blockConditions == map[] && edgeConditions == map[]
      modifies this`blockConditions, this`edgeConditions
      ensures Declared()
    {
      for k := 0 to |func.blocks|
        invariant DeclaredUpTo(k)
      {
        assert func.blocks[..k + 1] == func.blocks[..k] + [func.blocks[k]];
        ControlEdgesAppend(func.blocks[..k], func.blocks[k]);
        DeclareBlock(func.blocks[k]);
      }
      assert func.blocks[..|func.blocks|] == func.blocks;
    }

    method DeclareBlock(b: Block)
      requires forall e | e in edgeConditions :: edgeConditions[e] == EdgeVar(e.0, e.1)
      modifies this`blockConditions, this`edgeConditions
      ensures blockConditions == old(blockConditions)[b.id := BlockVar(b.id)]
      ensures forall e | e in edgeConditions :: edgeConditions[e] == EdgeVar(e.0, e.1)
      ensures edgeConditions.Keys == old(edgeConditions.Keys) + set t | t in Targets(b) :: (b.id, t)
    {
      blockConditions := blockConditions[b.id := BlockVar(b.id)];
      if b.insts != [] {
        var last := b.insts[|b.insts| - 1];
        if last.Jump? {
          edgeConditions := edgeConditions[(b.id, last.target) := EdgeVar(b.id, last.target)];
        } else if last.Branch? {
          edgeConditions := edgeConditions[(b.id, last.onTrue) := EdgeVar(b.id, last.onTrue)];
          edgeConditions := edgeConditions[(b.id, last.onFalse) := EdgeVar(b.id, last.onFalse)];
        }
      }
    }

    /** The edge variables into a block. */
    method IncomingEdges(b: BlockId) returns (incoming: seq<Bool_>)
      requires Declared()
      ensures forall e :: e in incoming <==> exists p :: (p, b) in ControlEdges(func.blocks) && e == EdgeVar(p, b)
    {
      incoming := [];
      var todo := edgeConditions.Keys;
      while todo != {}
        invariant todo <= edgeConditions.Keys && EdgesInto(edgeConditions.Keys - todo, b, incoming)
        decreases |todo|
      {
        var k :| k in todo;
        EdgesIntoNext(edgeConditions.Keys, todo, k, b, incoming);
        todo := todo - {k};
        if k.1 == b {
          incoming := incoming + [edgeConditions[k]];
        }
      }
      assert edgeConditions.Keys - todo == ControlEdges(func.blocks);
    }

    /** Entry true; any other block exactly when one of its incoming edges is. */
    method AssertCfgConstraints()
      requires blockConditions == map[] && edgeConditions == map[]
      modifies this
      ensures Declared() && safetyChecks == old(safetyChecks)
      ensures forall m :: AllHold(func.types, m, asserts)
                     <==> AllHold(func.types, m, old(asserts)) && BlockRules(func, m)
    {
      DeclareConditions();
      if func.entry in blockConditions {
        Assert(Iff(blockConditions[func.entry], Const(true)));
      }
      forall m ensures AllHold(func.types, m, asserts) <==> AllHold(func.types, m, old(asserts)) && EntryRule(func, m) {
        EntryMeaning(func, m);
      }
      for k := 0 to |func.blocks|
        invariant Declared() && safetyChecks == old(safetyChecks)
        invariant forall m :: AllHold(func.types, m, asserts)
                         <==> AllHold(func.types, m, old(asserts)) && EntryRule(func, m) && FirstBlockRules(func, m, k)
      {
        var b := func.blocks[k];
        assert forall m :: FirstBlockRules(func, m, k + 1)
                      <==> FirstBlockRules(func, m, k) && (b.id == func.entry || BlockRule(func, m, b.id))
        by {
          assert func.blocks[..k + 1] == func.blocks[..k] + [b];
        }
        if b.id != func.entry {
          AssertIncoming(b.id);
        }
      }
      forall m ensures EntryRule(func, m) && FirstBlockRules(func, m, |func.blocks|) <==> BlockRules(func, m) {
        EntryAndOthers(func, m);
      }
    }

    method AssertIncoming(b: BlockId)
      requires Declared() && b in blockConditions && b != func.entry
      modifies this`asserts
      ensures forall m :: AllHold(func.types, m, asserts)
                     <==> AllHold(func.types, m, old(asserts)) && BlockRule(func, m, b)
    {
      var incoming := IncomingEdges(b);
      var path := blockConditions[b];
      ghost var e := Iff(path, if incoming == [] then Const(false) else Or(incoming));
      if incoming == [] {
        Assert(Iff(path, Const(false)));
      } else {
        Assert(Iff(path, Or(incoming)));
      }
      forall m ensures Holds(func.types, m, e) <==> BlockRule(func, m, b) {
        IncomingMeaning(m, b, incoming);
      }
    }

    lemma IncomingMeaning(m: Model, b: BlockId, incoming: seq<Bool_>)
      requires b != func.entry
      requires forall e :: e in incoming <==> exists p :: (p, b) in ControlEdges(func.blocks) && e == EdgeVar(p, b)
      ensures Holds(func.types, m, Iff(BlockVar(b), if incoming == [] then Const(false) else Or(incoming)))
         <==> BlockRule(func, m, b)
    {
      assert Holds(func.types, m, Or(incoming)) <==> exists e | e in incoming :: Holds(func.types, m, e);
      if p :| (p, b) in ControlEdges(func.blocks) && (p, b) in m.edges {
        assert EdgeVar(p, b) in incoming && Holds(func.types, m, EdgeVar(p, b));
      }
      if e :| e in incoming && Holds(func.types, m, e) {
        assert e.EdgeVar?;
      }
    }

    // ----- instructions -----

    method TranslateInstructions()
      requires Declared() && Translatable(func)
      modifies this`asserts, this`safetyChecks
      ensures AddsBlocks(func, old(asserts), asserts, |func.blocks|)
      ensures safetyChecks == old(safetyChecks) + Checks(func.types, func.blocks)
    {
      for k := 0 to |func.blocks|
        invariant AddsBlocks(func, old(asserts), asserts, k)
        invariant safetyChecks == old(safetyChecks) + Checks(func.types, func.blocks[..k])
      {
        var b := func.blocks[k];
        ChecksNext(func.types, func.blocks, k);
        ghost var before := asserts;
        TranslateBlock(b);
        Concat(old(safetyChecks), Checks(func.types, func.blocks[..k]), ChecksIn(func.types, b.id, b.insts));
        AddsNextBlock(func, old(asserts), before, asserts, k);
      }
      assert func.blocks[..|func.blocks|] == func.blocks;
    }

    method TranslateBlock(b: Block)
      requires Declared() && Translatable(func) && b in func.blocks
      modifies this`asserts, this`safetyChecks
      ensures AddsBlock(func, old(asserts), asserts, b)
      ensures safetyChecks == old(safetyChecks) + ChecksIn(func.types, b.id, b.insts)
    {
      var path := blockConditions[b.id];
      for k := 0 to |b.insts|
        invariant AddsFirst(func, old(asserts), asserts, b, k)
        invariant safetyChecks == old(safetyChecks) + ChecksIn(func.types, b.id, b.insts[..k])
      {
        ChecksInNext(func.types, b.id, b.insts, k);
        ghost var before := asserts;
        Translate(b.insts[k], path, b);
        AddsNext(func, old(asserts), before, asserts, b, k);
      }
      assert b.insts[..|b.insts|] == b.insts;
    }

    method Translate(i: Inst, path: Bool_, b: Block)
      requires Declared() && Translatable(func) && b in func.blocks && i in b.insts && path == BlockVar(b.id)
      modifies this`asserts, this`safetyChecks
      ensures AddsInst(func, old(asserts), asserts, b, i)
      ensures safetyChecks == old(safetyChecks) +
                if i.Arith? && (i.aop == SDiv || i.aop == SRem)
                then [SafetyCheck(BlockVar(b.id), BvCmp(Eq, BvVar(i.r), BvConst(0, Width(func.types, i.r))))] else []
    {
      assert IntegerBlock(func, b) && IntegerInst(func.types, i);
      if i.Jump? {
        TranslateJump(i, path, b);
      } else if i.Branch? {
        TranslateBranch(i, path, b);
      } else if i.Phi? {
        TranslatePhi(i, b);
      } else if IsIntegerOp(i) {
        TranslateOp(i, path, b);
      } else {
        assert forall m :: InstRule(func, m, b.id, i);
      }
    }

    method TranslateJump(i: Inst, path: Bool_, b: Block)
      requires Declared() && Translatable(func) && b in func.blocks && i in b.insts && path == BlockVar(b.id)
      requires i.Jump?
      modifies this`asserts
      ensures AddsInst(func, old(asserts), asserts, b, i)
    {
      assert IntegerBlock(func, b);
      TargetDeclared(func, b, i);
      Assert(Iff(edgeConditions[(b.id, i.target)], path));
      forall m | Shaped(func, m)
        ensures AllHold(func.types, m, asserts) <==> AllHold(func.types, m, old(asserts)) && InstRule(func, m, b.id, i)
      {
        JumpRuleMeaning(func, m, b, i);
      }
    }

    /** cond == 1 is the true edge, anything else the false one. */
    method TranslateBranch(i: Inst, path: Bool_, b: Block)
      requires Declared() && Translatable(func) && b in func.blocks && i in b.insts && path == BlockVar(b.id)
      requires i.Branch?
      modifies this`asserts
      ensures AddsInst(func, old(asserts), asserts, b, i)
    {
      assert IntegerBlock(func, b);
      TargetDeclared(func, b, i);
      var isTrue := IsOne(func.types, i.cond);
      Assert(Iff(edgeConditions[(b.id, i.onTrue)], And(path, isTrue)));
      Assert(Iff(edgeConditions[(b.id, i.onFalse)], And(path, Not(isTrue))));
      forall m | Shaped(func, m)
        ensures AllHold(func.types, m, asserts) <==> AllHold(func.types, m, old(asserts)) && InstRule(func, m, b.id, i)
      {
        ModelledInst(func, m, b, i);
        assert IntegerBlock(func, b);
        BranchRuleMeaning(func, m, b, i);
      }
    }

    /** Some predecessor can be reached from the block itself. */
    method IsLoopHeader(i: Inst, b: BlockId) returns (header: bool)
      requires Declared() && i.Phi?
      ensures header <==> exists p :: p in i.operands && Reaches(edgeConditions.Keys, b, p)
    {
      header := false;
      var todo := i.operands.Keys;
      while todo != {}
        invariant todo <= i.operands.Keys
        invariant header <==> exists p :: p in i.operands.Keys - todo && Reaches(edgeConditions.Keys, b, p)
        decreases |todo|
      {
        var p :| p in todo;
        todo := todo - {p};
        var found := IsReachable(edgeConditions.Keys, b, p);
        header := header || found;
      }
    }

    /** Outside loop headers: the taken edge fixes the phi. */
    method TranslatePhi(i: Inst, b: Block)
      requires Declared() && Translatable(func) && b in func.blocks && i in b.insts && i.Phi?
      modifies this`asserts
      ensures AddsInst(func, old(asserts), asserts, b, i)
    {
      PhiNotInHeader(func, b, i);
      var header := IsLoopHeader(i, b.id);
      assert !header;
      TranslateIncoming(i, b);
    }

    /** Each incoming edge once, in any order. */
    method TranslateIncoming(i: Inst, b: Block)
      requires Declared() && Translatable(func) && b in func.blocks && i in b.insts && i.Phi?
      modifies this`asserts
      ensures AddsInst(func, old(asserts), asserts, b, i)
    {
      var done: set<BlockId> := {};
      while done < i.operands.Keys
        invariant done <= i.operands.Keys && Declared()
        invariant AddsPhiOn(func, old(asserts), asserts, b, i, done)
        decreases i.operands.Keys - done
      {
        var p := Missing(i.operands.Keys, done);
        TranslateEdge(i, b, p, old(asserts), done);
        done := done + {p};
      }
      AddsPhi(func, old(asserts), asserts, b, i);
    }

    method TranslateEdge(i: Inst, b: Block, p: BlockId, ghost start: seq<Bool_>, ghost done: set<BlockId>)
      requires Declared() && Translatable(func) && b in func.blocks && i in b.insts && i.Phi?
      requires p in i.operands && done <= i.operands.Keys
      requires AddsPhiOn(func, start, asserts, b, i, done)
      modifies this`asserts
      ensures AddsPhiOn(func, start, asserts, b, i, done + {p})
    {
      PhiNotInHeader(func, b, i);
      var found := IsReachable(edgeConditions.Keys, p, b.id);
      if found {
        AddsNextEdge(func, start, asserts, b, i, p, done);
        asserts := asserts + [Implies(edgeConditions[(p, b.id)], BvCmp(Eq, BvVar(i.d), BvVar(i.operands[p])))];
      }
    }

    method TranslateOp(i: Inst, path: Bool_, b: Block)
      requires Declared() && Translatable(func) && b in func.blocks && i in b.insts && path == BlockVar(b.id)
      requires IsIntegerOp(i)
      modifies this`asserts, this`safetyChecks
      ensures AddsInst(func, old(asserts), asserts, b, i)
      ensures safetyChecks == old(safetyChecks) +
                if i.Arith? && (i.aop == SDiv || i.aop == SRem)
                then [SafetyCheck(BlockVar(b.id), BvCmp(Eq, BvVar(i.r), BvConst(0, Width(func.types, i.r))))] else []
    {
      if IsDivision(i) {
        var isZero := BvCmp(Eq, BvVar(i.r), BvConst(0, Width(func.types, i.r)));
        safetyChecks := safetyChecks + [SafetyCheck(path, isZero)];
      }
      Assert(Implies(path, OpFormula(func.types, i)));
      forall m | Shaped(func, m)
        ensures AllHold(func.types, m, asserts) <==> AllHold(func.types, m, old(asserts)) && InstRule(func, m, b.id, i)
      {
        ModelledInst(func, m, b, i);
        assert IntegerBlock(func, b);
        OpRuleMeaning(func, m, b, i);
      }
    }
  }
}
