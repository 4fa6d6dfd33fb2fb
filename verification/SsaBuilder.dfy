/** On-the-fly SSA construction (builder/mod.rs): the builder object. */
module SsaBuilder {
  import opened Types
  import opened Ir
  import opened SsaState
  import opened SsaSteps

  datatype BuilderResult = Ok(value: Value) | UnboundVariable(variable: Var)

  // ----- what a read may do to the builder -----

  /** Reads add phis and start values; they never change a recorded one, and they add no phi to a
      sealed block with fewer than two predecessors. */
  ghost predicate Grows(s: Builder, t: Builder) {
    && SameGraph(s, t) && t.sealed == s.sealed && t.log == s.log && s.next <= t.next
    && (forall x: Var, b: BlockId, v: Value | Out(s, x, b) == Some(v) :: Out(t, x, b) == Some(v))
    && (forall v: Value | v in s.owner :: v in t.owner && t.owner[v] == s.owner[v])
    && (forall v: Value | v in t.owner && v !in s.owner :: TakesPhi(s, t.owner[v].1))
  }

  predicate TakesPhi(s: Builder, b: BlockId) {
    b !in s.sealed || |Preds(s, b)| > 1
  }

  lemma GrowsPreds(s: Builder, t: Builder)
    requires SameGraph(s, t)
    ensures forall b: BlockId :: Preds(t, b) == Preds(s, b)
  {
    forall b: BlockId ensures Preds(t, b) == Preds(s, b) {
      if b < |s.blocks| { assert SameEnds(s.blocks[b], t.blocks[b]); }
    }
  }

  lemma GrowsTransitive(s: Builder, t: Builder, u: Builder)
    requires Grows(s, t) && Grows(t, u)
    ensures Grows(s, u)
  {
    GrowsPreds(s, t);
    forall b | 0 <= b < |s.blocks| ensures SameEnds(s.blocks[b], u.blocks[b]) {
      assert SameEnds(s.blocks[b], t.blocks[b]) && SameEnds(t.blocks[b], u.blocks[b]);
    }
    forall v: Value | v in u.owner && v !in s.owner ensures TakesPhi(s, u.owner[v].1) {
      if v !in t.owner { assert TakesPhi(t, u.owner[v].1); }
    }
  }

  /** The blocks where a read of x would put a phi. */
  function Open(s: Builder, x: Var): set<BlockId> {
    set b: BlockId | b < |s.blocks| && Out(s, x, b) == None && TakesPhi(s, b)
  }

  lemma OpenShrinks(s: Builder, t: Builder, x: Var)
    requires Grows(s, t)
    ensures Open(t, x) <= Open(s, x) && |Open(t, x)| <= |Open(s, x)|
  {
    GrowsPreds(s, t);
    forall b | b in Open(t, x) ensures b in Open(s, x) {
      if Out(s, x, b).Some? { assert Out(t, x, b) == Some(Out(s, x, b).value); }
    }
    SubsetSize(Open(t, x), Open(s, x));
  }

  lemma SubsetSize(a: set<BlockId>, b: set<BlockId>)
    requires a <= b
    ensures |a| <= |b| && (a != b ==> |a| < |b|)
  {
    assert b == a + (b - a);
    if a != b { assert b - a != {}; }
  }

  /** A backward path through sealed blocks where x has no definition, to one without predecessors. */
  ghost predicate DeadEnd(s: Builder, x: Var, p: seq<BlockId>) {
    && |p| > 0
    && (forall k | 0 <= k < |p| :: p[k] < |s.blocks| && p[k] in s.sealed && Out(s, x, p[k]) == None)
    && (forall k | 0 < k < |p| :: p[k] in Preds(s, p[k - 1]))
    && Preds(s, p[|p| - 1]) == []
  }

  ghost predicate Unassigned(s: Builder, x: Var, b: BlockId) {
    exists p :: DeadEnd(s, x, p) && p[0] == b
  }

  lemma UnassignedBack(s: Builder, t: Builder, x: Var, b: BlockId, c: BlockId)
    requires Grows(s, t) && b < |s.blocks| && b in s.sealed && Out(s, x, b) == None
    requires c in Preds(s, b) && Unassigned(t, x, c)
    ensures Unassigned(s, x, b)
  {
    GrowsPreds(s, t);
    var p :| DeadEnd(t, x, p) && p[0] == c;
    var q := [b] + p;
    forall k | 0 <= k < |q| ensures q[k] < |s.blocks| && q[k] in s.sealed && Out(s, x, q[k]) == None {
      if k > 0 {
        assert Out(t, x, p[k - 1]) == None;
        if Out(s, x, q[k]).Some? { assert Out(t, x, q[k]) == Some(Out(s, x, q[k]).value); }
      }
    }
    forall k | 0 < k < |q| ensures q[k] in Preds(s, q[k - 1]) {
      if k > 1 { assert p[k - 1] in Preds(t, p[k - 2]); }
    }
    assert DeadEnd(s, x, q);
  }

  lemma UnassignedHere(s: Builder, x: Var, b: BlockId)
    requires b < |s.blocks| && Out(s, x, b) == None && b in s.sealed && Preds(s, b) == []
    ensures Unassigned(s, x, b)
  {
    assert DeadEnd(s, x, [b]);
  }

  // ----- a read that succeeds has met no dead end -----

  /** A block that was sealed without a definition and has one now has predecessors, all with one. */
  lemma NowDefined(s: Builder, t: Builder, x: Var, b: BlockId)
    requires Inv(s) && Inv(t) && Grows(s, t) && t.pending <= s.pending
    requires b < |s.blocks| && b in s.sealed && Out(s, x, b) == None && Out(t, x, b).Some?
    ensures Preds(s, b) != [] && forall p | p in Preds(s, b) :: Out(t, x, p).Some?
  {
    GrowsPreds(s, t);
    assert VarsOk(s, x, b) && VarsOk(t, x, b);
    CurUnassigned(s.log[b], x, Inval(s, x, b), |s.log[b]|, 0);
    CurFromInit(s.log[b], x, Inval(t, x, b), |s.log[b]|);
    var v := t.inval[(x, b)];
    if Owned(t, v, x, b) {
      assert ValueOk(s, v) && ValueOk(t, v);
      var i :| i in t.blocks[b].insts && i.Phi? && i.d == v;
      assert BlockOk(t, b) && PhiOk(t, b, i);
    }
  }

  lemma {:induction false} NoDeadEndLeft(s: Builder, t: Builder, x: Var, p: seq<BlockId>)
    requires Inv(s) && Inv(t) && Grows(s, t) && t.pending <= s.pending
    requires |p| > 0 && Out(t, x, p[0]).Some?
    ensures !DeadEnd(s, x, p)
  {
    if DeadEnd(s, x, p) {
      NowDefined(s, t, x, p[0]);
      if |p| > 1 {
        assert p[1] in Preds(s, p[0]);
        NoDeadEndLeft(s, t, x, p[1..]);
        assert DeadEnd(s, x, p[1..]) by {
          forall k | 0 < k < |p| - 1 ensures p[1..][k] in Preds(s, p[1..][k - 1]) { assert p[k + 1] in Preds(s, p[k]); }
        }
      }
    }
  }

  /** So every backward walk was stopped by a definition or by a block not yet sealed. */
  lemma NotUnassigned(s: Builder, t: Builder, x: Var, b: BlockId)
    requires Inv(s) && Inv(t) && Grows(s, t) && t.pending <= s.pending && Out(t, x, b).Some?
    ensures !Unassigned(s, x, b)
  {
    forall p | |p| > 0 && p[0] == b ensures !DeadEnd(s, x, p) { NoDeadEndLeft(s, t, x, p); }
  }

  /** Each of the variables is assigned on every way back from the predecessors of b. */
  ghost predicate AllAssigned(s: Builder, b: BlockId, xs: set<Var>) {
    forall x, c | x in xs && c in Preds(s, b) :: !Unassigned(s, x, c)
  }

  /** Every phi that waited in b has been filled from predecessors where its variable is assigned. */
  lemma NoneUnassigned(s: Builder, t: Builder, b: BlockId, phis: map<Var, Value>)
    requires Inv(s) && Inv(t) && Grows(s, t) && t.pending == {} && b < |s.blocks| && b in s.sealed
    requires forall x | x in phis :: Owned(s, phis[x], x, b)
    ensures AllAssigned(s, b, phis.Keys)
  {
    GrowsPreds(s, t);
    forall x, c | x in phis && c in Preds(s, b) ensures !Unassigned(s, x, c) {
      assert Owned(t, phis[x], x, b) && ValueOk(t, phis[x]);
      var i :| i in t.blocks[b].insts && i.Phi? && i.d == phis[x];
      assert BlockOk(t, b) && PhiOk(t, b, i);
      NotUnassigned(s, t, x, c);
    }
  }

  lemma PhiAddedGrows(s: Builder, x: Var, b: BlockId, t: Builder)
    requires Inv(s) && PhiAdded(s, x, b, t) && TakesPhi(s, b)
    ensures Grows(s, t) && Open(t, x) < Open(s, x) && |Open(t, x)| < |Open(s, x)|
  {
    assert ValueOk(s, s.next);
    forall y: Var, c: BlockId, v: Value | Out(s, y, c) == Some(v) ensures Out(t, y, c) == Some(v) {}
    OpenShrinks(s, t, x);
    assert b in Open(s, x) && b !in Open(t, x);
    SubsetSize(Open(t, x), Open(s, x));
  }

  lemma MemoizedGrows(s: Builder, x: Var, b: BlockId, v: Value)
    requires b < |s.blocks| && Out(s, x, b) == None && forall c | c in s.sealed :: c < |s.blocks|
    ensures Grows(s, Memoized(s, x, b, v))
  {
  }

  /** A nested read may reach the block again, but only to record the same value. */
  lemma SingleAgrees(s: Builder, t: Builder, x: Var, b: BlockId, v: Value)
    requires Inv(s) && Inv(t) && Grows(s, t) && b < |s.blocks| && b in s.sealed && |Preds(s, b)| == 1
    requires Out(s, x, b) == None && Out(t, x, Preds(s, b)[0]) == Some(v) && Out(t, x, b).Some?
    ensures Out(t, x, b) == Some(v) && Inval(t, x, b) == Some(v)
  {
    assert VarsOk(s, x, b) && VarsOk(t, x, b);
    GrowsPreds(s, t);
    CurUnassigned(s.log[b], x, Inval(s, x, b), |s.log[b]|, v);
    CurFromInit(s.log[b], x, Inval(t, x, b), |s.log[b]|);
    var w := t.inval[(x, b)];
    assert ValueOk(s, w);
    assert w in t.owner && w !in s.owner ==> TakesPhi(s, t.owner[w].1);
  }

  lemma {:induction false} CurFromInit(items: seq<Item>, x: Var, init: Option<Value>, i: nat)
    requires i <= |items| && Cur(items, x, None, i) == None
    ensures Cur(items, x, init, i) == init
    decreases i
  {
    if i > 0 { CurFromInit(items, x, init, i - 1); }
  }

  lemma SetDefSame(defs: VarDefs, x: Var, b: BlockId, v: Value)
    requires DefOf(defs, x, b) == Some(v)
    ensures SetDef(defs, x, b, v) == defs
  {
    assert defs[x][b := v] == defs[x];
  }

  /** Recording the predecessor's value, whether or not a nested read got here first. */
  lemma RecordKeeps(s: Builder, t: Builder, x: Var, b: BlockId, v: Value)
    requires Inv(s) && Inv(t) && Grows(s, t) && b < |s.blocks| && b in s.sealed && |Preds(s, b)| == 1 && b != 0
    requires Out(s, x, b) == None && Out(t, x, Preds(s, b)[0]) == Some(v)
    ensures Inv(Memoized(t, x, b, v)) && Grows(s, Memoized(t, x, b, v))
  {
    var u := Memoized(t, x, b, v);
    GrowsPreds(s, t);
    if Out(t, x, b).Some? {
      SingleAgrees(s, t, x, b, v);
      SetDefSame(t.defs, x, b, v);
      assert u.inval == t.inval;
      assert u == t;
    } else {
      MemoizedInv(t, x, b, v);
      MemoizedGrows(t, x, b, v);
      GrowsTransitive(s, t, u);
    }
  }

  /** The operands read so far. */
  ghost predicate Collected(s: Builder, x: Var, preds: seq<BlockId>, ops: map<BlockId, Value>) {
    && (forall p :: p in ops <==> p in preds)
    && forall p | p in ops :: Out(s, x, p) == Some(ops[p])
  }

  lemma CollectMore(s: Builder, t: Builder, u: Builder, x: Var, preds: seq<BlockId>, k: nat, ops: map<BlockId, Value>,
                    v: Value)
    requires k < |preds| && Grows(s, t) && Grows(t, u)
    requires Collected(t, x, preds[..k], ops) && Out(u, x, preds[k]) == Some(v)
    ensures Grows(s, u) && Collected(u, x, preds[..k + 1], ops[preds[k] := v])
  {
    GrowsTransitive(s, t, u);
    assert preds[..k + 1] == preds[..k] + [preds[k]];
  }

  /** Predecessors are anchored, so reading them comes to an end. */
  lemma PredAnchored(s: Builder, t: Builder, x: Var, b: BlockId, p: BlockId) returns (n: nat)
    requires Inv(t) && Grows(s, t) && p in Preds(s, b)
    ensures p < |t.blocks| && Anchored(t, p, n) && |Open(t, x)| <= |Open(s, x)|
  {
    GrowsPreds(s, t);
    OpenShrinks(s, t, x);
    assert EdgeOk(t, p, b) && HasPred(t, b, p);
    n :| Anchored(t, p, n);
  }

  lemma WithOperandsGrows(s: Builder, b: BlockId, v: Value, ops: map<BlockId, Value>)
    requires b < |s.blocks| && forall c | c in s.sealed :: c < |s.blocks|
    ensures Grows(s, WithOperands(s, b, v, ops))
  {
  }

  lemma JoinUnassigned(s: Builder, t: Builder, x: Var, b: BlockId)
    requires Grows(s, t) && b < |s.blocks| && b in s.sealed && Out(s, x, b) == None
    requires exists c | c in Preds(t, b) :: Unassigned(t, x, c)
    ensures Unassigned(s, x, b)
  {
    var c :| c in Preds(t, b) && Unassigned(t, x, c);
    GrowsPreds(s, t);
    UnassignedBack(s, t, x, b, c);
  }

  lemma PendingPhiKeeps(s: Builder, x: Var, b: BlockId, t: Builder)
    requires Inv(s) && b < |s.blocks| && b in s.sealed && |Preds(s, b)| > 1 && Out(s, x, b) == None
    requires t == WithPendingPhi(s, x, b)
    ensures Inv(t) && Grows(s, t) && |Open(t, x)| < |Open(s, x)| && s.next !in s.pending
    ensures Out(t, x, b) == Some(s.next) && Owned(t, s.next, x, b) && t.pending == s.pending + {s.next}
  {
    assert ValueOk(s, s.next);
    PhiAddedInv(s, x, b, t);
    PhiAddedGrows(s, x, b, t);
  }

  lemma IncompletePhiKeeps(s: Builder, x: Var, b: BlockId, t: Builder)
    requires Inv(s) && b < |s.blocks| && b !in s.sealed && Out(s, x, b) == None && t == WithIncompletePhi(s, x, b)
    ensures Inv(t) && Grows(s, t) && Out(t, x, b) == Some(s.next) && t.pending == s.pending
  {
    PhiAddedInv(s, x, b, t);
    PhiAddedGrows(s, x, b, t);
  }

  lemma JoinDone(s: Builder, t: Builder, u: Builder, x: Var, b: BlockId, val: Value)
    requires Grows(s, t) && Grows(t, u) && Out(t, x, b) == Some(val)
    ensures Grows(s, u) && Out(u, x, b) == Some(val) && SetDef(u.defs, x, b, val) == u.defs
  {
    GrowsTransitive(s, t, u);
    SetDefSame(u.defs, x, b, val);
  }

  /** The variables with an incomplete phi in b. */
  function Waiting(incomplete: map<BlockId, map<Var, Value>>, b: BlockId): set<Var> {
    if b in incomplete then incomplete[b].Keys else {}
  }

  class CFGBuilder {
    const func: Function
    var variableDefs: VarDefs
    var incompletePhis: map<BlockId, map<Var, Value>>
    var sealedBlocks: set<BlockId>

    ghost var log: seq<seq<Item>>
    ghost var inval: map<(Var, BlockId), Value>
    ghost var owner: map<Value, (Var, BlockId)>
    ghost var site: map<Value, BlockId>
    ghost var pending: set<Value>

    ghost function State(): Builder
      reads this, func
    {
      Builder(func.blocks, func.valueCount, variableDefs, incompletePhis, sealedBlocks,
              log, inval, owner, site, pending)
    }

    ghost predicate Valid()
      reads this, func
    {
      Inv(State()) && func.blockCount == |func.blocks| && func.entryBlock == 0
    }

    constructor ()
      ensures Valid() && State() == Initial() && fresh(func)
    {
      func := new Function();
      variableDefs, incompletePhis, sealedBlocks := map[], map[], {};
      log, inval, owner, site, pending := [], map[], map[], map[], {};
      new;
      var id := func.NextBlock();
      func.blocks := [Block(id, [], [], [])];
      log := [[]];
      sealedBlocks := {id};
      InitialInv();
    }

    // ----- blocks and instructions -----

    method CreateBlock() returns (id: BlockId)
      requires Valid()
      modifies this, func
      ensures Valid() && State() == NewBlock(old(State())) && id == |old(func.blocks)|
    {
      NewBlockInv(State());
      id := func.NextBlock();
      func.blocks := func.blocks + [Block(id, [], [], [])];
      log := log + [[]];
    }

    /** All predecessors of a block are linked before it is sealed, and control leaves a block only
        after it is sealed or has been entered. */
    method LinkBlocks(from: BlockId, to: BlockId)
      requires Valid() && from < |func.blocks| && to < |func.blocks|
      requires to !in sealedBlocks && (from in sealedBlocks || func.blocks[from].preds != [])
      modifies func`blocks
      ensures Valid() && State() == Linked(old(State()), from, to)
    {
      EnteredAnchored(State(), from);
      LinkedInv(State(), from, to);
      if to !in func.blocks[from].succs {
        func.blocks := func.blocks[from := func.blocks[from].(succs := func.blocks[from].succs + [to])];
      }
      if from !in func.blocks[to].preds {
        func.blocks := func.blocks[to := func.blocks[to].(preds := func.blocks[to].preds + [from])];
      }
      assert func.blocks == Linked(old(State()), from, to).blocks;
    }

    /** Phis go to the head of the block, everything else to its end. */
    method AddInstructionToBlock(b: BlockId, kind: Inst)
      requires b < |func.blocks|
      modifies func`blocks
      ensures func.blocks == old(func.blocks)[b := old(func.blocks)[b].(insts :=
                if kind.Phi? then [kind] + old(func.blocks)[b].insts else old(func.blocks)[b].insts + [kind])]
    {
      var insts := func.blocks[b].insts;
      func.blocks := func.blocks[b := func.blocks[b].(insts := if kind.Phi? then [kind] + insts else insts + [kind])];
    }

    /** The front end emits an instruction with a fresh result. */
    method AddInstruction(b: BlockId, kind: Inst)
      requires Valid() && b < |func.blocks| && !kind.Phi?
      requires Def(kind).Some? ==> Def(kind).value < func.valueCount && Def(kind).value !in site
      modifies this, func
      ensures Valid() && State() == Emit(old(State()), b, kind)
    {
      EmitInv(State(), b, kind);
      AddInstructionToBlock(b, kind);
      log := log[b := log[b] + [Do(kind)]];
      site := if Def(kind).Some? then site[Def(kind).value := b] else site;
    }

    method FreshValue() returns (val: Value)
      requires Valid()
      modifies func`valueCount
      ensures Valid() && State() == NewValue(old(State())) && val == old(func.valueCount)
    {
      NewValueInv(State());
      val := func.NextValue();
    }

    // ----- variables -----

    method WriteVariable(x: Var, b: BlockId, v: Value)
      modifies this`variableDefs
      ensures variableDefs == SetDef(old(variableDefs), x, b, v)
    {
      var ofBlock := if x in variableDefs then variableDefs[x] else map[];
      variableDefs := variableDefs[x := ofBlock[b := v]];
    }

    /** The front end assigns to a variable, in a block that has no successor yet. */
    method Assign(x: Var, b: BlockId, v: Value)
      requires Valid() && b < |func.blocks| && func.blocks[b].succs == []
      modifies this
      ensures Valid() && State() == Assigned(old(State()), x, b, v)
    {
      AssignedInv(State(), x, b, v);
      WriteVariable(x, b, v);
      log := log[b := log[b] + [Write(x, v)]];
    }

    /** The front end reads a variable. */
    method Use(x: Var, b: BlockId) returns (r: BuilderResult)
      requires Valid() && b < |func.blocks|
      modifies this, func
      ensures r.Ok? ==> Valid() && Grows(old(State()), State().(log := old(log)))
      ensures r.Ok? ==> pending == old(pending) && log == old(log)[b := old(log)[b] + [Read(x, r.value)]]
      ensures r.Ok? ==> Out(State(), x, b) == Some(r.value)
      ensures r.Ok? ==> variableDefs.Keys <= old(variableDefs.Keys) + {x}
      ensures r.UnboundVariable? <==> Unassigned(old(State()), x, b)
      ensures r.UnboundVariable? ==> r.variable == x
    {
      ghost var n: nat := 0;
      if b in sealedBlocks {
        EnteredAnchored(State(), b);
        n :| Anchored(State(), b, n);
      }
      r := ReadVariable(x, b, n);
      if r.Ok? {
        ReadLoggedInv(State(), x, b, r.value);
        log := log[b := log[b] + [Read(x, r.value)]];
      }
    }

    method ReadVariable(x: Var, b: BlockId, ghost n: nat) returns (r: BuilderResult)
      requires Valid() && b < |func.blocks| && (b in sealedBlocks ==> Anchored(State(), b, n))
      modifies this, func
      ensures r.Ok? ==> Valid() && Grows(old(State()), State()) && pending == old(pending)
      ensures r.Ok? ==> Out(State(), x, b) == Some(r.value)
      ensures r.Ok? ==> variableDefs.Keys <= old(variableDefs.Keys) + {x}
      ensures r.UnboundVariable? <==> Unassigned(old(State()), x, b)
      ensures r.UnboundVariable? ==> r.variable == x
      decreases |Open(State(), x)|, 0, n, 2
    {
      if x in variableDefs && b in variableDefs[x] {
        return Ok(variableDefs[x][b]);
      }
      r := ReadVariableRecursive(x, b, n);
    }

    method ReadVariableRecursive(x: Var, b: BlockId, ghost n: nat) returns (r: BuilderResult)
      requires Valid() && b < |func.blocks| && (b in sealedBlocks ==> Anchored(State(), b, n))
      requires Out(State(), x, b) == None
      modifies this, func
      ensures r.Ok? ==> Valid() && Grows(old(State()), State()) && pending == old(pending)
      ensures r.Ok? ==> Out(State(), x, b) == Some(r.value)
      ensures r.Ok? ==> variableDefs.Keys <= old(variableDefs.Keys) + {x}
      ensures r.UnboundVariable? <==> Unassigned(old(State()), x, b)
      ensures r.UnboundVariable? ==> r.variable == x
      decreases |Open(State(), x)|, 0, n, 1
    {
      ghost var s := State();
      if b !in sealedBlocks {
        var val := NewIncompletePhi(x, b);
        return Ok(val);
      }
      var predecessors := func.blocks[b].preds;
      if predecessors == [] {
        UnassignedHere(s, x, b);
        return UnboundVariable(x);
      } else if |predecessors| == 1 {
        r := ReadSingle(x, b, n);
      } else {
        r := ReadJoin(x, b, n);
      }
      if r.Ok? {
        NotUnassigned(s, State(), x, b);
      }
    }

    /** One predecessor: its value is the value here. */
    method ReadSingle(x: Var, b: BlockId, ghost n: nat) returns (r: BuilderResult)
      requires Valid() && b < |func.blocks| && b in sealedBlocks && Anchored(State(), b, n)
      requires |func.blocks[b].preds| == 1 && Out(State(), x, b) == None
      modifies this, func
      ensures r.Ok? ==> Valid() && Grows(old(State()), State()) && pending == old(pending)
      ensures r.Ok? ==> Out(State(), x, b) == Some(r.value)
      ensures r.Ok? ==> variableDefs.Keys <= old(variableDefs.Keys) + {x}
      ensures r.UnboundVariable? ==> r.variable == x && Unassigned(old(State()), x, b)
      decreases |Open(State(), x)|, 0, n, 0
    {
      ghost var s := State();
      var pred := func.blocks[b].preds[0];
      r := ReadVariable(x, pred, n - 1);
      if r.UnboundVariable? {
        UnassignedBack(s, s, x, b, pred);
        return;
      }
      Record(s, x, b, r.value);
    }

    /** Several predecessors: a phi, recorded before its operands are read and again after. */
    method ReadJoin(x: Var, b: BlockId, ghost n: nat) returns (r: BuilderResult)
      requires Valid() && b < |func.blocks| && b in sealedBlocks
      requires |func.blocks[b].preds| > 1 && Out(State(), x, b) == None
      modifies this, func
      ensures r.Ok? ==> Valid() && Grows(old(State()), State()) && pending == old(pending)
      ensures r.Ok? ==> Out(State(), x, b) == Some(r.value)
      ensures r.Ok? ==> variableDefs.Keys <= old(variableDefs.Keys) + {x}
      ensures r.UnboundVariable? ==> r.variable == x && Unassigned(old(State()), x, b)
      decreases |Open(State(), x)|, 0, n, 0
    {
      ghost var s := State();
      var val := NewPendingPhi(x, b);
      r := CompleteJoin(s, x, b, val);
    }

    /** The operands of the new phi, which is then recorded once more. */
    method CompleteJoin(ghost s: Builder, x: Var, b: BlockId, val: Value) returns (r: BuilderResult)
      requires Valid() && b < |func.blocks| && b < |s.blocks| && b in s.sealed && Out(s, x, b) == None
      requires Grows(s, State())
      requires Out(State(), x, b) == Some(val) && Owned(State(), val, x, b)
      requires val !in s.pending && pending == s.pending + {val}
      modifies this, func
      ensures r.Ok? ==> Valid() && Grows(s, State()) && pending == s.pending
      ensures r.Ok? ==> Out(State(), x, b) == Some(r.value)
      ensures r.Ok? ==> variableDefs.Keys <= old(variableDefs.Keys) + {x}
      ensures r.UnboundVariable? ==> r.variable == x && Unassigned(s, x, b)
      decreases |Open(State(), x)|, 1, 0, 1
    {
      ghost var t := State();
      r := AddPhiOperands(x, val, b);
      if r.UnboundVariable? {
        JoinUnassigned(s, t, x, b);
        return;
      }
      JoinDone(s, t, State(), x, b, val);
      WriteVariable(x, b, val);
    }

    /** The unsealed case: a phi that waits for the block to be sealed. */
    method NewIncompletePhi(x: Var, b: BlockId) returns (val: Value)
      requires Valid() && b < |func.blocks| && b !in sealedBlocks && Out(State(), x, b) == None
      modifies this, func
      ensures Valid() && Grows(old(State()), State()) && pending == old(pending) && Out(State(), x, b) == Some(val)
      ensures variableDefs.Keys <= old(variableDefs.Keys) + {x}
    {
      ghost var s := State();
      val := AddIncompletePhi(x, b);
      IncompletePhiKeeps(s, x, b, State());
    }

    method AddIncompletePhi(x: Var, b: BlockId) returns (val: Value)
      requires b < |func.blocks|
      modifies this, func`blocks, func`valueCount
      ensures State() == WithIncompletePhi(old(State()), x, b) && val == old(func.valueCount)
      ensures variableDefs.Keys == old(variableDefs.Keys) + {x}
    {
      val := func.NextValue();
      incompletePhis := SetIncomplete(incompletePhis, b, x, val);
      AddInstructionToBlock(b, Phi(val, map[]));
      WriteVariable(x, b, val);
      inval, owner, site := inval[(x, b) := val], owner[val := (x, b)], site[val := b];
    }

    /** The join case: an empty phi stands for the variable while its operands are read, which cuts loops. */
    method NewPendingPhi(x: Var, b: BlockId) returns (val: Value)
      requires Valid() && b < |func.blocks| && b in sealedBlocks && |func.blocks[b].preds| > 1
      requires Out(State(), x, b) == None
      modifies this, func
      ensures Valid() && Grows(old(State()), State()) && val == old(func.valueCount) && val !in old(pending)
      ensures Out(State(), x, b) == Some(val) && Owned(State(), val, x, b) && pending == old(pending) + {val}
      ensures |Open(State(), x)| < |Open(old(State()), x)|
      ensures variableDefs.Keys <= old(variableDefs.Keys) + {x}
    {
      ghost var s := State();
      val := AddPendingPhi(x, b);
      PendingPhiKeeps(s, x, b, State());
    }

    method AddPendingPhi(x: Var, b: BlockId) returns (val: Value)
      requires b < |func.blocks|
      modifies this, func`blocks, func`valueCount
      ensures State() == WithPendingPhi(old(State()), x, b) && val == old(func.valueCount)
      ensures variableDefs.Keys == old(variableDefs.Keys) + {x}
    {
      val := func.NextValue();
      WriteVariable(x, b, val);
      AddInstructionToBlock(b, Phi(val, map[]));
      inval, owner, site := inval[(x, b) := val], owner[val := (x, b)], site[val := b];
      pending := pending + {val};
    }

    /** The single-predecessor case: the value of the predecessor becomes the value here. */
    method Record(ghost s: Builder, x: Var, b: BlockId, v: Value)
      requires Inv(s) && Valid() && Grows(s, State()) && b < |func.blocks|
      requires b in s.sealed && |Preds(s, b)| == 1 && b != 0
      requires Out(s, x, b) == None && Out(State(), x, Preds(s, b)[0]) == Some(v)
      modifies this
      ensures Valid() && Grows(s, State()) && pending == old(pending) && Out(State(), x, b) == Some(v)
      ensures variableDefs.Keys <= old(variableDefs.Keys) + {x}
    {
      ghost var t := State();
      WriteVariable(x, b, v);
      inval := inval[(x, b) := v];
      assert State() == Memoized(t, x, b, v);
      RecordKeeps(s, t, x, b, v);
    }

    method AddPhiOperands(x: Var, phi: Value, b: BlockId) returns (r: BuilderResult)
      requires Valid() && b < |func.blocks| && phi in pending && Owned(State(), phi, x, b)
      modifies this, func
      ensures r.Ok? ==> r.value == phi && Valid() && Grows(old(State()), State()) && pending == old(pending) - {phi}
      ensures r.Ok? ==> variableDefs.Keys <= old(variableDefs.Keys) + {x}
      ensures r.UnboundVariable? ==>
              r.variable == x && exists c | c in Preds(old(State()), b) :: Unassigned(old(State()), x, c)
      decreases |Open(State(), x)|, 1, 0, 0
    {
      ghost var s := State();
      var predecessors := func.blocks[b].preds;
      var operands: map<BlockId, Value> := map[];
      for k := 0 to |predecessors|
        invariant Valid() && Grows(s, State()) && pending == s.pending
        invariant variableDefs.Keys <= old(variableDefs.Keys) + {x}
        invariant Collected(State(), x, predecessors[..k], operands)
      {
        ghost var t := State();
        ghost var n := PredAnchored(s, t, x, b, predecessors[k]);
        var res := ReadVariable(x, predecessors[k], n);
        if res.UnboundVariable? {
          DeadEndEarlier(s, t, x, predecessors[k]);
          return res;
        }
        CollectMore(s, t, State(), x, predecessors, k, operands, res.value);
        operands := operands[predecessors[k] := res.value];
      }
      assert predecessors[..|predecessors|] == predecessors;
      SetOperands(s, x, b, phi, operands);
      r := Ok(phi);
    }

    method SetOperands(ghost s: Builder, x: Var, b: BlockId, phi: Value, operands: map<BlockId, Value>)
      requires Valid() && Grows(s, State()) && b < |func.blocks| && phi in pending && Owned(s, phi, x, b)
      requires Collected(State(), x, Preds(s, b), operands)
      modifies this, func
      ensures Valid() && Grows(s, State()) && pending == old(pending) - {phi}
      ensures variableDefs == old(variableDefs)
    {
      ghost var t := State();
      GrowsPreds(s, t);
      WithOperandsInv(t, b, phi, operands);
      func.blocks := func.blocks[b := func.blocks[b].(insts := FillIn(func.blocks[b].insts, phi, operands))];
      pending := pending - {phi};
      assert State() == WithOperands(t, b, phi, operands);
      WithOperandsGrows(t, b, phi, operands);
      GrowsTransitive(s, t, State());
    }

    method SealBlock(b: BlockId) returns (r: BuilderResult)
      requires Valid() && b < |func.blocks| && pending == {}
      modifies this, func
      ensures r.Ok? ==> Valid() && pending == {} && sealedBlocks == old(sealedBlocks) + {b} && log == old(log)
      ensures r.Ok? ==> Grows(SealedBlock(old(State()), b), State())
      ensures r.Ok? ==> variableDefs.Keys <= old(variableDefs.Keys) + Waiting(old(incompletePhis), b)
      ensures r.UnboundVariable? ==> r.variable in Waiting(old(incompletePhis), b)
      ensures r.UnboundVariable? ==>
              exists c | c in Preds(old(State()), b) :: Unassigned(SealedBlock(old(State()), b), r.variable, c)
      ensures r.Ok? ==> AllAssigned(SealedBlock(old(State()), b), b, Waiting(old(incompletePhis), b))
    {
      ghost var before := State();
      SealedInv(before, b);
      sealedBlocks := sealedBlocks + {b};
      var phis := if b in incompletePhis then incompletePhis[b] else map[];
      incompletePhis := incompletePhis - {b};
      pending := pending + phis.Values;
      assert State() == SealedBlock(before, b);
      SealedOwned(before, b, phis);
      r := FillPhis(b, phis);
      if r.Ok? {
        NoneUnassigned(SealedBlock(before, b), State(), b, phis);
      }
    }

    method FillPhis(b: BlockId, phis: map<Var, Value>) returns (r: BuilderResult)
      requires Valid() && b < |func.blocks| && pending == phis.Values
      requires forall x | x in phis :: Owned(State(), phis[x], x, b)
      modifies this, func
      ensures r.Ok? ==> Valid() && pending == {} && Grows(old(State()), State())
      ensures r.Ok? ==> variableDefs.Keys <= old(variableDefs.Keys) + phis.Keys
      ensures r.UnboundVariable? ==> r.variable in phis
      ensures r.UnboundVariable? ==> exists c | c in Preds(old(State()), b) :: Unassigned(old(State()), r.variable, c)
    {
      ghost var s := State();
      var todo := phis.Keys;
      AllToFill(phis);
      while todo != {}
        invariant Valid() && Grows(s, State()) && b < |func.blocks|
        invariant todo <= phis.Keys && pending == ToFill(phis, todo)
        invariant variableDefs.Keys <= old(variableDefs.Keys) + phis.Keys
        decreases |todo|
      {
        var x :| x in todo;
        FilledOne(s, b, phis, todo, x);
        r := FillPhi(s, x, phis[x], b);
        if r.UnboundVariable? {
          return;
        }
        todo := todo - {x};
      }
      r := Ok(0);
    }

    method FillPhi(ghost s: Builder, x: Var, phi: Value, b: BlockId) returns (r: BuilderResult)
      requires Valid() && Grows(s, State()) && b < |func.blocks| && phi in pending && Owned(s, phi, x, b)
      modifies this, func
      ensures r.Ok? ==> Valid() && Grows(s, State()) && pending == old(pending) - {phi}
      ensures r.Ok? ==> variableDefs.Keys <= old(variableDefs.Keys) + {x}
      ensures r.UnboundVariable? ==> r.variable == x && exists c | c in Preds(s, b) :: Unassigned(s, x, c)
    {
      ghost var t := State();
      r := AddPhiOperands(x, phi, b);
      if r.UnboundVariable? {
        SealUnassigned(s, t, x, b);
      } else {
        GrowsTransitive(s, t, State());
      }
    }
  }

  /** The phis still to fill. */
  function ToFill(phis: map<Var, Value>, todo: set<Var>): set<Value>
    requires todo <= phis.Keys
  {
    set x | x in todo :: phis[x]
  }

  lemma AllToFill(phis: map<Var, Value>)
    ensures ToFill(phis, phis.Keys) == phis.Values && ToFill(phis, {}) == {}
  {
  }

  lemma FilledOne(s: Builder, b: BlockId, phis: map<Var, Value>, todo: set<Var>, x: Var)
    requires todo <= phis.Keys && x in todo && forall y | y in phis :: Owned(s, phis[y], y, b)
    ensures phis[x] in ToFill(phis, todo) && Owned(s, phis[x], x, b)
    ensures ToFill(phis, todo - {x}) == ToFill(phis, todo) - {phis[x]}
  {
    forall y | y in phis && y != x ensures phis[y] != phis[x] { assert Owned(s, phis[y], y, b); }
  }

  lemma SealedOwned(s: Builder, b: BlockId, phis: map<Var, Value>)
    requires Inv(s) && phis == (if b in s.incomplete then s.incomplete[b] else map[])
    ensures forall x | x in phis :: Owned(s, phis[x], x, b)
  {
    forall x | x in phis ensures Owned(s, phis[x], x, b) { assert VarsOk(s, x, b); }
  }

  lemma SealUnassigned(s: Builder, t: Builder, x: Var, b: BlockId)
    requires Grows(s, t) && exists c | c in Preds(t, b) :: Unassigned(t, x, c)
    ensures exists c | c in Preds(s, b) :: Unassigned(s, x, c)
  {
    var c :| c in Preds(t, b) && Unassigned(t, x, c);
    GrowsPreds(s, t);
    DeadEndEarlier(s, t, x, c);
  }

  lemma DeadEndEarlier(s: Builder, t: Builder, x: Var, c: BlockId)
    requires Grows(s, t) && Unassigned(t, x, c)
    ensures Unassigned(s, x, c)
  {
    GrowsPreds(s, t);
    var p :| DeadEnd(t, x, p) && p[0] == c;
    forall k | 0 <= k < |p| ensures Out(s, x, p[k]) == None {
      if Out(s, x, p[k]).Some? { assert Out(t, x, p[k]) == Some(Out(s, x, p[k]).value); }
    }
    assert DeadEnd(s, x, p);
  }
}
