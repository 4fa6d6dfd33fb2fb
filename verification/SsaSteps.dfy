/** Every builder step keeps the invariant of SSA construction. */
module SsaSteps {
  import opened Types
  import opened Ir
  import opened SsaState

  // ----- Cur -----

  lemma {:induction false} CurAppend(items: seq<Item>, item: Item, x: Var, init: Option<Value>, i: nat)
    requires i <= |items|
    ensures Cur(items + [item], x, init, i) == Cur(items, x, init, i)
    decreases i
  {
    if i > 0 { CurAppend(items, item, x, init, i - 1); }
  }

  /** No value at the end means no assignment, so a start value shows through everywhere. */
  lemma {:induction false} CurUnassigned(items: seq<Item>, x: Var, init: Option<Value>, i: nat, v: Value)
    requires i <= |items| && Cur(items, x, init, i) == None
    ensures init == None
    ensures forall j | 0 <= j <= i :: Cur(items, x, init, j) == None && Cur(items, x, Some(v), j) == Some(v)
    decreases i
  {
    if i > 0 { CurUnassigned(items, x, init, i - 1, v); }
  }

  lemma EmittedAppend(items: seq<Item>, item: Item)
    ensures Emitted(items + [item]) == if item.Do? then Emitted(items) + [item.inst] else Emitted(items)
  {
    assert (items + [item])[..|items|] == items;
  }

  // ----- the graph -----

  /** t has the blocks of s, perhaps with more predecessors where there were some, and keeps its roots. */
  ghost predicate RootsKept(s: Builder, t: Builder) {
    && |s.blocks| <= |t.blocks|
    && (forall b: BlockId, p: BlockId | HasPred(s, b, p) :: HasPred(t, b, p))
    && (forall b: BlockId | b < |s.blocks| && b in s.sealed && s.blocks[b].preds == [] ::
          b in t.sealed && t.blocks[b].preds == [])
  }

  /** A block that is sealed or has a predecessor is anchored: this is why reads terminate. */
  lemma EnteredAnchored(s: Builder, b: BlockId)
    requires Inv(s) && b < |s.blocks| && (b in s.sealed || s.blocks[b].preds != [])
    ensures IsAnchored(s, b)
  {
    if s.blocks[b].preds == [] {
      assert Anchored(s, b, 0);
    } else {
      var p := s.blocks[b].preds[0];
      assert EdgeOk(s, p, b) && HasPred(s, b, p);
      var n: nat :| Anchored(s, p, n);
      assert p in Preds(s, b);
      assert Anchored(s, b, n + 1);
    }
  }

  lemma {:induction false} AnchoredKept(s: Builder, t: Builder, b: BlockId, n: nat)
    requires RootsKept(s, t) && Anchored(s, b, n)
    ensures Anchored(t, b, n)
    decreases n
  {
    if n > 0 {
      var p :| p in Preds(s, b) && Anchored(s, p, n - 1);
      assert HasPred(s, b, p);
      AnchoredKept(s, t, p, n - 1);
      assert p in Preds(t, b);
    }
  }

  lemma AllAnchoredKept(s: Builder, t: Builder)
    requires RootsKept(s, t)
    ensures forall b: BlockId | IsAnchored(s, b) :: IsAnchored(t, b)
  {
    forall b: BlockId | IsAnchored(s, b) ensures IsAnchored(t, b) {
      var n: nat :| Anchored(s, b, n);
      AnchoredKept(s, t, b, n);
    }
  }

  /** The step leaves blocks, edges and seals alone. */
  ghost predicate SameGraph(s: Builder, t: Builder) {
    && |t.blocks| == |s.blocks| && |t.log| == |s.log| && s.sealed <= t.sealed
    && (forall b | b in t.sealed :: b < |s.blocks|)
    && forall b | 0 <= b < |s.blocks| :: SameEnds(s.blocks[b], t.blocks[b])
  }

  predicate SameEnds(b: Block, c: Block) {
    c.id == b.id && c.preds == b.preds && c.succs == b.succs
  }

  lemma SameGraphOk(s: Builder, t: Builder)
    requires GraphOk(s) && SameGraph(s, t)
    ensures GraphOk(t)
    ensures forall b: BlockId :: Preds(t, b) == Preds(s, b)
  {
    forall b: BlockId, p: BlockId ensures HasPred(t, b, p) == HasPred(s, b, p) && HasSucc(t, p, b) == HasSucc(s, p, b) {
      if b < |s.blocks| { assert SameEnds(s.blocks[b], t.blocks[b]); }
      if p < |s.blocks| { assert SameEnds(s.blocks[p], t.blocks[p]); }
    }
    forall b: BlockId ensures Preds(t, b) == Preds(s, b) {
      if b < |s.blocks| { assert SameEnds(s.blocks[b], t.blocks[b]); }
    }
    assert RootsKept(s, t);
    AllAnchoredKept(s, t);
    forall p: BlockId, b: BlockId ensures EdgeOk(t, p, b) { assert EdgeOk(s, p, b); }
    forall b: BlockId ensures EndsOnce(t, b) {
      assert EndsOnce(s, b);
      if b < |s.blocks| { assert SameEnds(s.blocks[b], t.blocks[b]); }
    }
    forall b | 0 <= b < |t.blocks| ensures t.blocks[b].id == b { assert SameEnds(s.blocks[b], t.blocks[b]); }
    assert SameEnds(s.blocks[0], t.blocks[0]);
  }

  // ----- blocks, edges, values -----

  lemma InitialInv()
    ensures Inv(Initial())
  {
  }

  lemma NewValueInv(s: Builder)
    requires Inv(s)
    ensures Inv(NewValue(s))
  {
    var t := NewValue(s);
    SameGraphOk(s, t);
    forall b: BlockId ensures BlockOk(t, b) {
      assert BlockOk(s, b);
      PlainPhis(s, t, b);
    }
    forall x: Var, b: BlockId ensures VarsOk(t, x, b) { assert VarsOk(s, x, b); }
    forall v: Value ensures ValueOk(t, v) { assert ValueOk(s, v); }
  }

  /** Phis stay as they are when nothing they depend on changes. */
  lemma PlainPhis(s: Builder, t: Builder, b: BlockId)
    requires b < |s.blocks| && b < |t.blocks| ==> PhisOk(s, b) && t.blocks[b].insts == s.blocks[b].insts
    requires t.owner == s.owner && t.sealed == s.sealed && t.incomplete == s.incomplete && t.pending == s.pending
    requires Preds(t, b) == Preds(s, b)
    requires forall x: Var, v: Value | Inval(s, x, b) == Some(v) :: Inval(t, x, b) == Some(v)
    requires forall x: Var, p: BlockId, v: Value | p in Preds(s, b) && Out(s, x, p) == Some(v) ::
             Out(t, x, p) == Some(v)
    ensures b < |s.blocks| && b < |t.blocks| ==> PhisOk(t, b)
  {
    if b < |s.blocks| && b < |t.blocks| {
      forall i | i in t.blocks[b].insts && i.Phi? ensures PhiOk(t, b, i) {
        assert PhiOk(s, b, i);
      }
    }
  }

  lemma NewBlockGraph(s: Builder)
    requires GraphOk(s)
    ensures GraphOk(NewBlock(s))
  {
    var t := NewBlock(s);
    forall b: BlockId, p: BlockId
      ensures HasPred(t, b, p) == HasPred(s, b, p) && HasSucc(t, p, b) == HasSucc(s, p, b)
    {
    }
    AllAnchoredKept(s, t);
    forall p: BlockId, b: BlockId ensures EdgeOk(t, p, b) { assert EdgeOk(s, p, b); }
    forall b: BlockId ensures EndsOnce(t, b) { assert EndsOnce(s, b); }
  }

  lemma NewBlockInv(s: Builder)
    requires Inv(s)
    ensures Inv(NewBlock(s))
  {
    var t := NewBlock(s);
    NewBlockGraph(s);
    forall b: BlockId ensures BlockOk(t, b) {
      assert BlockOk(s, b);
      if b < |s.blocks| { PlainPhis(s, t, b); }
    }
    forall x: Var, b: BlockId ensures VarsOk(t, x, b) { assert VarsOk(s, x, b); }
    forall v: Value ensures ValueOk(t, v) { assert ValueOk(s, v); }
  }

  lemma LinkedEnds(s: Builder, p: BlockId, b: BlockId, c: BlockId, q: BlockId)
    requires p < |s.blocks| && b < |s.blocks|
    ensures HasPred(Linked(s, p, b), c, q) <==> HasPred(s, c, q) || (c == b && q == p)
    ensures HasSucc(Linked(s, p, b), q, c) <==> HasSucc(s, q, c) || (c == b && q == p)
  {
  }

  lemma LinkedGraph(s: Builder, p: BlockId, b: BlockId)
    requires GraphOk(s) && p < |s.blocks| && b < |s.blocks| && b !in s.sealed && IsAnchored(s, p)
    ensures GraphOk(Linked(s, p, b))
  {
    var t := Linked(s, p, b);
    forall c: BlockId, q: BlockId
      ensures HasPred(t, c, q) <==> HasPred(s, c, q) || (c == b && q == p)
      ensures HasSucc(t, q, c) <==> HasSucc(s, q, c) || (c == b && q == p)
    {
      LinkedEnds(s, p, b, c, q);
    }
    assert RootsKept(s, t);
    AllAnchoredKept(s, t);
    forall q: BlockId, c: BlockId ensures EdgeOk(t, q, c) { assert EdgeOk(s, q, c); }
    forall c: BlockId ensures EndsOnce(t, c) { assert EndsOnce(s, c); }
  }

  /** Linking: the target is unsealed, so none of its phis has operands yet, and the source is anchored. */
  lemma LinkedInv(s: Builder, p: BlockId, b: BlockId)
    requires Inv(s) && p < |s.blocks| && b < |s.blocks| && b !in s.sealed && IsAnchored(s, p)
    ensures Inv(Linked(s, p, b))
  {
    var t := Linked(s, p, b);
    LinkedGraph(s, p, b);
    forall c: BlockId ensures BlockOk(t, c) {
      assert BlockOk(s, c);
      if c == b { UnsealedPhis(s, t, b); } else { PlainPhis(s, t, c); }
    }
    forall x: Var, c: BlockId ensures VarsOk(t, x, c) { assert VarsOk(s, x, c); }
    forall v: Value ensures ValueOk(t, v) {
      assert ValueOk(s, v);
      if v in s.owner { assert t.blocks[s.owner[v].1].insts == s.blocks[s.owner[v].1].insts; }
    }
  }

  lemma UnsealedPhis(s: Builder, t: Builder, b: BlockId)
    requires b < |s.blocks| && b < |t.blocks| && PhisOk(s, b) && t.blocks[b].insts == s.blocks[b].insts
    requires b !in s.sealed && t == s.(blocks := t.blocks)
    ensures PhisOk(t, b)
  {
    forall i | i in t.blocks[b].insts && i.Phi? ensures PhiOk(t, b, i) { assert PhiOk(s, b, i); }
  }

  // ----- what the front end does -----

  lemma LoggedReads(s: Builder, t: Builder, b: BlockId, item: Item, c: BlockId)
    requires b < |s.log| && c < |s.log| && ReadsOk(s, c)
    requires t.log == s.log[b := s.log[b] + [item]] && t.inval == s.inval
    requires item.Read? ==> Cur(s.log[b], item.x, Inval(s, item.x, b), |s.log[b]|) == Some(item.v)
    ensures ReadsOk(t, c)
  {
    if c == b {
      forall i | 0 <= i < |t.log[b]| && t.log[b][i].Read?
        ensures Cur(t.log[b], t.log[b][i].x, Inval(t, t.log[b][i].x, b), i) == Some(t.log[b][i].v)
      {
        CurAppend(s.log[b], item, t.log[b][i].x, Inval(s, t.log[b][i].x, b), i);
      }
    }
  }

  /** A block with a successor is finished, so no phi or start value depends on the end of b. */
  lemma AssignedInv(s: Builder, x: Var, b: BlockId, v: Value)
    requires Inv(s) && b < |s.blocks| && s.blocks[b].succs == []
    ensures Inv(Assigned(s, x, b, v))
  {
    var item := Write(x, v);
    var t := Assigned(s, x, b, v);
    SameGraphOk(s, t);
    forall c: BlockId ensures b !in Preds(s, c) {
      assert EdgeOk(s, b, c);
      assert !HasSucc(s, b, c);
    }
    forall c: BlockId ensures BlockOk(t, c) {
      assert BlockOk(s, c);
      if c < |s.blocks| {
        LoggedReads(s, t, b, item, c);
        EmittedAppend(s.log[b], item);
        PlainPhis(s, t, c);
      }
    }
    forall y: Var, c: BlockId ensures VarsOk(t, y, c) {
      assert VarsOk(s, y, c);
      if c == b { CurAppend(s.log[b], item, y, Inval(s, y, b), |s.log[b]|); }
    }
    forall u: Value ensures ValueOk(t, u) { assert ValueOk(s, u); }
  }

  lemma ReadLoggedInv(s: Builder, x: Var, b: BlockId, v: Value)
    requires Inv(s) && b < |s.blocks| && Out(s, x, b) == Some(v)
    ensures Inv(Logged(s, b, Read(x, v)))
  {
    var item := Read(x, v);
    var t := Logged(s, b, item);
    SameGraphOk(s, t);
    assert VarsOk(s, x, b);
    forall c: BlockId ensures BlockOk(t, c) {
      assert BlockOk(s, c);
      if c < |s.blocks| {
        LoggedReads(s, t, b, item, c);
        EmittedAppend(s.log[b], item);
        PlainPhis(s, t, c);
      }
    }
    forall y: Var, c: BlockId ensures VarsOk(t, y, c) {
      assert VarsOk(s, y, c);
      if c == b { CurAppend(s.log[b], item, y, Inval(s, y, b), |s.log[b]|); }
    }
    forall u: Value ensures ValueOk(t, u) { assert ValueOk(s, u); }
  }

  lemma {:induction false} PhiCountAppend(insts: seq<Inst>, i: Inst)
    requires !i.Phi?
    ensures PhiCount(insts + [i]) == PhiCount(insts)
  {
    if insts != [] {
      assert (insts + [i])[1..] == insts[1..] + [i];
      PhiCountAppend(insts[1..], i);
    }
  }

  lemma EmitInsts(s: Builder, b: BlockId, i: Inst)
    requires b < |s.blocks| == |s.log| && InstsOk(s, b) && !i.Phi?
    requires Def(i).Some? ==> Def(i).value !in s.site
    ensures InstsOk(Emit(s, b, i), b)
  {
    var t := Emit(s, b, i);
    var insts := s.blocks[b].insts;
    PhiCountAppend(insts, i);
    EmittedAppend(s.log[b], Do(i));
    assert (insts + [i])[PhiCount(insts)..] == insts[PhiCount(insts)..] + [i];
    forall j, k | 0 <= j < k < |insts| + 1 && Def((insts + [i])[j]).Some?
      ensures Def((insts + [i])[j]) != Def((insts + [i])[k])
    {
      if k == |insts| { assert insts[j] in insts; }
    }
  }

  lemma EmitPhis(s: Builder, b: BlockId, i: Inst, c: BlockId)
    requires b < |s.blocks| == |s.log| && c < |s.blocks| && PhisOk(s, c) && !i.Phi?
    ensures PhisOk(Emit(s, b, i), c)
  {
    var t := Emit(s, b, i);
    forall j | j in t.blocks[c].insts && j.Phi? ensures PhiOk(t, c, j) {
      assert PhiOk(s, c, j);
      assert Preds(t, c) == Preds(s, c);
    }
  }

  lemma EmitInv(s: Builder, b: BlockId, i: Inst)
    requires Inv(s) && b < |s.blocks| && !i.Phi?
    requires Def(i).Some? ==> Def(i).value < s.next && Def(i).value !in s.site
    ensures Inv(Emit(s, b, i))
  {
    var t := Emit(s, b, i);
    SameGraphOk(s, t);
    forall c: BlockId ensures BlockOk(t, c) {
      assert BlockOk(s, c);
      if c < |s.blocks| {
        LoggedReads(s, t, b, Do(i), c);
        EmitPhis(s, b, i, c);
        if c == b { EmitInsts(s, b, i); }
      }
    }
    forall y: Var, c: BlockId ensures VarsOk(t, y, c) {
      assert VarsOk(s, y, c);
      if c == b { CurAppend(s.log[b], Do(i), y, Inval(s, y, b), |s.log[b]|); }
    }
    forall u: Value ensures ValueOk(t, u) {
      assert ValueOk(s, u);
      if u in s.owner {
        var c := s.owner[u].1;
        var j :| j in s.blocks[c].insts && j.Phi? && j.d == u;
        assert j in t.blocks[c].insts;
      }
    }
  }

  // ----- new phis -----

  /** t is s with a new empty phi for x at the head of b, waiting for b to be sealed or for its operands. */
  ghost predicate PhiAdded(s: Builder, x: Var, b: BlockId, t: Builder) {
    && b < |s.blocks| == |s.log| && b != 0 && Out(s, x, b) == None
    && t == WithPhi(s, x, b).(incomplete := t.incomplete, pending := t.pending)
    && if b in s.sealed then t.incomplete == s.incomplete && t.pending == s.pending + {s.next}
       else t.incomplete == SetIncomplete(s.incomplete, b, x, s.next) && t.pending == s.pending
  }

  lemma PhiAddedInsts(s: Builder, x: Var, b: BlockId, t: Builder)
    requires PhiAdded(s, x, b, t) && InstsOk(s, b) && s.next !in s.site
    ensures InstsOk(t, b)
  {
    var insts, insts' := s.blocks[b].insts, t.blocks[b].insts;
    assert insts'[1..] == insts;
    assert insts'[1 + PhiCount(insts)..] == insts[PhiCount(insts)..];
    forall i, j | 0 <= i < j < |insts'| && Def(insts'[i]).Some? ensures Def(insts'[i]) != Def(insts'[j]) {
      assert insts'[j] == insts[j - 1] && insts[j - 1] in insts;
    }
  }

  /** Blocks other than b keep their instructions and definitions. */
  lemma OtherInsts(s: Builder, t: Builder, v: Value, b: BlockId, c: BlockId)
    requires c < |s.blocks| == |s.log| && |t.blocks| == |t.log| == |s.blocks| && c != b && InstsOk(s, c)
    requires t.blocks[c].insts == s.blocks[c].insts && t.log[c] == s.log[c]
    requires t.site == s.site[v := b] && v !in s.site
    ensures InstsOk(t, c)
  {
  }

  lemma PhiAddedReads(s: Builder, x: Var, b: BlockId, v: Value, t: Builder, c: BlockId)
    requires b < |s.log| && c < |s.log| && ReadsOk(s, c) && VarOk(s, x, b) && Out(s, x, b) == None
    requires t.log == s.log && t.inval == s.inval[(x, b) := v]
    ensures ReadsOk(t, c)
  {
    CurUnassigned(s.log[b], x, Inval(s, x, b), |s.log[b]|, v);
    forall i | 0 <= i < |t.log[c]| && t.log[c][i].Read?
      ensures Cur(t.log[c], t.log[c][i].x, Inval(t, t.log[c][i].x, c), i) == Some(t.log[c][i].v)
    {
      assert Cur(s.log[c], s.log[c][i].x, Inval(s, s.log[c][i].x, c), i) == Some(s.log[c][i].v);
    }
  }

  lemma PhiAddedPhis(s: Builder, x: Var, b: BlockId, t: Builder, c: BlockId)
    requires PhiAdded(s, x, b, t) && c < |s.blocks| && PhisOk(s, c) && Inval(s, x, b) == None
    requires s.next !in s.owner
    ensures PhisOk(t, c)
  {
    forall i | i in t.blocks[c].insts && i.Phi? ensures PhiOk(t, c, i) {
      if c == b && i == t.blocks[b].insts[0] {
      } else {
        assert i in s.blocks[c].insts;
        assert PhiOk(s, c, i);
        assert Preds(t, c) == Preds(s, c);
      }
    }
  }

  lemma PhiAddedVars(s: Builder, x: Var, b: BlockId, t: Builder, y: Var, c: BlockId)
    requires PhiAdded(s, x, b, t) && VarsOk(s, x, b) && VarsOk(s, y, c) && s.next !in s.owner
    ensures VarsOk(t, y, c)
  {
    CurUnassigned(s.log[b], x, Inval(s, x, b), |s.log[b]|, s.next);
    assert Preds(t, c) == Preds(s, c);
  }

  lemma PhiAddedValue(s: Builder, x: Var, b: BlockId, t: Builder, u: Value)
    requires PhiAdded(s, x, b, t) && ValueOk(s, u) && Inval(s, x, b) == None && GraphOk(s)
    ensures ValueOk(t, u)
  {
    if u == s.next {
      assert t.blocks[b].insts[0] in t.blocks[b].insts;
    } else if u in s.owner {
      var c := s.owner[u].1;
      var j :| j in s.blocks[c].insts && j.Phi? && j.d == u;
      assert j in t.blocks[c].insts;
    }
  }

  lemma PhiAddedInv(s: Builder, x: Var, b: BlockId, t: Builder)
    requires Inv(s) && PhiAdded(s, x, b, t)
    ensures Inv(t)
  {
    SameGraphOk(s, t);
    assert VarsOk(s, x, b) && ValueOk(s, s.next);
    CurUnassigned(s.log[b], x, Inval(s, x, b), |s.log[b]|, s.next);
    forall c: BlockId ensures BlockOk(t, c) {
      assert BlockOk(s, c);
      if c < |s.blocks| {
        if c == b { PhiAddedInsts(s, x, b, t); } else { OtherInsts(s, t, s.next, b, c); }
        PhiAddedReads(s, x, b, s.next, t, c);
        PhiAddedPhis(s, x, b, t, c);
      }
    }
    forall y: Var, c: BlockId ensures VarsOk(t, y, c) {
      assert VarsOk(s, y, c);
      PhiAddedVars(s, x, b, t, y, c);
    }
    forall u: Value ensures ValueOk(t, u) {
      assert ValueOk(s, u);
      PhiAddedValue(s, x, b, t, u);
    }
  }

  // ----- single predecessor -----

  /** Recording what the only predecessor gave. */
  lemma MemoizedInv(s: Builder, x: Var, b: BlockId, v: Value)
    requires Inv(s) && b < |s.blocks| && b != 0 && b in s.sealed && |Preds(s, b)| == 1
    requires Out(s, x, Preds(s, b)[0]) == Some(v) && Out(s, x, b) == None
    ensures Inv(Memoized(s, x, b, v))
  {
    var t := Memoized(s, x, b, v);
    SameGraphOk(s, t);
    assert VarsOk(s, x, b);
    CurUnassigned(s.log[b], x, Inval(s, x, b), |s.log[b]|, v);
    forall c: BlockId ensures BlockOk(t, c) {
      assert BlockOk(s, c);
      if c < |s.blocks| {
        PhiAddedReads(s, x, b, v, t, c);
        PlainPhis(s, t, c);
      }
    }
    forall y: Var, c: BlockId ensures VarsOk(t, y, c) { assert VarsOk(s, y, c); }
    forall u: Value ensures ValueOk(t, u) { assert ValueOk(s, u); }
  }

  // ----- filling phis -----

  lemma {:induction false} FillInFacts(insts: seq<Inst>, v: Value, ops: map<BlockId, Value>)
    requires forall i, j | 0 <= i < j < |insts| && Def(insts[i]).Some? :: Def(insts[i]) != Def(insts[j])
    ensures var r := FillIn(insts, v, ops);
            && |r| == |insts| && PhiCount(r) == PhiCount(insts)
            && forall k | 0 <= k < |insts| :: r[k] == if insts[k].Phi? && insts[k].d == v then Phi(v, ops) else insts[k]
  {
    if insts != [] && !(insts[0].Phi? && insts[0].d == v) {
      FillInFacts(insts[1..], v, ops);
      assert FillIn(insts, v, ops)[1..] == FillIn(insts[1..], v, ops);
    } else if insts != [] {
      assert FillIn(insts, v, ops)[1..] == insts[1..];
      forall k | 0 < k < |insts| ensures !(insts[k].Phi? && insts[k].d == v) {
        assert Def(insts[0]) != Def(insts[k]);
      }
    }
  }

  /** Filling in operands changes no definition. */
  lemma FillInDefs(s: Builder, b: BlockId, v: Value, ops: map<BlockId, Value>)
    requires b < |s.blocks| == |s.log| && InstsOk(s, b)
    ensures var r := FillIn(s.blocks[b].insts, v, ops);
            |r| == |s.blocks[b].insts| && forall k | 0 <= k < |r| :: Def(r[k]) == Def(s.blocks[b].insts[k])
  {
    FillInFacts(s.blocks[b].insts, v, ops);
  }

  /** Filling in operands leaves the emitted instructions as they are. */
  lemma FillInTail(s: Builder, b: BlockId, v: Value, ops: map<BlockId, Value>)
    requires b < |s.blocks| == |s.log| && InstsOk(s, b)
    ensures var insts := s.blocks[b].insts;
            var r := FillIn(insts, v, ops);
            PhiCount(r) == PhiCount(insts) && r[PhiCount(r)..] == insts[PhiCount(insts)..]
  {
    var insts := s.blocks[b].insts;
    var r := FillIn(insts, v, ops);
    FillInFacts(insts, v, ops);
    var n := PhiCount(insts);
    forall k | n <= k < |insts| ensures r[k] == insts[k] { TailNotPhi(s, b, k); }
  }

  lemma TailNotPhi(s: Builder, b: BlockId, k: nat)
    requires b < |s.blocks| == |s.log| && InstsOk(s, b)
    requires PhiCount(s.blocks[b].insts) <= k < |s.blocks[b].insts|
    ensures !s.blocks[b].insts[k].Phi?
  {
    var insts := s.blocks[b].insts;
    assert insts[PhiCount(insts)..][k - PhiCount(insts)] == insts[k];
    assert insts[k] in Emitted(s.log[b]);
  }

  lemma FilledInsts(s: Builder, b: BlockId, v: Value, ops: map<BlockId, Value>)
    requires b < |s.blocks| == |s.log| && InstsOk(s, b)
    ensures InstsOk(WithOperands(s, b, v, ops), b)
  {
    var insts := s.blocks[b].insts;
    var r := FillIn(insts, v, ops);
    FillInTail(s, b, v, ops);
    FillInDefs(s, b, v, ops);
    forall i | i in r && Def(i).Some? ensures Def(i).value in s.site && s.site[Def(i).value] == b {
      var k :| 0 <= k < |r| && r[k] == i;
      assert insts[k] in insts;
    }
  }

  /** Phis other than the filled one. */
  lemma OtherPhi(s: Builder, b: BlockId, v: Value, ops: map<BlockId, Value>, c: BlockId, i: Inst)
    requires b < |s.blocks| && c < |s.blocks| && i.Phi? && PhiOk(s, c, i) && i.d != v
    ensures PhiOk(WithOperands(s, b, v, ops), c, i)
  {
    assert Preds(WithOperands(s, b, v, ops), c) == Preds(s, c);
  }

  lemma FilledPhi(s: Builder, b: BlockId, v: Value, ops: map<BlockId, Value>)
    requires b < |s.blocks| && PhiOk(s, b, Phi(v, map[])) && b in s.sealed && Filled(s, s.owner[v].0, b, ops)
    ensures PhiOk(WithOperands(s, b, v, ops), b, Phi(v, ops))
  {
    assert Preds(WithOperands(s, b, v, ops), b) == Preds(s, b);
  }

  lemma FilledPhis(s: Builder, b: BlockId, v: Value, ops: map<BlockId, Value>, c: BlockId)
    requires b < |s.blocks| && c < |s.blocks| == |s.log| && InstsOk(s, b) && PhisOk(s, c)
    requires v in s.owner && s.owner[v].1 == b && b in s.sealed && v in s.pending && Filled(s, s.owner[v].0, b, ops)
    ensures PhisOk(WithOperands(s, b, v, ops), c)
  {
    var t := WithOperands(s, b, v, ops);
    var insts := s.blocks[b].insts;
    FillInFacts(insts, v, ops);
    forall i | i in t.blocks[c].insts && i.Phi? ensures PhiOk(t, c, i) {
      if c == b {
        var k :| 0 <= k < |insts| && t.blocks[b].insts[k] == i;
        assert insts[k] in insts && insts[k].Phi? && PhiOk(s, b, insts[k]);
        if insts[k].d == v {
          assert insts[k] == Phi(v, map[]);
          FilledPhi(s, b, v, ops);
        } else {
          OtherPhi(s, b, v, ops, b, i);
        }
      } else {
        assert PhiOk(s, c, i);
        OtherPhi(s, b, v, ops, c, i);
      }
    }
  }

  lemma FilledValue(s: Builder, b: BlockId, v: Value, ops: map<BlockId, Value>, u: Value)
    requires b < |s.blocks| == |s.log| && InstsOk(s, b) && ValueOk(s, u)
    ensures ValueOk(WithOperands(s, b, v, ops), u)
  {
    var t := WithOperands(s, b, v, ops);
    FillInFacts(s.blocks[b].insts, v, ops);
    if u in s.owner {
      var c := s.owner[u].1;
      var k :| 0 <= k < |s.blocks[c].insts| && s.blocks[c].insts[k].Phi? && s.blocks[c].insts[k].d == u;
      assert t.blocks[c].insts[k] in t.blocks[c].insts;
    }
  }

  lemma WithOperandsInv(s: Builder, b: BlockId, v: Value, ops: map<BlockId, Value>)
    requires Inv(s) && v in s.pending && v in s.owner && s.owner[v].1 == b && b < |s.blocks|
    requires Filled(s, s.owner[v].0, b, ops)
    ensures Inv(WithOperands(s, b, v, ops))
  {
    var t := WithOperands(s, b, v, ops);
    SameGraphOk(s, t);
    assert BlockOk(s, b) && ValueOk(s, v);
    forall c: BlockId ensures BlockOk(t, c) {
      assert BlockOk(s, c);
      if c < |s.blocks| {
        if c == b { FilledInsts(s, b, v, ops); }
        FilledPhis(s, b, v, ops, c);
      }
    }
    forall y: Var, c: BlockId ensures VarsOk(t, y, c) { assert VarsOk(s, y, c); }
    forall u: Value ensures ValueOk(t, u) {
      assert ValueOk(s, u);
      FilledValue(s, b, v, ops, u);
    }
  }

  // ----- sealing -----

  lemma SealedPhi(s: Builder, b: BlockId, c: BlockId, i: Inst)
    requires b < |s.blocks| && c < |s.blocks| && i.Phi? && PhiOk(s, c, i)
    requires forall x: Var :: IncompleteOk(s, b, x)
    ensures PhiOk(SealedBlock(s, b), c, i)
  {
    var t := SealedBlock(s, b);
    assert Preds(t, c) == Preds(s, c);
    if i.d in t.pending && i.d !in s.pending {
      var x :| x in s.incomplete[b] && s.incomplete[b][x] == i.d;
      assert IncompleteOk(s, b, x);
    }
  }

  lemma SealedInv(s: Builder, b: BlockId)
    requires Inv(s) && b < |s.blocks|
    ensures Inv(SealedBlock(s, b))
  {
    var t := SealedBlock(s, b);
    SameGraphOk(s, t);
    forall x: Var ensures IncompleteOk(s, b, x) { assert VarsOk(s, x, b); }
    forall c: BlockId ensures BlockOk(t, c) {
      assert BlockOk(s, c);
      if c < |s.blocks| {
        forall i | i in t.blocks[c].insts && i.Phi? ensures PhiOk(t, c, i) {
          assert PhiOk(s, c, i);
          SealedPhi(s, b, c, i);
        }
      }
    }
    forall y: Var, c: BlockId ensures VarsOk(t, y, c) { assert VarsOk(s, y, c); }
    forall u: Value ensures ValueOk(t, u) {
      assert ValueOk(s, u);
      if u in t.pending && u !in s.pending {
        var x :| x in s.incomplete[b] && s.incomplete[b][x] == u;
        assert IncompleteOk(s, b, x);
      }
    }
  }
}
