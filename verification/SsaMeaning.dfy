/** What on-the-fly SSA construction guarantees once every block is sealed: on every path through the
    control-flow graph, a value returned by a read holds what the source variable holds there. */
module SsaMeaning {
  import opened Types
  import opened Ir
  import opened Ssa
  import opened SsaState

  /** Construction is over: every block sealed, no operands outstanding. */
  ghost predicate Complete(s: Builder) {
    Inv(s) && s.pending == {} && forall b: BlockId | b < |s.blocks| :: b in s.sealed
  }

  function Built(s: Builder, types: map<Value, Type>): Func {
    Func(s.blocks, 0, types)
  }

  // ----- the shape of the result -----

  /** No phi is left incomplete; a variable has at most one phi per block, at the head of the block,
      with one operand per predecessor: the variable's value at the end of that predecessor. */
  lemma CompleteStructure(s: Builder, b: BlockId)
    requires Complete(s) && b < |s.blocks|
    ensures forall x: Var :: !(b in s.incomplete && x in s.incomplete[b])
    ensures forall i | 0 <= i < |s.blocks[b].insts| :: s.blocks[b].insts[i].Phi? <==> i < PhiCount(s.blocks[b].insts)
    ensures forall i | i in s.blocks[b].insts && i.Phi? ::
              i.d in s.owner && s.owner[i.d].1 == b && Filled(s, s.owner[i.d].0, b, i.operands)
    ensures forall i, j | 0 <= i < j < |s.blocks[b].insts| && s.blocks[b].insts[i].Phi? && s.blocks[b].insts[j].Phi? ::
              s.owner[s.blocks[b].insts[i].d].0 != s.owner[s.blocks[b].insts[j].d].0
  {
    var insts := s.blocks[b].insts;
    assert BlockOk(s, b);
    forall x: Var ensures !(b in s.incomplete && x in s.incomplete[b]) { assert VarsOk(s, x, b); }
    forall i | i in insts && i.Phi?
      ensures i.d in s.owner && s.owner[i.d].1 == b && Filled(s, s.owner[i.d].0, b, i.operands)
    {
      assert PhiOk(s, b, i);
    }
    forall i, j | 0 <= i < j < |insts| && insts[i].Phi? && insts[j].Phi?
      ensures s.owner[insts[i].d].0 != s.owner[insts[j].d].0
    {
      assert insts[i] in insts && insts[j] in insts;
      assert PhiOk(s, b, insts[i]) && PhiOk(s, b, insts[j]);
    }
    PhiCountMeaning(insts);
    forall i | PhiCount(insts) <= i < |insts| ensures !insts[i].Phi? {
      assert insts[i] == insts[PhiCount(insts)..][i - PhiCount(insts)];
      assert insts[i] in Emitted(s.log[b]);
    }
  }

  lemma {:induction false} PhiCountMeaning(insts: seq<Inst>)
    ensures forall i | 0 <= i < PhiCount(insts) :: insts[i].Phi?
  {
    if insts != [] && insts[0].Phi? {
      PhiCountMeaning(insts[1..]);
      forall i | 0 <= i < PhiCount(insts) ensures insts[i].Phi? {
        if i > 0 { assert insts[i] == insts[1..][i - 1]; }
      }
    }
  }

  // ----- running the source and the SSA form side by side -----

  type Store = map<Var, Data>

  datatype Twin = Twin(env: Env, store: Store, trace: Trace)

  /** One item: instructions act on SSA values, assignments on source variables. An assignment of a
      value that has not been computed yet has no meaning. */
  function StepItem(I: Interp, types: map<Value, Type>, item: Item, t: Twin): Option<Twin> {
    match item
    case Do(i) =>
      if IsTerminator(i) then Some(t)
      else
        var (env, trace) := Exec(I, types, i, t.env, t.trace);
        Some(Twin(env, t.store, trace))
    case Write(x, v) => if v in t.env then Some(t.(store := t.store[x := t.env[v]])) else None
    case Read(_, _) => Some(t)
  }

  /** The first n items of a block. */
  function RunItems(I: Interp, types: map<Value, Type>, items: seq<Item>, n: nat, t: Twin): Option<Twin>
    requires n <= |items|
  {
    if n == 0 then Some(t)
    else
      var before := RunItems(I, types, items, n - 1, t);
      if before.Some? then StepItem(I, types, items[n - 1], before.value) else None
  }

  /** Entering a block: its phis are set along the edge. */
  function Enter(s: Builder, b: BlockId, pred: Option<BlockId>, t: Twin): Twin
    requires b < |s.blocks|
  {
    t.(env := t.env + PhiValues(s.blocks[b].insts, pred, t.env))
  }

  /** A path starts at a block without predecessors: the entry, or a block nothing leads to. */
  ghost predicate Path(s: Builder, p: seq<BlockId>) {
    && |p| > 0
    && (forall k | 0 <= k < |p| :: p[k] < |s.blocks|)
    && s.blocks[p[0]].preds == []
    && forall k: nat {:trigger LinkAt(s, p, k)} :: LinkAt(s, p, k)
  }

  predicate LinkAt(s: Builder, p: seq<BlockId>, k: nat) {
    0 < k < |p| ==> p[k] < |s.blocks| && p[k - 1] in s.blocks[p[k]].preds
  }

  lemma ExtendPath(s: Builder, p: seq<BlockId>, b: BlockId)
    requires Path(s, p) && b < |s.blocks| && p[|p| - 1] in s.blocks[b].preds
    ensures Path(s, p + [b]) && (p + [b])[..|p|] == p
  {
    forall k: nat ensures LinkAt(s, p + [b], k) { assert LinkAt(s, p, k); }
  }

  lemma PrefixPath(s: Builder, p: seq<BlockId>, k: nat)
    requires Path(s, p) && 0 < k <= |p|
    ensures Path(s, p[..k])
  {
    var q := p[..k];
    forall m: nat ensures LinkAt(s, q, m) { assert LinkAt(s, p, m); }
  }

  /** No variable is assigned at the start of the entry. A block nothing leads to may have been read
      before it was sealed; the phis made for that get no operand. */
  function StartStore(s: Builder, b: BlockId): Store {
    map k | k in s.inval && k.1 == b :: k.0 := Undef
  }

  /** The state on entry to the last block of a path. */
  function AtEntry(I: Interp, s: Builder, types: map<Value, Type>, env: Env, p: seq<BlockId>): Option<Twin>
    requires Path(s, p) && |s.log| == |s.blocks|
    decreases |p|, 0
  {
    var b := p[|p| - 1];
    if |p| == 1 then Some(Enter(s, b, None, Twin(env, StartStore(s, b), [])))
    else
      PrefixPath(s, p, |p| - 1);
      var before := AtEnd(I, s, types, env, p[..|p| - 1]);
      if before.Some? then Some(Enter(s, b, Some(p[|p| - 2]), before.value)) else None
  }

  /** The state at the end of the last block of a path. */
  function AtEnd(I: Interp, s: Builder, types: map<Value, Type>, env: Env, p: seq<BlockId>): Option<Twin>
    requires Path(s, p) && |s.log| == |s.blocks|
    decreases |p|, 1
  {
    var b := p[|p| - 1];
    var entry := AtEntry(I, s, types, env, p);
    if entry.Some? then RunItems(I, types, s.log[b], |s.log[b]|, entry.value) else None
  }

  // ----- the invariant of a run -----

  /** Every variable with a known value v holds what v holds. */
  ghost predicate Matches(s: Builder, b: BlockId, i: nat, t: Twin)
    requires b < |s.log| && i <= |s.log[b]|
  {
    forall x: Var :: MatchesAt(t, x, Cur(s.log[b], x, Inval(s, x, b), i))
  }

  predicate MatchesAt(t: Twin, x: Var, cur: Option<Value>) {
    cur.Some? ==> cur.value in t.env && x in t.store && t.store[x] == t.env[cur.value]
  }

  /** Values defined so far come from parameters or from the given blocks. */
  ghost predicate DefinedIn(s: Builder, env: Env, blocks: set<BlockId>) {
    forall v | v in env && v in s.site :: s.site[v] in blocks
  }

  /** No instruction of b overwrites a value a variable stands for at that point. */
  ghost predicate Stable(s: Builder, b: BlockId, n: nat)
    requires b < |s.log| && n <= |s.log[b]|
  {
    forall i, x: Var | 0 <= i < n && s.log[b][i].Do? && Def(s.log[b][i].inst).Some? ::
      Cur(s.log[b], x, Inval(s, x, b), i) != Def(s.log[b][i].inst)
  }

  /** No phi of b overwrites what its only predecessor hands over. */
  ghost predicate StableEntry(s: Builder, b: BlockId)
    requires b < |s.blocks|
  {
    forall x: Var | (x, b) in s.inval && !Owned(s, s.inval[(x, b)], x, b) ::
      forall i | i in s.blocks[b].insts && i.Phi? :: i.d != s.inval[(x, b)]
  }

  function Visited(p: seq<BlockId>): set<BlockId> {
    set b | b in p
  }

  /** What holds on entry to the last block of p, and of all earlier visits. */
  ghost predicate EntryGood(s: Builder, p: seq<BlockId>, t: Twin)
    requires Path(s, p) && |s.log| == |s.blocks|
  {
    && Matches(s, p[|p| - 1], 0, t)
    && DefinedIn(s, t.env, Visited(p))
    && (forall b | b in p :: StableEntry(s, b))
    && (forall b | b in p[..|p| - 1] :: Stable(s, b, |s.log[b]|))
    && (p[|p| - 1] !in p[..|p| - 1] ==> FreshBody(s, p[|p| - 1], 0, t.env))
  }

  /** On the first visit, what items i onward define is not there yet. */
  ghost predicate FreshBody(s: Builder, b: BlockId, i: nat, env: Env)
    requires b < |s.log|
  {
    forall k | i <= k < |s.log[b]| && s.log[b][k].Do? && Def(s.log[b][k].inst).Some? ::
      Def(s.log[b][k].inst).value !in env
  }

  ghost predicate EndGood(s: Builder, p: seq<BlockId>, t: Twin)
    requires Path(s, p) && |s.log| == |s.blocks|
  {
    var b := p[|p| - 1];
    && Matches(s, b, |s.log[b]|, t)
    && DefinedIn(s, t.env, Visited(p))
    && (forall c | c in p :: StableEntry(s, c) && Stable(s, c, |s.log[c]|))
  }

  /** Parameters are values no instruction defines. */
  ghost predicate Parameters(s: Builder, env: Env) {
    forall v | v in env :: v !in s.site
  }

  // ----- facts about the emitted instructions -----

  lemma {:induction false} EmittedMember(items: seq<Item>, k: nat)
    requires k < |items| && items[k].Do?
    ensures items[k].inst in Emitted(items)
  {
    if k < |items| - 1 {
      EmittedMember(items[..|items| - 1], k);
    }
  }

  /** Different items define different values. */
  lemma {:induction false} EmittedPositions(items: seq<Item>, j: nat, k: nat) returns (m: nat, n: nat)
    requires j < k < |items| && items[j].Do? && items[k].Do?
    ensures m < n < |Emitted(items)| && Emitted(items)[m] == items[j].inst && Emitted(items)[n] == items[k].inst
  {
    var init := items[..|items| - 1];
    if k == |items| - 1 {
      EmittedMember(init, j);
      m :| 0 <= m < |Emitted(init)| && Emitted(init)[m] == items[j].inst;
      n := |Emitted(init)|;
    } else {
      m, n := EmittedPositions(init, j, k);
    }
  }

  lemma ItemDefined(s: Builder, b: BlockId, k: nat)
    requires Inv(s) && b < |s.blocks| && k < |s.log[b]| && s.log[b][k].Do?
    ensures !s.log[b][k].inst.Phi? && s.log[b][k].inst in s.blocks[b].insts
    ensures Def(s.log[b][k].inst).Some? ==>
              Def(s.log[b][k].inst).value in s.site && s.site[Def(s.log[b][k].inst).value] == b
  {
    assert BlockOk(s, b);
    EmittedMember(s.log[b], k);
    var insts := s.blocks[b].insts;
    var i := s.log[b][k].inst;
    assert i in insts[PhiCount(insts)..];
  }

  lemma ItemsDistinct(s: Builder, b: BlockId, j: nat, k: nat)
    requires Inv(s) && b < |s.blocks| && j < k < |s.log[b]| && s.log[b][j].Do? && s.log[b][k].Do?
    requires Def(s.log[b][j].inst).Some?
    ensures Def(s.log[b][j].inst) != Def(s.log[b][k].inst)
  {
    assert BlockOk(s, b);
    var m, n := EmittedPositions(s.log[b], j, k);
    var insts := s.blocks[b].insts;
    var c := PhiCount(insts);
    assert insts[c..][m] == insts[c + m] && insts[c..][n] == insts[c + n];
  }

  lemma PhiNotItem(s: Builder, b: BlockId, i: Inst, k: nat)
    requires Inv(s) && b < |s.blocks| && i in s.blocks[b].insts && i.Phi? && k < |s.log[b]| && s.log[b][k].Do?
    ensures Def(s.log[b][k].inst) != Some(i.d)
  {
    assert BlockOk(s, b);
    ItemDefined(s, b, k);
    var insts := s.blocks[b].insts;
    var m :| 0 <= m < |insts| && insts[m] == i;
    var n :| 0 <= n < |insts| && insts[n] == s.log[b][k].inst;
    assert Def(insts[m]).Some?;
    if m < n { assert Def(insts[m]) != Def(insts[n]); }
    if n < m && Def(insts[n]).Some? { assert Def(insts[n]) != Def(insts[m]); }
  }

  // ----- one item -----

  lemma ItemKeepsMatch(I: Interp, types: map<Value, Type>, s: Builder, b: BlockId, i: nat, t: Twin)
    requires b < |s.log| && i < |s.log[b]| && Matches(s, b, i, t)
    requires s.log[b][i].Do? ==> !s.log[b][i].inst.Phi?
    requires forall x: Var :: s.log[b][i].Do? && Def(s.log[b][i].inst).Some? ==>
               Cur(s.log[b], x, Inval(s, x, b), i) != Def(s.log[b][i].inst)
    requires StepItem(I, types, s.log[b][i], t).Some?
    ensures Matches(s, b, i + 1, StepItem(I, types, s.log[b][i], t).value)
  {
    var t' := StepItem(I, types, s.log[b][i], t).value;
    forall x: Var ensures MatchesAt(t', x, Cur(s.log[b], x, Inval(s, x, b), i + 1)) {
      assert MatchesAt(t, x, Cur(s.log[b], x, Inval(s, x, b), i));
    }
  }

  lemma ItemDomain(I: Interp, types: map<Value, Type>, item: Item, t: Twin, v: Value)
    requires StepItem(I, types, item, t).Some? && item.Do? ==> !item.inst.Phi?
    requires StepItem(I, types, item, t).Some?
    ensures v in StepItem(I, types, item, t).value.env ==> v in t.env || (item.Do? && Def(item.inst) == Some(v))
  {
  }

  // ----- a whole block -----

  /** Running the items of a block: on a first visit values are fresh, so nothing is overwritten; on a
      later visit the first one has shown the block stable. */
  lemma {:induction false} ItemsGood(I: Interp, types: map<Value, Type>, s: Builder, p: seq<BlockId>, t: Twin, n: nat)
    requires Inv(s) && Path(s, p) && EntryGood(s, p, t)
    requires n <= |s.log[p[|p| - 1]]| && RunItems(I, types, s.log[p[|p| - 1]], n, t).Some?
    ensures var b := p[|p| - 1];
            var t' := RunItems(I, types, s.log[b], n, t).value;
            && Matches(s, b, n, t') && DefinedIn(s, t'.env, Visited(p)) && Stable(s, b, n)
            && (b !in p[..|p| - 1] ==> FreshBody(s, b, n, t'.env))
    decreases n
  {
    var b := p[|p| - 1];
    if n > 0 {
      ItemsGood(I, types, s, p, t, n - 1);
      var before := RunItems(I, types, s.log[b], n - 1, t).value;
      var item := s.log[b][n - 1];
      if item.Do? { ItemDefined(s, b, n - 1); }
      forall x: Var
        ensures item.Do? && Def(item.inst).Some? ==> Cur(s.log[b], x, Inval(s, x, b), n - 1) != Def(item.inst)
      {
        NotOverwritten(s, p, before, n - 1, x);
      }
      ItemKeepsMatch(I, types, s, b, n - 1, before);
      var t' := RunItems(I, types, s.log[b], n, t).value;
      forall v | v in t'.env && v in s.site ensures s.site[v] in Visited(p) {
        ItemDomain(I, types, item, before, v);
      }
      if b !in p[..|p| - 1] {
        forall k | n <= k < |s.log[b]| && s.log[b][k].Do? && Def(s.log[b][k].inst).Some?
          ensures Def(s.log[b][k].inst).value !in t'.env
        {
          ItemDomain(I, types, item, before, Def(s.log[b][k].inst).value);
          if item.Do? && Def(item.inst).Some? { ItemsDistinct(s, b, n - 1, k); }
        }
      }
    }
  }

  lemma NotOverwritten(s: Builder, p: seq<BlockId>, t: Twin, i: nat, x: Var)
    requires Inv(s) && Path(s, p) && i < |s.log[p[|p| - 1]]| && Matches(s, p[|p| - 1], i, t)
    requires forall b | b in p[..|p| - 1] :: Stable(s, b, |s.log[b]|)
    requires p[|p| - 1] !in p[..|p| - 1] ==> FreshBody(s, p[|p| - 1], i, t.env)
    ensures var item := s.log[p[|p| - 1]][i];
            item.Do? && Def(item.inst).Some? ==> Cur(s.log[p[|p| - 1]], x, Inval(s, x, p[|p| - 1]), i) != Def(item.inst)
  {
    var b := p[|p| - 1];
    var cur := Cur(s.log[b], x, Inval(s, x, b), i);
    assert MatchesAt(t, x, cur);
    if b in p[..|p| - 1] {
      assert Stable(s, b, |s.log[b]|);
    }
  }

  // ----- entering a block -----

  lemma PhiValueOf(insts: seq<Inst>, k: nat, pred: Option<BlockId>, env: Env)
    requires k < |insts| && insts[k].Phi?
    requires forall i, j | 0 <= i < j < |insts| && Def(insts[i]).Some? :: Def(insts[i]) != Def(insts[j])
    ensures insts[k].d in PhiValues(insts, pred, env)
    ensures PhiValues(insts, pred, env)[insts[k].d] == PhiInput(insts[k], pred, env)
  {
    forall m | 0 <= m < |insts| && insts[m].Phi? && insts[m].d == insts[k].d ensures m == k {
      assert Def(insts[m]) == Def(insts[k]);
    }
    PhiValueAt(insts, k, pred, env);
  }

  /** The value at the start of the next block holds what the variable holds. */
  lemma EntryMatches(s: Builder, p: seq<BlockId>, b: BlockId, t: Twin, x: Var)
    requires Complete(s) && b < |s.blocks| && Path(s, p + [b]) && Path(s, p) && EndGood(s, p, t) && StableEntry(s, b)
    ensures MatchesAt(Enter(s, b, Some(p[|p| - 1]), t), x, Inval(s, x, b))
  {
    var last := p[|p| - 1];
    assert (p + [b])[|p| - 1] == last && (p + [b])[|p|] == b;
    assert LinkAt(s, p + [b], |p|) && last in s.blocks[b].preds;
    if (x, b) in s.inval {
      var v := s.inval[(x, b)];
      assert VarsOk(s, x, b) && VarsOk(s, x, last) && BlockOk(s, b);
      assert MatchesAt(t, x, Cur(s.log[last], x, Inval(s, x, last), |s.log[last]|));
      var insts := s.blocks[b].insts;
      if Owned(s, v, x, b) {
        assert ValueOk(s, v);
        var i :| i in insts && i.Phi? && i.d == v;
        assert PhiOk(s, b, i);
        assert last in i.operands;
        var k :| 0 <= k < |insts| && insts[k] == i;
        PhiValueOf(insts, k, Some(last), t.env);
      } else {
        assert Preds(s, b) == [last];
        PhiValuesDomain(insts, Some(last), t.env, v);
      }
    }
  }

  /** On the first visit to b nothing defined in b is in the environment yet, so no phi of b can be
      what the predecessor hands over. */
  lemma FirstVisitStable(s: Builder, p: seq<BlockId>, b: BlockId, t: Twin)
    requires Complete(s) && b < |s.blocks| && Path(s, p + [b]) && Path(s, p) && EndGood(s, p, t) && b !in p
    ensures StableEntry(s, b)
  {
    var last := p[|p| - 1];
    assert (p + [b])[|p| - 1] == last && (p + [b])[|p|] == b;
    assert LinkAt(s, p + [b], |p|) && last in s.blocks[b].preds && BlockOk(s, b);
    forall x: Var, i | (x, b) in s.inval && !Owned(s, s.inval[(x, b)], x, b) && i in s.blocks[b].insts && i.Phi?
      ensures i.d != s.inval[(x, b)]
    {
      assert VarsOk(s, x, b) && VarsOk(s, x, last);
      assert Preds(s, b) == [last];
      assert MatchesAt(t, x, Cur(s.log[last], x, Inval(s, x, last), |s.log[last]|));
      assert Def(i) == Some(i.d) && s.site[i.d] == b;
    }
  }

  lemma FirstVisitFresh(s: Builder, p: seq<BlockId>, b: BlockId, pred: Option<BlockId>, t: Twin)
    requires Inv(s) && b < |s.blocks| && b !in p && DefinedIn(s, t.env, Visited(p))
    ensures FreshBody(s, b, 0, Enter(s, b, pred, t).env)
  {
    forall k | 0 <= k < |s.log[b]| && s.log[b][k].Do? && Def(s.log[b][k].inst).Some?
      ensures Def(s.log[b][k].inst).value !in Enter(s, b, pred, t).env
    {
      var d := Def(s.log[b][k].inst).value;
      ItemDefined(s, b, k);
      PhiValuesDomain(s.blocks[b].insts, pred, t.env, d);
      if d in PhiValues(s.blocks[b].insts, pred, t.env) {
        var m :| 0 <= m < |s.blocks[b].insts| && s.blocks[b].insts[m].Phi? && s.blocks[b].insts[m].d == d;
        assert s.blocks[b].insts[m] in s.blocks[b].insts;
        PhiNotItem(s, b, s.blocks[b].insts[m], k);
      }
    }
  }

  lemma EnterDefined(s: Builder, p: seq<BlockId>, b: BlockId, pred: Option<BlockId>, t: Twin)
    requires Inv(s) && b < |s.blocks| && DefinedIn(s, t.env, Visited(p))
    ensures DefinedIn(s, Enter(s, b, pred, t).env, Visited(p + [b]))
  {
    assert BlockOk(s, b);
    var insts := s.blocks[b].insts;
    forall v | v in Enter(s, b, pred, t).env && v in s.site ensures s.site[v] in Visited(p + [b]) {
      PhiValuesDomain(insts, pred, t.env, v);
      if v in PhiValues(insts, pred, t.env) {
        var m :| 0 <= m < |insts| && insts[m].Phi? && insts[m].d == v;
        assert insts[m] in insts && Def(insts[m]) == Some(v);
        assert b in p + [b];
      } else {
        assert s.site[v] in p;
      }
    }
  }

  lemma EnterGood(s: Builder, p: seq<BlockId>, b: BlockId, t: Twin)
    requires Complete(s) && b < |s.blocks| && Path(s, p + [b]) && Path(s, p) && EndGood(s, p, t)
    ensures EntryGood(s, p + [b], Enter(s, b, Some(p[|p| - 1]), t))
  {
    var q := p + [b];
    var t' := Enter(s, b, Some(p[|p| - 1]), t);
    assert q[..|q| - 1] == p && q[|q| - 1] == b;
    if b !in p {
      FirstVisitStable(s, p, b, t);
      FirstVisitFresh(s, p, b, Some(p[|p| - 1]), t);
    }
    EnterDefined(s, p, b, Some(p[|p| - 1]), t);
    forall x: Var ensures MatchesAt(t', x, Cur(s.log[b], x, Inval(s, x, b), 0)) {
      EntryMatches(s, p, b, t, x);
    }
  }

  /** Before the first block the only known values are phis without operands. */
  lemma StartMatches(s: Builder, b: BlockId, env: Env, x: Var)
    requires Complete(s) && b < |s.blocks| && s.blocks[b].preds == []
    ensures MatchesAt(Enter(s, b, None, Twin(env, StartStore(s, b), [])), x, Inval(s, x, b))
  {
    if (x, b) in s.inval {
      var v := s.inval[(x, b)];
      assert VarsOk(s, x, b) && BlockOk(s, b) && ValueOk(s, v);
      var insts := s.blocks[b].insts;
      var i :| i in insts && i.Phi? && i.d == v;
      var k :| 0 <= k < |insts| && insts[k] == i;
      PhiValueOf(insts, k, None, env);
    }
  }

  lemma StartGood(s: Builder, b: BlockId, env: Env)
    requires Complete(s) && Parameters(s, env) && b < |s.blocks| && s.blocks[b].preds == []
    ensures Path(s, [b]) && EntryGood(s, [b], Enter(s, b, None, Twin(env, StartStore(s, b), [])))
  {
    var t := Twin(env, StartStore(s, b), []);
    assert DefinedIn(s, env, Visited([]));
    EnterDefined(s, [], b, None, t);
    FirstVisitFresh(s, [], b, None, t);
    assert [] + [b] == [b];
    forall x: Var ensures MatchesAt(Enter(s, b, None, t), x, Cur(s.log[b], x, Inval(s, x, b), 0)) {
      StartMatches(s, b, env, x);
    }
    assert StableEntry(s, b) by {
      forall x: Var | (x, b) in s.inval ensures Owned(s, s.inval[(x, b)], x, b) { assert VarsOk(s, x, b); }
    }
    assert [b][..0] == [];
  }

  lemma {:induction false} PathGood(I: Interp, s: Builder, types: map<Value, Type>, env: Env, p: seq<BlockId>)
    requires Complete(s) && Parameters(s, env) && Path(s, p)
    ensures AtEntry(I, s, types, env, p).Some? ==> EntryGood(s, p, AtEntry(I, s, types, env, p).value)
    decreases |p|
  {
    if |p| == 1 {
      assert p == [p[0]];
      StartGood(s, p[0], env);
    } else if AtEntry(I, s, types, env, p).Some? {
      var q, b := p[..|p| - 1], p[|p| - 1];
      assert p == q + [b] && q[|q| - 1] == p[|p| - 2];
      PrefixPath(s, p, |p| - 1);
      PathGood(I, s, types, env, q);
      assert AtEnd(I, s, types, env, q).Some?;
      assert AtEntry(I, s, types, env, q).Some?;
      BlockGood(I, s, types, q, AtEntry(I, s, types, env, q).value);
      EnterGood(s, q, b, AtEnd(I, s, types, env, q).value);
    }
  }

  lemma BlockGood(I: Interp, s: Builder, types: map<Value, Type>, p: seq<BlockId>, t: Twin)
    requires Complete(s) && Path(s, p) && EntryGood(s, p, t)
    requires RunItems(I, types, s.log[p[|p| - 1]], |s.log[p[|p| - 1]]|, t).Some?
    ensures EndGood(s, p, RunItems(I, types, s.log[p[|p| - 1]], |s.log[p[|p| - 1]]|, t).value)
  {
    var b := p[|p| - 1];
    ItemsGood(I, types, s, p, t, |s.log[b]|);
    forall c | c in p ensures Stable(s, c, |s.log[c]|) {
      if c != b {
        assert p == p[..|p| - 1] + [b];
        assert c in p[..|p| - 1];
      }
    }
  }

  /** SSA construction is correct: on every path, and for every item of its last block that reads a
      variable, the variable has been assigned and the value returned by that read holds its contents. */
  lemma ReadsAreRight(I: Interp, s: Builder, types: map<Value, Type>, env: Env, p: seq<BlockId>, i: nat, x: Var,
                      v: Value)
    requires Complete(s) && Parameters(s, env) && Path(s, p)
    requires i < |s.log[p[|p| - 1]]| && s.log[p[|p| - 1]][i] == Read(x, v)
    requires AtEntry(I, s, types, env, p).Some?
    requires RunItems(I, types, s.log[p[|p| - 1]], i, AtEntry(I, s, types, env, p).value).Some?
    ensures var t := RunItems(I, types, s.log[p[|p| - 1]], i, AtEntry(I, s, types, env, p).value).value;
            v in t.env && x in t.store && t.env[v] == t.store[x]
  {
    var b := p[|p| - 1];
    PathGood(I, s, types, env, p);
    ItemsGood(I, types, s, p, AtEntry(I, s, types, env, p).value, i);
    assert BlockOk(s, b);
    var t := RunItems(I, types, s.log[b], i, AtEntry(I, s, types, env, p).value).value;
    assert MatchesAt(t, x, Cur(s.log[b], x, Inval(s, x, b), i));
  }
}
