/** The function an SSA construction leaves behind. The front end is asked for one discipline, stated on
    what it did in each block; well-formed SSA follows. */
module SsaOutput {
  import opened Types
  import opened Ir
  import opened Ssa
  import opened SsaState
  import SsaSteps
  import opened SsaMeaning

  lemma BuiltFind(s: Builder, types: map<Value, Type>, b: BlockId)
    requires GraphOk(s)
    ensures var f := Built(s, types);
            if b < |s.blocks| then Find(f.blocks, b) == Some(s.blocks[b]) else Find(f.blocks, b) == None
  {
    if b < |s.blocks| {
      assert s.blocks[b].id == b;
      FindUnique(s.blocks, b);
    }
  }

  lemma BuiltEdge(s: Builder, types: map<Value, Type>, p: BlockId, b: BlockId)
    requires GraphOk(s)
    ensures Edge(Built(s, types), p, b) <==> b < |s.blocks| && p < |s.blocks| && p in s.blocks[b].preds
    ensures Edge(Built(s, types), p, b) <==> HasSucc(s, p, b)
  {
    BuiltFind(s, types, p);
    assert EdgeOk(s, p, b);
    if HasPred(s, b, p) { assert HasSucc(s, p, b); }
  }

  lemma BuiltPath(s: Builder, types: map<Value, Type>, p: seq<BlockId>)
    requires GraphOk(s)
    ensures IsPath(Built(s, types), p) <==> Path(s, p) && p[0] == 0
  {
    var f := Built(s, types);
    forall k: nat | 0 < k < |p| ensures Edge(f, p[k - 1], p[k]) <==> p[k - 1] < |s.blocks| && LinkAt(s, p, k) {
      BuiltEdge(s, types, p[k - 1], p[k]);
    }
    if IsPath(f, p) {
      forall k: nat | k < |p| ensures p[k] < |s.blocks| && LinkAt(s, p, k) { assert EdgeAt(f, p, k); }
    }
    if Path(s, p) && p[0] == 0 {
      forall k: nat ensures EdgeAt(f, p, k) { assert LinkAt(s, p, k); }
    }
  }

  lemma BuiltInst(s: Builder, types: map<Value, Type>, b: BlockId, i: nat)
    requires Inv(s)
    ensures HasInst(Built(s, types), b, i) <==> b < |s.blocks| && i < |s.blocks[b].insts|
    ensures HasInst(Built(s, types), b, i) ==> InstOf(Built(s, types), b, i) == s.blocks[b].insts[i]
    ensures HasInst(Built(s, types), b, i) && Def(s.blocks[b].insts[i]).Some? ==>
              Def(s.blocks[b].insts[i]).value in s.site && s.site[Def(s.blocks[b].insts[i]).value] == b
  {
    BuiltFind(s, types, b);
    if b < |s.blocks| && i < |s.blocks[b].insts| {
      assert BlockOk(s, b);
      assert s.blocks[b].insts[i] in s.blocks[b].insts;
    }
  }

  lemma BuiltUniqueDefs(s: Builder, types: map<Value, Type>)
    requires Inv(s)
    ensures UniqueDefs(Built(s, types))
  {
    var f := Built(s, types);
    forall v: Value, a: BlockId, i: nat, b: BlockId, j: nat | DefAt(f, a, i, v) && DefAt(f, b, j, v)
      ensures a == b && i == j
    {
      BuiltInst(s, types, a, i);
      BuiltInst(s, types, b, j);
      assert BlockOk(s, a);
    }
  }

  // ----- positions of items -----

  /** After n items, what is left of the block is the emitted list from `done` on. */
  lemma {:induction false} EmittedSplit(items: seq<Item>, n: nat)
    requires n < |items|
    ensures Emitted(items[..n]) <= Emitted(items)
    ensures items[n].Do? ==>
            |Emitted(items[..n])| < |Emitted(items)| && Emitted(items)[|Emitted(items[..n])|] == items[n].inst
    ensures items[n].Do? ==> Emitted(items[..n + 1]) == Emitted(items[..n]) + [items[n].inst]
    ensures !items[n].Do? ==> Emitted(items[..n + 1]) == Emitted(items[..n])
    decreases |items|
  {
    assert items[..n + 1][..n] == items[..n];
    if n == |items| - 1 {
      assert items[..n + 1] == items;
    } else {
      var init := items[..|items| - 1];
      assert init[..n] == items[..n];
      EmittedSplit(init, n);
    }
  }

  lemma {:induction false} EmittedGrows(items: seq<Item>, k: nat, m: nat)
    requires k <= m <= |items|
    ensures |Emitted(items[..k])| <= |Emitted(items[..m])| <= |Emitted(items)|
    decreases m
  {
    if k < m {
      EmittedSplit(items, m - 1);
      EmittedGrows(items, k, m - 1);
      assert items[..m][..m - 1] == items[..m - 1];
      EmittedUpTo(items, m);
    } else {
      EmittedUpTo(items, m);
    }
  }

  lemma EmittedUpTo(items: seq<Item>, m: nat)
    requires m <= |items|
    ensures |Emitted(items[..m])| <= |Emitted(items)|
  {
    if m < |items| { EmittedSplit(items, m); } else { assert items[..m] == items; }
  }

  /** Where the instruction of item k stands, or would stand, in block b. */
  function Position(s: Builder, b: BlockId, k: nat): nat
    requires b < |s.blocks| == |s.log| && k <= |s.log[b]|
  {
    PhiCount(s.blocks[b].insts) + |Emitted(s.log[b][..k])|
  }

  lemma ItemAt(s: Builder, b: BlockId, k: nat)
    requires Inv(s) && b < |s.blocks| && k < |s.log[b]| && s.log[b][k].Do?
    ensures Position(s, b, k) < |s.blocks[b].insts| && s.blocks[b].insts[Position(s, b, k)] == s.log[b][k].inst
  {
    assert BlockOk(s, b);
    EmittedSplit(s.log[b], k);
    var insts := s.blocks[b].insts;
    var m := |Emitted(s.log[b][..k])|;
    assert insts[PhiCount(insts)..][m] == insts[PhiCount(insts) + m];
  }

  lemma PositionOrdered(s: Builder, b: BlockId, k: nat, m: nat)
    requires Inv(s) && b < |s.blocks| && k <= m <= |s.log[b]|
    ensures Position(s, b, k) <= Position(s, b, m)
    ensures k < m && s.log[b][k].Do? ==> Position(s, b, k) < Position(s, b, m)
  {
    EmittedGrows(s.log[b], k, m);
    if k < m {
      EmittedSplit(s.log[b], k);
      EmittedGrows(s.log[b], k + 1, m);
    }
  }

  lemma {:induction false} ItemOf(items: seq<Item>, n: nat) returns (k: nat)
    requires n < |Emitted(items)|
    ensures k < |items| && items[k].Do? && items[k].inst == Emitted(items)[n] && |Emitted(items[..k])| == n
  {
    var last := |items| - 1;
    var init := items[..last];
    if n < |Emitted(init)| {
      k := ItemOf(init, n);
      assert init[..k] == items[..k];
    } else {
      k := last;
    }
  }

  /** An instruction after the phis is the instruction of an item. */
  lemma InstItem(s: Builder, b: BlockId, i: nat) returns (k: nat)
    requires Inv(s) && b < |s.blocks| && PhiCount(s.blocks[b].insts) <= i < |s.blocks[b].insts|
    ensures k < |s.log[b]| && s.log[b][k].Do? && s.log[b][k].inst == s.blocks[b].insts[i] && Position(s, b, k) == i
  {
    assert BlockOk(s, b);
    var insts := s.blocks[b].insts;
    assert insts[PhiCount(insts)..][i - PhiCount(insts)] == insts[i];
    k := ItemOf(s.log[b], i - PhiCount(insts));
  }

  lemma PhisLead(s: Builder, b: BlockId, i: nat)
    requires Inv(s) && b < |s.blocks| && i < |s.blocks[b].insts|
    ensures s.blocks[b].insts[i].Phi? <==> i < PhiCount(s.blocks[b].insts)
  {
    var insts := s.blocks[b].insts;
    PhiCountMeaning(insts);
    if i >= PhiCount(insts) {
      var k := InstItem(s, b, i);
      ItemDefined(s, b, k);
    }
  }

  // ----- ways to a block -----

  ghost predicate FromEntry(s: Builder, b: BlockId) {
    exists p :: Path(s, p) && p[0] == 0 && p[|p| - 1] == b
  }

  /** A way to a block: a path from the entry or, where the entry does not lead, from any block without
      predecessors. */
  ghost predicate Way(s: Builder, p: seq<BlockId>) {
    Path(s, p) && (p[0] == 0 || !FromEntry(s, p[|p| - 1]))
  }

  /** Every way to b passes a before its end. */
  ghost predicate Dominates(s: Builder, a: BlockId, b: BlockId) {
    forall p | Way(s, p) && p[|p| - 1] == b :: a in p[..|p| - 1]
  }

  lemma {:induction false} EntryLeadsOn(s: Builder, p: seq<BlockId>, k: nat)
    requires Path(s, p) && k < |p| && FromEntry(s, p[k])
    ensures FromEntry(s, p[|p| - 1])
    decreases |p| - k
  {
    if k < |p| - 1 {
      var q :| Path(s, q) && q[0] == 0 && q[|q| - 1] == p[k];
      var r := q + [p[k + 1]];
      assert LinkAt(s, p, k + 1);
      ExtendPath(s, q, p[k + 1]);
      assert Path(s, r) && r[0] == 0 && r[|r| - 1] == p[k + 1];
      EntryLeadsOn(s, p, k + 1);
    }
  }

  lemma WayPrefix(s: Builder, p: seq<BlockId>, k: nat)
    requires Way(s, p) && k < |p|
    ensures Way(s, p[..k + 1]) && p[..k + 1][k] == p[k]
  {
    PrefixPath(s, p, k + 1);
    if p[0] != 0 && FromEntry(s, p[k]) { EntryLeadsOn(s, p, k); }
  }

  lemma {:induction false} AnchoredPath(s: Builder, b: BlockId, n: nat) returns (p: seq<BlockId>)
    requires GraphOk(s) && Anchored(s, b, n)
    ensures Path(s, p) && p[|p| - 1] == b
    decreases n
  {
    if n == 0 {
      p := [b];
    } else {
      var c :| c in Preds(s, b) && Anchored(s, c, n - 1);
      var q := AnchoredPath(s, c, n - 1);
      ExtendPath(s, q, b);
      p := q + [b];
    }
  }

  /** There is a way to every block of a finished graph, and one that reaches it only at its end. */
  lemma SomeWay(s: Builder, b: BlockId) returns (p: seq<BlockId>)
    requires Complete(s) && b < |s.blocks|
    ensures Way(s, p) && p[|p| - 1] == b && b !in p[..|p| - 1]
  {
    if FromEntry(s, b) {
      p :| Path(s, p) && p[0] == 0 && p[|p| - 1] == b;
    } else {
      SsaSteps.EnteredAnchored(s, b);
      var n: nat :| Anchored(s, b, n);
      p := AnchoredPath(s, b, n);
    }
    var k := FirstAt(p, b);
    WayPrefix(s, p, k);
    p := p[..k + 1];
  }

  lemma FirstAt(p: seq<BlockId>, b: BlockId) returns (k: nat)
    requires b in p
    ensures k < |p| && p[k] == b && b !in p[..k]
  {
    k := 0;
    while p[k] != b
      invariant k < |p| && b !in p[..k]
      decreases |p| - k
    {
      assert p[..k + 1] == p[..k] + [p[k]];
      assert k + 1 < |p| by { assert p == p[..k] + [p[k]] + p[k + 1..]; }
      k := k + 1;
    }
  }

  lemma DominatesStrictly(s: Builder, types: map<Value, Type>, a: BlockId, b: BlockId)
    requires GraphOk(s) && Dominates(s, a, b)
    ensures StrictDom(Built(s, types), a, b)
  {
    forall p | IsPath(Built(s, types), p) && Last(p) == b ensures a in p[..|p| - 1] { BuiltPath(s, types, p); }
  }

  // ----- the discipline of the front end -----

  ghost predicate DefinedAt(s: Builder, a: BlockId, j: nat, v: Value) {
    a < |s.blocks| && j < |s.blocks[a].insts| && Def(s.blocks[a].insts[j]) == Some(v)
  }

  predicate Gives(item: Item, v: Value) {
    (item.Do? && Def(item.inst) == Some(v)) || (item.Read? && item.v == v)
  }

  predicate Needs(item: Item, v: Value) {
    (item.Do? && v in Uses(item.inst)) || (item.Write? && item.v == v)
  }

  /** Before item k of block b the front end may use a parameter, what an earlier instruction of b
      defines, what an earlier read of b returned, and what a dominating block defines. */
  ghost predicate Available(s: Builder, b: BlockId, k: nat, v: Value)
    requires b < |s.log| && k <= |s.log[b]|
  {
    || v !in s.site
    || (exists j :: 0 <= j < k && Gives(s.log[b][j], v))
    || (exists a, j :: DefinedAt(s, a, j, v) && Dominates(s, a, b))
  }

  predicate LinkedTo(s: Builder, b: BlockId, i: Inst) {
    && (i.Jump? ==> HasSucc(s, b, i.target))
    && (i.Branch? ==> HasSucc(s, b, i.onTrue) && HasSucc(s, b, i.onFalse))
  }

  /** Terminators come last and go where the block is linked to; kernels list what they read. */
  ghost predicate Placed(s: Builder, b: BlockId, k: nat)
    requires b < |s.log| && k < |s.log[b]|
  {
    s.log[b][k].Do? ==>
      && FusedOk(s.log[b][k].inst) && LinkedTo(s, b, s.log[b][k].inst)
      && (IsTerminator(s.log[b][k].inst) ==> forall m | k < m < |s.log[b]| :: !s.log[b][m].Do?)
  }

  /** What item k needs is available before it. */
  ghost predicate Sourced(s: Builder, b: BlockId, k: nat)
    requires b < |s.log| && k < |s.log[b]|
  {
    forall v | Needs(s.log[b][k], v) :: Available(s, b, k, v)
  }

  ghost predicate ItemOk(s: Builder, b: BlockId, k: nat)
    requires b < |s.log| && k < |s.log[b]|
  {
    Placed(s, b, k) && Sourced(s, b, k)
  }

  ghost predicate Disciplined(s: Builder) {
    forall b: BlockId, k: nat | b < |s.log| && k < |s.log[b]| :: ItemOk(s, b, k)
  }

  ghost predicate AllSourced(s: Builder) {
    forall b: BlockId, k: nat | b < |s.log| && k < |s.log[b]| :: Sourced(s, b, k)
  }

  ghost predicate AllPlaced(s: Builder) {
    forall b: BlockId, k: nat | b < |s.log| && k < |s.log[b]| :: Placed(s, b, k)
  }

  /** The parameters, and among them all that are assigned to variables. */
  ghost predicate Given(s: Builder, env: Env) {
    && Parameters(s, env)
    && forall b: BlockId, k: nat | b < |s.log| && k < |s.log[b]| && s.log[b][k].Write? && s.log[b][k].v !in s.site ::
         s.log[b][k].v in env
  }

  // ----- disciplined assignments are of computed values -----

  lemma ItemGrows(I: Interp, types: map<Value, Type>, item: Item, t: Twin)
    requires StepItem(I, types, item, t).Some?
    ensures t.env.Keys <= StepItem(I, types, item, t).value.env.Keys
    ensures item.Do? && !item.inst.Phi? && Def(item.inst).Some? ==>
              Def(item.inst).value in StepItem(I, types, item, t).value.env
  {
  }

  lemma {:induction false} ItemsGrow(I: Interp, types: map<Value, Type>, items: seq<Item>, k: nat, n: nat, t: Twin)
    requires k <= n <= |items| && RunItems(I, types, items, n, t).Some?
    ensures RunItems(I, types, items, k, t).Some?
    ensures RunItems(I, types, items, k, t).value.env.Keys <= RunItems(I, types, items, n, t).value.env.Keys
    decreases n
  {
    if k < n {
      ItemsGrow(I, types, items, k, n - 1, t);
      ItemGrows(I, types, items[n - 1], RunItems(I, types, items, n - 1, t).value);
    }
  }

  /** After an instruction has run its result is there. */
  lemma DoneIsSet(I: Interp, types: map<Value, Type>, items: seq<Item>, j: nat, n: nat, t: Twin)
    requires j < n <= |items| && RunItems(I, types, items, n, t).Some?
    requires items[j].Do? && !items[j].inst.Phi? && Def(items[j].inst).Some?
    ensures Def(items[j].inst).value in RunItems(I, types, items, n, t).value.env
  {
    ItemsGrow(I, types, items, j, n, t);
    ItemsGrow(I, types, items, j + 1, n, t);
    ItemGrows(I, types, items[j], RunItems(I, types, items, j, t).value);
  }

  /** Everything defined in the given blocks is there, and the parameters are. */
  ghost predicate AllSet(s: Builder, blocks: seq<BlockId>, env: Env, params: Env) {
    && params.Keys <= env.Keys
    && forall a, j: nat, v | a in blocks && DefinedAt(s, a, j, v) :: v in env
  }

  /** An available value has been computed, so an assignment of it has a meaning. */
  lemma AvailableIsSet(I: Interp, types: map<Value, Type>, s: Builder, env: Env, p: seq<BlockId>, k: nat, v: Value)
    requires Complete(s) && Given(s, env) && Way(s, p) && AtEntry(I, s, types, env, p).Some?
    requires AllSet(s, p[..|p| - 1], AtEntry(I, s, types, env, p).value.env, env)
    requires k < |s.log[p[|p| - 1]]| && Available(s, p[|p| - 1], k, v)
    requires v in s.site || v in env
    requires RunItems(I, types, s.log[p[|p| - 1]], k, AtEntry(I, s, types, env, p).value).Some?
    ensures v in RunItems(I, types, s.log[p[|p| - 1]], k, AtEntry(I, s, types, env, p).value).value.env
  {
    var b := p[|p| - 1];
    var t := AtEntry(I, s, types, env, p).value;
    ItemsGrow(I, types, s.log[b], 0, k, t);
    if v in s.site {
      if j :| 0 <= j < k && Gives(s.log[b][j], v) {
        ItemsGrow(I, types, s.log[b], j, k, t);
        if s.log[b][j].Do? {
          ItemDefined(s, b, j);
          DoneIsSet(I, types, s.log[b], j, k, t);
        } else {
          ReadsAreRight(I, s, types, env, p, j, s.log[b][j].x, v);
        }
      } else {
        var a, j :| DefinedAt(s, a, j, v) && Dominates(s, a, b);
      }
    }
  }

  lemma {:induction false} ItemsComputed(I: Interp, types: map<Value, Type>, s: Builder, env: Env, p: seq<BlockId>,
                                         n: nat)
    requires Complete(s) && Disciplined(s) && Given(s, env) && Way(s, p) && AtEntry(I, s, types, env, p).Some?
    requires AllSet(s, p[..|p| - 1], AtEntry(I, s, types, env, p).value.env, env)
    requires n <= |s.log[p[|p| - 1]]|
    ensures RunItems(I, types, s.log[p[|p| - 1]], n, AtEntry(I, s, types, env, p).value).Some?
    decreases n
  {
    if n > 0 {
      ItemsComputed(I, types, s, env, p, n - 1);
      var b := p[|p| - 1];
      assert ItemOk(s, b, n - 1);
      var item := s.log[b][n - 1];
      if item.Write? {
        assert Needs(item, item.v);
        AvailableIsSet(I, types, s, env, p, n - 1, item.v);
      }
    }
  }

  /** A block that has run has set everything it defines. */
  lemma BlockSets(I: Interp, types: map<Value, Type>, s: Builder, env: Env, p: seq<BlockId>)
    requires Inv(s) && Path(s, p) && AtEnd(I, s, types, env, p).Some?
    requires AllSet(s, p[..|p| - 1], AtEntry(I, s, types, env, p).value.env, env)
    ensures AllSet(s, p, AtEnd(I, s, types, env, p).value.env, env)
  {
    var b := p[|p| - 1];
    var t := AtEntry(I, s, types, env, p).value;
    ItemsGrow(I, types, s.log[b], 0, |s.log[b]|, t);
    forall a, j: nat, v | a in p && DefinedAt(s, a, j, v) ensures v in AtEnd(I, s, types, env, p).value.env {
      assert p == p[..|p| - 1] + [b];
      if a == b && j >= PhiCount(s.blocks[b].insts) {
        var k := InstItem(s, b, j);
        ItemDefined(s, b, k);
        DoneIsSet(I, types, s.log[b], k, |s.log[b]|, t);
      } else if a == b {
        EntrySetsPhi(I, types, s, env, p, j);
      }
    }
  }

  lemma EntrySetsPhi(I: Interp, types: map<Value, Type>, s: Builder, env: Env, p: seq<BlockId>, j: nat)
    requires Inv(s) && Path(s, p) && AtEntry(I, s, types, env, p).Some?
    requires j < PhiCount(s.blocks[p[|p| - 1]].insts)
    ensures s.blocks[p[|p| - 1]].insts[j].Phi?
    ensures s.blocks[p[|p| - 1]].insts[j].d in AtEntry(I, s, types, env, p).value.env
  {
    var insts := s.blocks[p[|p| - 1]].insts;
    PhiCountMeaning(insts);
    var pred := if |p| == 1 then None else Some(p[|p| - 2]);
    if |p| > 1 { PrefixPath(s, p, |p| - 1); }
    var before := if |p| == 1 then env else AtEnd(I, s, types, env, p[..|p| - 1]).value.env;
    PhiValuesDomain(insts, pred, before, insts[j].d);
  }

  /** Along every way each block runs to its end: no assignment is of a value not computed yet. */
  lemma {:induction false} WayComputed(I: Interp, s: Builder, types: map<Value, Type>, env: Env, p: seq<BlockId>)
    requires Complete(s) && Disciplined(s) && Given(s, env) && Way(s, p)
    ensures AtEntry(I, s, types, env, p).Some? && AtEnd(I, s, types, env, p).Some?
    ensures AllSet(s, p, AtEnd(I, s, types, env, p).value.env, env)
    decreases |p|
  {
    if |p| > 1 {
      WayPrefix(s, p, |p| - 2);
      assert p[..(|p| - 2) + 1] == p[..|p| - 1];
      WayComputed(I, s, types, env, p[..|p| - 1]);
    } else {
      assert p[..0] == [];
    }
    ItemsComputed(I, types, s, env, p, |s.log[p[|p| - 1]]|);
    BlockSets(I, types, s, env, p);
  }

  // ----- definitions dominate uses -----

  /** What a variable stands for at the end of a block is defined on every path to that end. */
  lemma OutDominates(I: Interp, s: Builder, types: map<Value, Type>, env: Env, x: Var, p: BlockId, v: Value)
    requires Complete(s) && Disciplined(s) && Given(s, env) && p < |s.blocks| && Out(s, x, p) == Some(v)
    ensures DefDominates(Built(s, types), v, p, Len(Built(s, types), p))
  {
    var f := Built(s, types);
    BuiltFind(s, types, p);
    assert VarsOk(s, x, p);
    forall a, j | DefAt(f, a, j, v) ensures DomPoint(f, a, j, p, Len(f, p)) {
      BuiltInst(s, types, a, j);
      if a != p {
        forall path | IsPath(f, path) && Last(path) == p ensures a in path[..|path| - 1] {
          BuiltPath(s, types, path);
          WayComputed(I, s, types, env, path);
          var t := AtEnd(I, s, types, env, path).value;
          PathGood(I, s, types, env, path);
          BlockGood(I, s, types, path, AtEntry(I, s, types, env, path).value);
          assert MatchesAt(t, x, Cur(s.log[p], x, Inval(s, x, p), |s.log[p]|));
          assert a in path;
          assert path == path[..|path| - 1] + [p];
        }
      }
    }
  }

  lemma BuiltPhiInputs(I: Interp, s: Builder, types: map<Value, Type>, env: Env)
    requires Complete(s) && Disciplined(s) && Given(s, env)
    ensures PhiInputsDominated(Built(s, types))
  {
    var f := Built(s, types);
    forall b: BlockId, i: nat, p: BlockId | HasInst(f, b, i) && InstOf(f, b, i).Phi? && p in InstOf(f, b, i).operands
      ensures DefDominates(f, InstOf(f, b, i).operands[p], p, Len(f, p))
    {
      BuiltInst(s, types, b, i);
      CompleteStructure(s, b);
      var phi := s.blocks[b].insts[i];
      assert phi in s.blocks[b].insts;
      var x := s.owner[phi.d].0;
      assert Filled(s, x, b, phi.operands);
      assert EdgeOk(s, p, b) && HasPred(s, b, p);
      OutDominates(I, s, types, env, x, p, phi.operands[p]);
    }
  }

  /** On the first visit to b nothing is set that b defines at or after item k. */
  lemma NotDefinedLater(I: Interp, s: Builder, types: map<Value, Type>, env: Env, p: seq<BlockId>, k: nat, v: Value,
                        j: nat)
    requires Complete(s) && Given(s, env) && Way(s, p)
    requires p[|p| - 1] !in p[..|p| - 1] && AtEntry(I, s, types, env, p).Some?
    requires k <= |s.log[p[|p| - 1]]|
    requires RunItems(I, types, s.log[p[|p| - 1]], k, AtEntry(I, s, types, env, p).value).Some?
    requires v in RunItems(I, types, s.log[p[|p| - 1]], k, AtEntry(I, s, types, env, p).value).value.env
    requires DefinedAt(s, p[|p| - 1], j, v)
    ensures j < Position(s, p[|p| - 1], k)
  {
    var b := p[|p| - 1];
    PathGood(I, s, types, env, p);
    ItemsGood(I, types, s, p, AtEntry(I, s, types, env, p).value, k);
    if j >= PhiCount(s.blocks[b].insts) {
      var m := InstItem(s, b, j);
      if m < k { PositionOrdered(s, b, m, k); }
    }
  }

  /** The definition of a value that a read returned dominates the point of the read: it stands in a
      block that strictly dominates the reading block, or in that block before the read. */
  lemma ReadDominates(I: Interp, s: Builder, types: map<Value, Type>, env: Env, b: BlockId, k: nat, v: Value,
                      a: BlockId, j: nat)
    requires Complete(s) && Disciplined(s) && Given(s, env)
    requires b < |s.blocks| && k < |s.log[b]| && s.log[b][k].Read? && s.log[b][k].v == v
    requires DefAt(Built(s, types), a, j, v)
    ensures DomPoint(Built(s, types), a, j, b, Position(s, b, k))
    ensures a == b ==> j < Position(s, b, k)
  {
    BuiltInst(s, types, a, j);
    if a == b {
      var p := SomeWay(s, b);
      ReadIsSet(I, s, types, env, p, k);
      NotDefinedLater(I, s, types, env, p, k, v, j);
    } else {
      forall p | IsPath(Built(s, types), p) && Last(p) == b ensures a in p[..|p| - 1] {
        BuiltPath(s, types, p);
        ReadIsSet(I, s, types, env, p, k);
        PathGood(I, s, types, env, p);
        ItemsGood(I, types, s, p, AtEntry(I, s, types, env, p).value, k);
        assert p == p[..|p| - 1] + [b];
      }
    }
  }

  lemma ReadIsSet(I: Interp, s: Builder, types: map<Value, Type>, env: Env, p: seq<BlockId>, k: nat)
    requires Complete(s) && Disciplined(s) && Given(s, env) && Way(s, p)
    requires k < |s.log[p[|p| - 1]]| && s.log[p[|p| - 1]][k].Read?
    ensures AtEntry(I, s, types, env, p).Some?
    ensures var t := RunItems(I, types, s.log[p[|p| - 1]], k, AtEntry(I, s, types, env, p).value);
            t.Some? && s.log[p[|p| - 1]][k].v in t.value.env
  {
    var b := p[|p| - 1];
    WayComputed(I, s, types, env, p);
    ItemsGrow(I, types, s.log[b], k, |s.log[b]|, AtEntry(I, s, types, env, p).value);
    ReadsAreRight(I, s, types, env, p, k, s.log[b][k].x, s.log[b][k].v);
  }

  /** What is available before item k is defined before it: earlier in b, or in a dominating block. */
  lemma AvailableDominates(I: Interp, s: Builder, types: map<Value, Type>, env: Env, b: BlockId, k: nat, v: Value,
                           a: BlockId, j: nat)
    requires Complete(s) && Disciplined(s) && Given(s, env)
    requires b < |s.blocks| && k < |s.log[b]| && Available(s, b, k, v) && DefAt(Built(s, types), a, j, v)
    ensures DomPoint(Built(s, types), a, j, b, Position(s, b, k))
    ensures a == b ==> j < Position(s, b, k)
  {
    BuiltInst(s, types, a, j);
    BuiltUniqueDefs(s, types);
    if m :| 0 <= m < k && Gives(s.log[b][m], v) {
      PositionOrdered(s, b, m, k);
      if s.log[b][m].Do? {
        ItemAt(s, b, m);
        BuiltInst(s, types, b, Position(s, b, m));
        assert DefAt(Built(s, types), b, Position(s, b, m), v);
      } else {
        ReadDominates(I, s, types, env, b, m, v, a, j);
      }
    } else {
      var c, m :| DefinedAt(s, c, m, v) && Dominates(s, c, b);
      BuiltInst(s, types, c, m);
      assert DefAt(Built(s, types), c, m, v);
      DominatesStrictly(s, types, c, b);
      if a == b { var p := SomeWay(s, b); }
    }
  }

  /** Every use, at its position, is of a value defined before. */
  lemma UseDominated(I: Interp, s: Builder, types: map<Value, Type>, env: Env, b: BlockId, i: nat, v: Value,
                     a: BlockId, j: nat)
    requires Complete(s) && Disciplined(s) && Given(s, env)
    requires HasInst(Built(s, types), b, i) && v in Uses(InstOf(Built(s, types), b, i))
    requires DefAt(Built(s, types), a, j, v)
    ensures DomPoint(Built(s, types), a, j, b, i) && (a == b ==> j < i)
  {
    BuiltInst(s, types, b, i);
    PhisLead(s, b, i);
    var k := InstItem(s, b, i);
    assert ItemOk(s, b, k) && Needs(s.log[b][k], v);
    AvailableDominates(I, s, types, env, b, k, v, a, j);
  }

  // ----- the result is well-formed -----

  lemma BuiltUses(I: Interp, s: Builder, types: map<Value, Type>, env: Env)
    requires Complete(s) && Disciplined(s) && Given(s, env)
    ensures UsesDominated(Built(s, types)) && LocalOrder(Built(s, types))
  {
    var f := Built(s, types);
    forall b: BlockId, i: nat, v: Value | HasInst(f, b, i) && v in Uses(InstOf(f, b, i))
      ensures DefDominates(f, v, b, i)
    {
      forall a, j | DefAt(f, a, j, v) ensures DomPoint(f, a, j, b, i) { UseDominated(I, s, types, env, b, i, v, a, j); }
    }
    forall b: BlockId, i: nat, j: nat, v: Value | HasInst(f, b, i) && v in Uses(InstOf(f, b, i)) && DefAt(f, b, j, v)
      ensures j < i
    {
      UseDominated(I, s, types, env, b, i, v, b, j);
    }
  }

  lemma BuiltControl(s: Builder, types: map<Value, Type>)
    requires Complete(s) && Disciplined(s)
    ensures ControlOk(Built(s, types)) && FusedListed(Built(s, types))
  {
    var f := Built(s, types);
    forall b: BlockId, i: nat | HasInst(f, b, i)
      ensures FusedOk(InstOf(f, b, i)) && JumpsAlongEdges(f, b, InstOf(f, b, i))
      ensures IsTerminator(InstOf(f, b, i)) ==> i + 1 == Len(f, b)
    {
      BuiltInst(s, types, b, i);
      BuiltFind(s, types, b);
      PhisLead(s, b, i);
      if !InstOf(f, b, i).Phi? { ItemPlaced(s, types, b, i); }
    }
  }

  lemma ItemPlaced(s: Builder, types: map<Value, Type>, b: BlockId, i: nat)
    requires Complete(s) && Disciplined(s) && b < |s.blocks| && PhiCount(s.blocks[b].insts) <= i < |s.blocks[b].insts|
    ensures FusedOk(s.blocks[b].insts[i]) && JumpsAlongEdges(Built(s, types), b, s.blocks[b].insts[i])
    ensures IsTerminator(s.blocks[b].insts[i]) ==> i + 1 == |s.blocks[b].insts|
  {
    var k := InstItem(s, b, i);
    assert ItemOk(s, b, k);
    var inst := s.blocks[b].insts[i];
    if inst.Jump? { BuiltEdge(s, types, b, inst.target); }
    if inst.Branch? { BuiltEdge(s, types, b, inst.onTrue); BuiltEdge(s, types, b, inst.onFalse); }
    if IsTerminator(inst) && i + 1 < |s.blocks[b].insts| {
      var m := InstItem(s, b, i + 1);
      if m < k { PositionOrdered(s, b, m, k); }
    }
  }

  lemma BuiltPhis(s: Builder, types: map<Value, Type>)
    requires Complete(s)
    ensures PhisFirst(Built(s, types)) && PredsMatch(Built(s, types)) && PhiKeysArePreds(Built(s, types))
  {
    var f := Built(s, types);
    forall b: BlockId, i: nat, j: nat | i < j && HasInst(f, b, i) && HasInst(f, b, j) && InstOf(f, b, j).Phi?
      ensures InstOf(f, b, i).Phi?
    {
      BuiltInst(s, types, b, i);
      BuiltInst(s, types, b, j);
      PhisLead(s, b, i);
      PhisLead(s, b, j);
    }
    forall b: BlockId, p: BlockId | Find(f.blocks, b).Some?
      ensures Edge(f, p, b) <==> p in Find(f.blocks, b).value.preds
    {
      BuiltFind(s, types, b);
      BuiltEdge(s, types, p, b);
      assert EdgeOk(s, p, b);
      if p in s.blocks[b].preds { assert HasPred(s, b, p); }
    }
    forall b: BlockId, i: nat | HasInst(f, b, i) && InstOf(f, b, i).Phi?
      ensures InstOf(f, b, i).operands.Keys == set p | p in Find(f.blocks, b).value.preds
    {
      BuiltInst(s, types, b, i);
      BuiltFind(s, types, b);
      CompleteStructure(s, b);
      assert s.blocks[b].insts[i] in s.blocks[b].insts;
    }
  }

  /** Inputs for every parameter that is assigned: their values do not matter here. */
  lemma SomeInputs(s: Builder) returns (env: Env)
    requires |s.log| == |s.blocks|
    ensures Given(s, env)
  {
    var items := set b: BlockId, item | b < |s.log| && item in s.log[b] :: item;
    var written := set item | item in items && item.Write? :: item.v;
    env := map v | v in written && v !in s.site :: Undef;
    forall b: BlockId, k: nat | b < |s.log| && k < |s.log[b]| && s.log[b][k].Write? && s.log[b][k].v !in s.site
      ensures s.log[b][k].v in env
    {
      assert s.log[b][k] in s.log[b] && s.log[b][k] in items;
    }
  }

  /** A disciplined front end gets well-formed SSA: every value has one definition, definitions dominate
      their uses, phis come first and are keyed by predecessors, terminators come last and match the edges. */
  lemma BuiltWellFormed(s: Builder, types: map<Value, Type>)
    requires Complete(s) && Disciplined(s)
    ensures WellFormed(Built(s, types))
  {
    var env := SomeInputs(s);
    BuiltUniqueDefs(s, types);
    BuiltControl(s, types);
    BuiltPhis(s, types);
    BuiltUses(NoInterp(), s, types, env);
    BuiltPhiInputs(NoInterp(), s, types, env);
  }

  // ----- and only a front end that places its terminators -----

  lemma LinkedIsEdge(s: Builder, types: map<Value, Type>, b: BlockId, i: Inst)
    requires GraphOk(s) && JumpsAlongEdges(Built(s, types), b, i)
    ensures LinkedTo(s, b, i)
  {
    if i.Jump? {
      BuiltEdge(s, types, b, i.target);
    } else if i.Branch? {
      BuiltEdge(s, types, b, i.onTrue);
      BuiltEdge(s, types, b, i.onFalse);
    }
  }

  /** In a well-formed graph nothing was emitted after a terminator, and each one's targets are linked. */
  lemma WellFormedPlaced(s: Builder, types: map<Value, Type>, b: BlockId, k: nat)
    requires Complete(s) && WellFormed(Built(s, types)) && b < |s.log| && k < |s.log[b]|
    ensures Placed(s, b, k)
  {
    if s.log[b][k].Do? {
      var i, inst := Position(s, b, k), s.log[b][k].inst;
      ItemInst(s, types, b, k);
      assert FusedOk(inst) && JumpsAlongEdges(Built(s, types), b, inst);
      LinkedIsEdge(s, types, b, inst);
      forall m | IsTerminator(inst) && k < m < |s.log[b]| ensures !s.log[b][m].Do? {
        if s.log[b][m].Do? { LaterItem(s, types, b, k, m); }
      }
    }
  }

  lemma ItemInst(s: Builder, types: map<Value, Type>, b: BlockId, k: nat)
    requires Complete(s) && b < |s.log| && k < |s.log[b]| && s.log[b][k].Do?
    ensures HasInst(Built(s, types), b, Position(s, b, k))
    ensures InstOf(Built(s, types), b, Position(s, b, k)) == s.log[b][k].inst
  {
    ItemAt(s, b, k);
    BuiltInst(s, types, b, Position(s, b, k));
  }

  /** An instruction emitted later stands later. */
  lemma LaterItem(s: Builder, types: map<Value, Type>, b: BlockId, k: nat, m: nat)
    requires Complete(s) && b < |s.log| && k < m < |s.log[b]| && s.log[b][k].Do? && s.log[b][m].Do?
    ensures Position(s, b, k) + 1 < Len(Built(s, types), b)
  {
    EmittedSplit(s.log[b], k);
    PositionOrdered(s, b, k + 1, m);
    ItemAt(s, b, m);
    BuiltFind(s, types, b);
  }

  /** Where everything emitted and assigned is available, the finished graph is well-formed SSA if and only if
      each block's terminator comes last in it and jumps where that block is linked to. */
  lemma WellFormedExactly(s: Builder, types: map<Value, Type>)
    requires Complete(s) && AllSourced(s)
    ensures WellFormed(Built(s, types)) <==> AllPlaced(s)
  {
    if WellFormed(Built(s, types)) {
      forall b: BlockId, k: nat | b < |s.log| && k < |s.log[b]| ensures Placed(s, b, k) {
        WellFormedPlaced(s, types, b, k);
      }
    }
    if AllPlaced(s) {
      forall b: BlockId, k: nat | b < |s.log| && k < |s.log[b]| ensures ItemOk(s, b, k) {
        assert Placed(s, b, k) && Sourced(s, b, k);
      }
      BuiltWellFormed(s, types);
    }
  }
}
