/** Liveness analysis (analysis/liveness.rs). */
module Liveness {
  import opened Types
  import opened Ir
  import opened Ssa

  type LiveMap = map<BlockId, set<Value>>

  datatype Results = Results(liveIn: LiveMap, liveOut: LiveMap, instLiveOut: map<(BlockId, nat), set<Value>>)

  // ----- the dataflow equations -----

  function DefSet(i: Inst): set<Value> {
    if Def(i).Some? then {Def(i).value} else {}
  }

  function UseSet(i: Inst): set<Value> {
    set v | v in Uses(i)
  }

  /** Live before a list of instructions when `out` is live after it. */
  function LiveBefore(insts: seq<Inst>, out: set<Value>): set<Value> {
    if insts == [] then out
    else (LiveBefore(insts[1..], out) - DefSet(insts[0])) + (if insts[0].Phi? then {} else UseSet(insts[0]))
  }

  predicate PhiDef(insts: seq<Inst>, v: Value) {
    exists i | i in insts :: i.Phi? && i.d == v
  }

  function PhiInputs(insts: seq<Inst>, p: BlockId): set<Value> {
    set i | i in insts && i.Phi? && p in i.operands :: i.operands[p]
  }

  /** What one successor asks of the edge from p. */
  function EdgeLive(f: Func, live: LiveMap, p: BlockId, s: BlockId): set<Value> {
    if Find(f.blocks, s).None? then {}
    else
      var insts := Find(f.blocks, s).value.insts;
      (if s in live then set v | v in live[s] && !PhiDef(insts, v) else {}) + PhiInputs(insts, p)
  }

  function OutOf(f: Func, live: LiveMap, b: Block): set<Value> {
    set s, v | s in b.succs && v in EdgeLive(f, live, b.id, s) :: v
  }

  /** Both maps satisfy the equations of one block. */
  ghost predicate Settled(f: Func, liveIn: LiveMap, liveOut: LiveMap, b: Block) {
    && b.id in liveIn && b.id in liveOut
    && liveOut[b.id] == OutOf(f, liveIn, b)
    && liveIn[b.id] == LiveBefore(b.insts, liveOut[b.id])
  }

  ghost predicate Solution(f: Func, liveIn: LiveMap, liveOut: LiveMap) {
    forall b | b in f.blocks :: Settled(f, liveIn, liveOut, b)
  }

  // ----- the equations, read off the instructions -----

  /** Successor s wants v on the edge from p: a phi reads it under key p, or it is live into s and no phi
      of s defines it. */
  ghost predicate WantedBy(f: Func, liveIn: LiveMap, p: BlockId, s: BlockId, v: Value) {
    Find(f.blocks, s).Some? &&
    var insts := Find(f.blocks, s).value.insts;
    || (exists i :: i in insts && i.Phi? && p in i.operands && i.operands[p] == v)
    || (s in liveIn && v in liveIn[s] && forall i | i in insts && i.Phi? :: i.d != v)
  }

  /** Instruction k, not a phi, is the one that reads v before the list defines it. */
  ghost predicate ReadFirst(insts: seq<Inst>, k: nat, v: Value) {
    k < |insts| && !insts[k].Phi? && v in Uses(insts[k]) && forall j | 0 <= j < k :: Def(insts[j]) != Some(v)
  }

  ghost predicate WantedBefore(insts: seq<Inst>, out: set<Value>, v: Value) {
    (exists k: nat :: ReadFirst(insts, k, v)) || (v in out && forall i | i in insts :: Def(i) != Some(v))
  }

  /** The liveness equations of every block. */
  ghost predicate Equations(f: Func, liveIn: LiveMap, liveOut: LiveMap) {
    forall b | b in f.blocks ::
      && b.id in liveIn && b.id in liveOut
      && (forall v :: v in liveOut[b.id] <==> exists s :: s in b.succs && WantedBy(f, liveIn, b.id, s, v))
      && (forall v :: v in liveIn[b.id] <==> WantedBefore(b.insts, liveOut[b.id], v))
  }

  lemma {:induction false} BeforeExactly(insts: seq<Inst>, out: set<Value>, v: Value)
    ensures v in LiveBefore(insts, out) <==> WantedBefore(insts, out, v)
  {
    if insts == [] {
      assert !exists k: nat :: ReadFirst(insts, k, v);
    } else {
      var rest := insts[1..];
      BeforeExactly(rest, out, v);
      assert insts == [insts[0]] + rest;
      if k: nat :| ReadFirst(insts, k, v) {
        if k > 0 { assert Def(insts[0]) != Some(v) && ReadFirst(rest, k - 1, v); }
      }
      if k: nat :| ReadFirst(rest, k, v) {
        if Def(insts[0]) != Some(v) { assert ReadFirst(insts, k + 1, v); }
      }
      if !insts[0].Phi? && v in Uses(insts[0]) { assert ReadFirst(insts, 0, v); }
    }
  }

  lemma AllBeforeExactly(insts: seq<Inst>, out: set<Value>)
    ensures forall v :: v in LiveBefore(insts, out) <==> WantedBefore(insts, out, v)
  {
    forall v ensures v in LiveBefore(insts, out) <==> WantedBefore(insts, out, v) { BeforeExactly(insts, out, v); }
  }

  lemma OutExactly(f: Func, liveIn: LiveMap, b: Block, v: Value)
    ensures v in OutOf(f, liveIn, b) <==> exists s :: s in b.succs && WantedBy(f, liveIn, b.id, s, v)
  {
    forall s | s in b.succs ensures v in EdgeLive(f, liveIn, b.id, s) <==> WantedBy(f, liveIn, b.id, s, v) { }
  }

  /** The solutions the analysis looks for are those of the equations on the instructions. */
  lemma SolvesEquations(f: Func, liveIn: LiveMap, liveOut: LiveMap)
    ensures Solution(f, liveIn, liveOut) <==> Equations(f, liveIn, liveOut)
  {
    forall b, v | b in f.blocks && b.id in liveOut
      ensures v in OutOf(f, liveIn, b) <==> exists s :: s in b.succs && WantedBy(f, liveIn, b.id, s, v)
      ensures v in LiveBefore(b.insts, liveOut[b.id]) <==> WantedBefore(b.insts, liveOut[b.id], v)
    {
      OutExactly(f, liveIn, b, v);
      BeforeExactly(b.insts, liveOut[b.id], v);
    }
    if Solution(f, liveIn, liveOut) {
      forall b | b in f.blocks ensures b.id in liveIn && b.id in liveOut { assert Settled(f, liveIn, liveOut, b); }
    }
    if Equations(f, liveIn, liveOut) {
      forall b | b in f.blocks ensures Settled(f, liveIn, liveOut, b) {
        assert forall v :: v in liveOut[b.id] <==> v in OutOf(f, liveIn, b);
        assert forall v :: v in liveIn[b.id] <==> v in LiveBefore(b.insts, liveOut[b.id]);
      }
    }
  }

  /** A value only phis read, none of them under key b, is not live out of b unless it is live through one
      of b's successors. */
  lemma OtherEdgesOperand(f: Func, liveIn: LiveMap, liveOut: LiveMap, b: Block, v: Value)
    requires Equations(f, liveIn, liveOut) && b in f.blocks
    requires forall c, i | c in f.blocks && i in c.insts :: v !in Uses(i)
    requires forall c, i | c in f.blocks && c.id in b.succs && i in c.insts && i.Phi? && b.id in i.operands ::
               i.operands[b.id] != v
    requires forall c | c in f.blocks && c.id in b.succs :: v !in liveOut[c.id] || DefinedIn(c.insts, v)
    ensures v !in liveOut[b.id]
  {
    forall s | s in b.succs ensures !WantedBy(f, liveIn, b.id, s, v) {
      if Find(f.blocks, s).Some? {
        var c := Find(f.blocks, s).value;
        assert !WantedBefore(c.insts, liveOut[s], v);
      }
    }
  }

  // ----- live along a path -----

  /** v is read in the list, phis aside, before it is defined there. */
  predicate Exposed(insts: seq<Inst>, v: Value) {
    insts != [] && ((!insts[0].Phi? && v in Uses(insts[0])) || (Def(insts[0]) != Some(v) && Exposed(insts[1..], v)))
  }

  predicate DefinedIn(insts: seq<Inst>, v: Value) {
    exists i | i in insts :: Def(i) == Some(v)
  }

  function InstsOf(f: Func, b: BlockId): seq<Inst> {
    if Find(f.blocks, b).Some? then Find(f.blocks, b).value.insts else []
  }

  /** A phi of some successor reads v on the edge from b. */
  ghost predicate ReadOnEdge(f: Func, b: BlockId, v: Value) {
    exists s | Edge(f, b, s) :: v in PhiInputs(InstsOf(f, s), b)
  }

  /** Along p, which starts at its first block, v is read before it is defined. */
  ghost predicate ReadAlong(f: Func, p: seq<BlockId>, v: Value)
    decreases |p|
  {
    && |p| > 0 && Find(f.blocks, p[0]).Some?
    && if |p| == 1 then
         Exposed(InstsOf(f, p[0]), v) || (!DefinedIn(InstsOf(f, p[0]), v) && ReadOnEdge(f, p[0], v))
       else
         && !DefinedIn(InstsOf(f, p[0]), v) && Edge(f, p[0], p[1]) && !PhiDef(InstsOf(f, p[1]), v)
         && ReadAlong(f, p[1..], v)
  }

  /** Some path from b reads v before any definition of v. */
  ghost predicate LiveAt(f: Func, b: BlockId, v: Value) {
    exists p :: ReadAlong(f, p, v) && p[0] == b
  }

  lemma {:induction false} LiveBeforeMeaning(insts: seq<Inst>, out: set<Value>, v: Value)
    ensures v in LiveBefore(insts, out) <==> Exposed(insts, v) || (!DefinedIn(insts, v) && v in out)
  {
    if insts != [] {
      LiveBeforeMeaning(insts[1..], out, v);
      assert DefinedIn(insts, v) <==> Def(insts[0]) == Some(v) || DefinedIn(insts[1..], v) by {
        assert insts == [insts[0]] + insts[1..];
      }
      if DefinedIn(insts[1..], v) && Exposed(insts[1..], v) {}
    }
  }

  lemma {:induction false} LiveBeforeMonotone(insts: seq<Inst>, out: set<Value>, out': set<Value>)
    requires out <= out'
    ensures LiveBefore(insts, out) <= LiveBefore(insts, out')
  {
    if insts != [] { LiveBeforeMonotone(insts[1..], out, out'); }
  }

  ghost predicate Below(live: LiveMap, live': LiveMap) {
    forall b | b in live :: b in live' && live[b] <= live'[b]
  }

  lemma OutMonotone(f: Func, live: LiveMap, live': LiveMap, b: Block)
    requires Below(live, live')
    ensures OutOf(f, live, b) <= OutOf(f, live', b)
  {
    forall v | v in OutOf(f, live, b) ensures v in OutOf(f, live', b) {
      var s :| s in b.succs && v in EdgeLive(f, live, b.id, s);
      assert v in EdgeLive(f, live', b.id, s);
    }
  }

  function Transfer(f: Func, live: LiveMap, b: Block): set<Value> {
    LiveBefore(b.insts, OutOf(f, live, b))
  }

  // ----- soundness of what is found, completeness of any closed map -----

  ghost predicate OnlyLive(f: Func, live: LiveMap) {
    forall b, v | b in live && v in live[b] :: LiveAt(f, b, v)
  }

  /** Everything the transfer function adds is read along some path. */
  lemma TransferOnlyLive(f: Func, live: LiveMap, b: Block, v: Value)
    requires UniqueIds(f) && b in f.blocks && OnlyLive(f, live) && v in Transfer(f, live, b)
    ensures LiveAt(f, b.id, v)
  {
    BlockFound(f, b);
    LiveBeforeMeaning(b.insts, OutOf(f, live, b), v);
    if Exposed(b.insts, v) {
      assert ReadAlong(f, [b.id], v);
    } else {
      var s :| s in b.succs && v in EdgeLive(f, live, b.id, s);
      assert Edge(f, b.id, s);
      if v in PhiInputs(InstsOf(f, s), b.id) {
        assert ReadAlong(f, [b.id], v);
      } else {
        var p :| ReadAlong(f, p, v) && p[0] == s;
        assert ([b.id] + p)[1..] == p;
        assert ReadAlong(f, [b.id] + p, v);
      }
    }
  }

  ghost predicate Closed(f: Func, live: LiveMap) {
    forall b | b in f.blocks :: b.id in live && Transfer(f, live, b) <= live[b.id]
  }

  lemma {:induction false} ReadAlongInClosed(f: Func, live: LiveMap, p: seq<BlockId>, v: Value)
    requires UniqueIds(f) && Closed(f, live) && ReadAlong(f, p, v)
    ensures p[0] in live && v in live[p[0]]
    decreases |p|
  {
    var b := Find(f.blocks, p[0]).value;
    var out := OutOf(f, live, b);
    LiveBeforeMeaning(b.insts, out, v);
    if |p| > 1 {
      ReadAlongInClosed(f, live, p[1..], v);
      assert v in EdgeLive(f, live, b.id, p[1]);
      assert v in out;
    } else if !Exposed(b.insts, v) {
      var s :| Edge(f, b.id, s) && v in PhiInputs(InstsOf(f, s), b.id);
      if Find(f.blocks, s).Some? {
        assert v in EdgeLive(f, live, b.id, s);
        assert v in out;
      }
    }
    assert v in Transfer(f, live, b);
  }

  /** The values live along some path are the least closed map: every solution holds them, and a
      solution with nothing more is the one the analysis returns. */
  lemma LiveIsLeast(f: Func, live: LiveMap, b: BlockId, v: Value)
    requires UniqueIds(f) && Closed(f, live) && LiveAt(f, b, v)
    ensures b in live && v in live[b]
  {
    var p :| ReadAlong(f, p, v) && p[0] == b;
    ReadAlongInClosed(f, live, p, v);
  }

  /** The maps lie inside every solution of the equations. */
  ghost predicate LeastOf(f: Func, liveIn: LiveMap, liveOut: LiveMap) {
    forall liveIn', liveOut' | Equations(f, liveIn', liveOut') :: Below(liveIn, liveIn') && Inside(f, liveOut, liveOut')
  }

  ghost predicate Inside(f: Func, live: LiveMap, live': LiveMap) {
    forall b | b in f.blocks :: b.id in live && b.id in live' && live[b.id] <= live'[b.id]
  }

  lemma SolutionIsLeast(f: Func, liveIn: LiveMap, liveOut: LiveMap)
    requires UniqueIds(f) && Solution(f, liveIn, liveOut) && OnlyLive(f, liveIn) && liveIn.Keys == Ids(f)
    ensures LeastOf(f, liveIn, liveOut)
  {
    forall liveIn', liveOut' | Equations(f, liveIn', liveOut')
      ensures Below(liveIn, liveIn') && Inside(f, liveOut, liveOut')
    {
      LiesInside(f, liveIn, liveOut, liveIn', liveOut');
    }
  }

  lemma LiesInside(f: Func, liveIn: LiveMap, liveOut: LiveMap, liveIn': LiveMap, liveOut': LiveMap)
    requires UniqueIds(f) && Solution(f, liveIn, liveOut) && OnlyLive(f, liveIn) && liveIn.Keys == Ids(f)
    requires Equations(f, liveIn', liveOut')
    ensures Below(liveIn, liveIn') && Inside(f, liveOut, liveOut')
  {
    SolvesEquations(f, liveIn', liveOut');
    forall c | c in f.blocks ensures c.id in liveIn' && Transfer(f, liveIn', c) <= liveIn'[c.id] {
      assert Settled(f, liveIn', liveOut', c);
    }
    forall c, v | c in liveIn && v in liveIn[c] ensures v in liveIn'[c] {
      LiveIsLeast(f, liveIn', c, v);
    }
    assert Below(liveIn, liveIn');
    forall b | b in f.blocks ensures b.id in liveOut && b.id in liveOut' && liveOut[b.id] <= liveOut'[b.id] {
      OutMonotone(f, liveIn, liveIn', b);
      assert Settled(f, liveIn, liveOut, b) && Settled(f, liveIn', liveOut', b);
    }
  }

  // ----- the analysis -----

  function ReadValues(f: Func): set<Value> {
    (set b, i, v | b in f.blocks && i in b.insts && v in Uses(i) :: v) +
    (set b, i, v | b in f.blocks && i in b.insts && i.Phi? && v in i.operands.Values :: v)
  }

  /** The (block, value) pairs still to be found at most; every change removes one. */
  ghost function Missing(f: Func, live: LiveMap): set<(BlockId, Value)> {
    set b, v | b in Ids(f) && v in ReadValues(f) && !(b in live && v in live[b]) :: (b, v)
  }

  method LiveOutOf(f: Func, liveIn: LiveMap, block: Block) returns (out: set<Value>)
    ensures out == OutOf(f, liveIn, block)
  {
    out := {};
    for k := 0 to |block.succs|
      invariant out == set s, v | s in block.succs[..k] && v in EdgeLive(f, liveIn, block.id, s) :: v
    {
      var s := block.succs[k];
      assert block.succs[..k + 1] == block.succs[..k] + [s];
      var add := EdgeInto(f, liveIn, block.id, s);
      out := out + add;
    }
    assert block.succs[..|block.succs|] == block.succs;
  }

  method EdgeInto(f: Func, liveIn: LiveMap, p: BlockId, s: BlockId) returns (add: set<Value>)
    ensures add == EdgeLive(f, liveIn, p, s)
  {
    add := {};
    var succ := Find(f.blocks, s);
    if succ.Some? {
      if s in liveIn {
        add := WithoutPhiDefs(liveIn[s], succ.value.insts);
      }
      var fromPhis := ReadByPhis(succ.value.insts, p);
      add := add + fromPhis;
    }
  }

  method WithoutPhiDefs(live: set<Value>, insts: seq<Inst>) returns (add: set<Value>)
    ensures add == set v | v in live && !PhiDef(insts, v)
  {
    add := {};
    var todo := live;
    while todo != {}
      invariant todo <= live
      invariant add == set v | v in live && v !in todo && !PhiDef(insts, v)
      decreases |todo|
    {
      var v :| v in todo;
      todo := todo - {v};
      if !PhiDef(insts, v) {
        add := add + {v};
      }
    }
  }

  method ReadByPhis(insts: seq<Inst>, p: BlockId) returns (fromPhis: set<Value>)
    ensures fromPhis == PhiInputs(insts, p)
  {
    fromPhis := {};
    for k := 0 to |insts|
      invariant fromPhis == PhiInputs(insts[..k], p)
    {
      assert insts[..k + 1] == insts[..k] + [insts[k]];
      if insts[k].Phi? && p in insts[k].operands {
        fromPhis := fromPhis + {insts[k].operands[p]};
      }
    }
    assert insts[..|insts|] == insts;
  }

  method LiveInOf(insts: seq<Inst>, out: set<Value>) returns (live: set<Value>)
    ensures live == LiveBefore(insts, out)
  {
    live := out;
    for k := |insts| downto 0
      invariant live == LiveBefore(insts[k..], out)
    {
      assert insts[k..][0] == insts[k] && insts[k..][1..] == insts[k + 1..];
      live := live - DefSet(insts[k]);
      if !insts[k].Phi? {
        live := live + UseSet(insts[k]);
      }
    }
    assert insts[0..] == insts;
  }

  /** The state of the iteration: inside the read values, increasing, and never too large. */
  ghost predicate Growing(f: Func, live: LiveMap) {
    && live.Keys == Ids(f) && OnlyLive(f, live)
    && forall b | b in f.blocks :: live[b.id] <= ReadValues(f) && live[b.id] <= Transfer(f, live, b)
  }

  lemma TransferInReads(f: Func, live: LiveMap, b: Block)
    requires b in f.blocks && forall c | c in live :: live[c] <= ReadValues(f)
    ensures Transfer(f, live, b) <= ReadValues(f)
  {
    forall v | v in OutOf(f, live, b) ensures v in ReadValues(f) {
      var s :| s in b.succs && v in EdgeLive(f, live, b.id, s);
      if v in PhiInputs(InstsOf(f, s), b.id) {
        var i :| i in InstsOf(f, s) && i.Phi? && b.id in i.operands && i.operands[b.id] == v;
        assert v in i.operands.Values;
      }
    }
    LiveBeforeInReads(f, b, b.insts, OutOf(f, live, b));
  }

  lemma {:induction false} LiveBeforeInReads(f: Func, b: Block, insts: seq<Inst>, out: set<Value>)
    requires b in f.blocks && out <= ReadValues(f) && forall i | i in insts :: i in b.insts
    ensures LiveBefore(insts, out) <= ReadValues(f)
  {
    if insts != [] {
      LiveBeforeInReads(f, b, insts[1..], out);
      assert insts[0] in insts;
    }
  }

  /** Updating one block keeps the iteration growing, and strictly so if anything changed. */
  lemma UpdateGrows(f: Func, live: LiveMap, b: Block)
    requires UniqueIds(f) && b in f.blocks && Growing(f, live)
    ensures Growing(f, live[b.id := Transfer(f, live, b)])
    ensures Transfer(f, live, b) != live[b.id] ==> Missing(f, live[b.id := Transfer(f, live, b)]) < Missing(f, live)
  {
    var now := Transfer(f, live, b);
    var live' := live[b.id := now];
    forall c | c in live ensures live[c] <= ReadValues(f) {
      var blk :| blk in f.blocks && blk.id == c;
    }
    TransferInReads(f, live, b);
    assert Below(live, live');
    forall c, v | c in live' && v in live'[c] ensures LiveAt(f, c, v) {
      if c == b.id { TransferOnlyLive(f, live, b, v); }
    }
    forall c | c in f.blocks ensures live'[c.id] <= ReadValues(f) && live'[c.id] <= Transfer(f, live', c) {
      OutMonotone(f, live, live', c);
      LiveBeforeMonotone(c.insts, OutOf(f, live, c), OutOf(f, live', c));
      if c.id == b.id {
        BlockFound(f, c);
        BlockFound(f, b);
      }
    }
    if now != live[b.id] {
      var v :| v in now && v !in live[b.id];
      assert (b.id, v) in Missing(f, live) && (b.id, v) !in Missing(f, live');
      assert Missing(f, live') <= Missing(f, live);
    }
  }

  method UpdateBlock(f: Func, liveIn: LiveMap, liveOut: LiveMap, block: Block)
    returns (liveIn': LiveMap, liveOut': LiveMap, changed: bool)
    requires UniqueIds(f) && block in f.blocks && Growing(f, liveIn)
    ensures Growing(f, liveIn')
    ensures changed ==> Missing(f, liveIn') < Missing(f, liveIn)
    ensures !changed ==> liveIn' == liveIn
    ensures liveOut' == liveOut[block.id := OutOf(f, liveIn, block)]
    ensures !changed ==> Settled(f, liveIn', liveOut', block)
  {
    var out := LiveOutOf(f, liveIn, block);
    liveOut' := liveOut[block.id := out];
    var current := LiveInOf(block.insts, out);
    UpdateGrows(f, liveIn, block);
    changed := current != liveIn[block.id];
    liveIn' := if changed then liveIn[block.id := current] else liveIn;
  }

  method Round(f: Func, liveIn: LiveMap, liveOut: LiveMap) returns (liveIn': LiveMap, liveOut': LiveMap, changed: bool)
    requires UniqueIds(f) && Growing(f, liveIn)
    ensures Growing(f, liveIn')
    ensures changed ==> Missing(f, liveIn') < Missing(f, liveIn)
    ensures !changed ==> liveIn' == liveIn && Solution(f, liveIn', liveOut')
  {
    liveIn', liveOut', changed := liveIn, liveOut, false;
    for k := |f.blocks| downto 0
      invariant Growing(f, liveIn')
      invariant changed ==> Missing(f, liveIn') < Missing(f, liveIn)
      invariant !changed ==> liveIn' == liveIn
      invariant !changed ==> forall j | k <= j < |f.blocks| :: Settled(f, liveIn', liveOut', f.blocks[j])
    {
      ghost var before, outBefore := liveIn', liveOut';
      var now;
      liveIn', liveOut', now := UpdateBlock(f, liveIn', liveOut', f.blocks[k]);
      changed := changed || now;
      forall j | k <= j < |f.blocks| && !changed ensures Settled(f, liveIn', liveOut', f.blocks[j]) {
        if j > k {
          assert Settled(f, before, outBefore, f.blocks[j]);
          assert f.blocks[k].id != f.blocks[j].id;
        }
      }
    }
    if !changed {
      forall b | b in f.blocks ensures Settled(f, liveIn', liveOut', b) {}
    }
  }

  method AnalyzeLiveness(f: Func) returns (r: Results)
    requires UniqueIds(f)
    ensures Solution(f, r.liveIn, r.liveOut) && Equations(f, r.liveIn, r.liveOut)
    ensures LeastOf(f, r.liveIn, r.liveOut)
    ensures r.liveIn.Keys == Ids(f)
    ensures forall b, v | b in r.liveIn :: v in r.liveIn[b] <==> LiveAt(f, b, v)
    ensures forall b | b in f.blocks :: Recorded(r.instLiveOut, r.liveOut, b, 0)
    ensures InstEquations(f, r.liveOut, r.instLiveOut)
  {
    var liveIn: LiveMap := map b | b in f.blocks :: b.id := {};
    var liveOut: LiveMap := liveIn;
    var changed := true;
    while changed
      invariant Growing(f, liveIn)
      invariant !changed ==> Solution(f, liveIn, liveOut)
      decreases Missing(f, liveIn), if changed then 1 else 0
    {
      liveIn, liveOut, changed := Round(f, liveIn, liveOut);
    }
    forall b, v | b in liveIn && LiveAt(f, b, v) ensures v in liveIn[b] {
      LiveIsLeast(f, liveIn, b, v);
    }
    var instLiveOut := PerInstruction(f, liveIn, liveOut);
    r := Results(liveIn, liveOut, instLiveOut);
    SolvesEquations(f, liveIn, liveOut);
    SolutionIsLeast(f, liveIn, liveOut);
    RecordedExactly(f, liveOut, instLiveOut);
  }

  /** What is recorded for instruction i of a block is what is wanted before the rest of the block. */
  ghost predicate InstEquations(f: Func, liveOut: LiveMap, at: map<(BlockId, nat), set<Value>>) {
    forall b, i: nat | b in f.blocks && i < |b.insts| ::
      b.id in liveOut && (b.id, i) in at
      && forall v :: v in at[(b.id, i)] <==> WantedBefore(b.insts[i + 1..], liveOut[b.id], v)
  }

  lemma RecordedExactly(f: Func, liveOut: LiveMap, at: map<(BlockId, nat), set<Value>>)
    requires forall b | b in f.blocks :: Recorded(at, liveOut, b, 0)
    ensures InstEquations(f, liveOut, at)
  {
    forall b, i: nat | b in f.blocks && i < |b.insts|
      ensures b.id in liveOut && (b.id, i) in at
      ensures forall v :: v in at[(b.id, i)] <==> WantedBefore(b.insts[i + 1..], liveOut[b.id], v)
    {
      assert Recorded(at, liveOut, b, 0);
      AllBeforeExactly(b.insts[i + 1..], liveOut[b.id]);
    }
  }

  /** The entries of one block are in place. */
  ghost predicate Recorded(at: map<(BlockId, nat), set<Value>>, liveOut: LiveMap, b: Block, from: nat) {
    b.id in liveOut &&
    forall i: nat | from <= i < |b.insts| ::
      (b.id, i) in at && at[(b.id, i)] == LiveBefore(b.insts[i + 1..], liveOut[b.id])
  }

  method RecordBlock(at: map<(BlockId, nat), set<Value>>, liveOut: LiveMap, b: Block)
    returns (at': map<(BlockId, nat), set<Value>>)
    requires b.id in liveOut
    ensures Recorded(at', liveOut, b, 0)
    ensures forall c, i | c != b.id && (c, i) in at :: (c, i) in at' && at'[(c, i)] == at[(c, i)]
  {
    at' := at;
    var live := liveOut[b.id];
    for idx := |b.insts| downto 0
      invariant live == LiveBefore(b.insts[idx..], liveOut[b.id])
      invariant Recorded(at', liveOut, b, idx)
      invariant forall c, i | c != b.id && (c, i) in at :: (c, i) in at' && at'[(c, i)] == at[(c, i)]
    {
      at' := at'[(b.id, idx) := live];
      assert b.insts[idx..][0] == b.insts[idx] && b.insts[idx..][1..] == b.insts[idx + 1..];
      live := live - DefSet(b.insts[idx]);
      if !b.insts[idx].Phi? {
        live := live + UseSet(b.insts[idx]);
      }
    }
  }

  method PerInstruction(f: Func, liveIn: LiveMap, liveOut: LiveMap) returns (at: map<(BlockId, nat), set<Value>>)
    requires UniqueIds(f) && Solution(f, liveIn, liveOut)
    ensures forall b | b in f.blocks :: Recorded(at, liveOut, b, 0)
  {
    at := map[];
    for k := 0 to |f.blocks|
      invariant forall j | 0 <= j < k :: Recorded(at, liveOut, f.blocks[j], 0)
    {
      assert Settled(f, liveIn, liveOut, f.blocks[k]);
      ghost var before := at;
      at := RecordBlock(at, liveOut, f.blocks[k]);
      forall j | 0 <= j < k ensures Recorded(at, liveOut, f.blocks[j], 0) {
        assert Recorded(before, liveOut, f.blocks[j], 0);
      }
    }
  }

  // ----- what liveness means at run time -----

  ghost predicate Agree(live: set<Value>, env: Env, env': Env) {
    forall v | v in live :: Get(env, v) == Get(env', v)
  }

  lemma {:induction false} PhisAgree(insts: seq<Inst>, p: BlockId, env: Env, env': Env)
    requires Agree(PhiInputs(insts, p), env, env')
    ensures PhiValues(insts, Some(p), env) == PhiValues(insts, Some(p), env')
  {
    if insts != [] {
      assert insts == [insts[0]] + insts[1..];
      assert PhiInputs(insts[1..], p) <= PhiInputs(insts, p);
      PhisAgree(insts[1..], p, env, env');
      if insts[0].Phi? && p in insts[0].operands { assert insts[0].operands[p] in PhiInputs(insts, p); }
    }
  }

  ghost predicate SameOutcome(out: set<Value>, o: Outcome, o': Outcome) {
    match o
    case Goto(t, env, trace) => o'.Goto? && o'.target == t && o'.trace == trace && Agree(out, env, o'.env)
    case Ret(v, trace) => o' == Ret(v, trace)
    case RanOff(trace) => o' == RanOff(trace)
  }

  /** The phis of the list, done on the edge, left the same values in both. */
  ghost predicate PhisSet(insts: seq<Inst>, env: Env, env': Env) {
    forall i | i in insts && i.Phi? :: Get(env, i.d) == Get(env', i.d)
  }

  /** One instruction turns agreement on what is live before it into agreement on what is live after it. */
  lemma InstAgree(I: Interp, types: map<Value, Type>, i: Inst, after: set<Value>, env: Env, env': Env, trace: Trace)
    requires FusedOk(i) && !IsTerminator(i)
    requires Agree((after - DefSet(i)) + (if i.Phi? then {} else UseSet(i)), env, env')
    requires i.Phi? ==> Get(env, i.d) == Get(env', i.d)
    ensures Exec(I, types, i, env, trace).1 == Exec(I, types, i, env', trace).1
    ensures Agree(after, Exec(I, types, i, env, trace).0, Exec(I, types, i, env', trace).0)
    ensures forall v | Get(env, v) == Get(env', v) ::
              Get(Exec(I, types, i, env, trace).0, v) == Get(Exec(I, types, i, env', trace).0, v)
  {
    var e, e' := Exec(I, types, i, env, trace).0, Exec(I, types, i, env', trace).0;
    ResultAgree(I, types, i, env, env', trace);
    forall v | v in after ensures Get(e, v) == Get(e', v) {
      if Def(i) != Some(v) {
        assert v in after - DefSet(i);
        KeptValue(I, types, i, env, env', trace, v);
      }
    }
  }

  /** The same operands give the same result and the same effects. */
  lemma ResultAgree(I: Interp, types: map<Value, Type>, i: Inst, env: Env, env': Env, trace: Trace)
    requires FusedOk(i) && !IsTerminator(i)
    requires if i.Phi? then Get(env, i.d) == Get(env', i.d) else Agree(UseSet(i), env, env')
    ensures Exec(I, types, i, env, trace).1 == Exec(I, types, i, env', trace).1
    ensures forall v: Value | Def(i) == Some(v) || Get(env, v) == Get(env', v) ::
              Get(Exec(I, types, i, env, trace).0, v) == Get(Exec(I, types, i, env', trace).0, v)
  {
    assert forall v | v in Uses(i) :: v in UseSet(i);
    assert !i.Phi? ==> GetAll(env, Uses(i)) == GetAll(env', Uses(i));
    if IsPureOp(i) { EvalFrame(I, types, i, env, env'); }
  }

  lemma KeptValue(I: Interp, types: map<Value, Type>, i: Inst, env: Env, env': Env, trace: Trace, v: Value)
    requires !IsTerminator(i) && Def(i) != Some(v) && Get(env, v) == Get(env', v)
    ensures Get(Exec(I, types, i, env, trace).0, v) == Get(Exec(I, types, i, env', trace).0, v)
  {
    ExecChangesOnlyDef(I, types, i, env, trace, v);
    ExecChangesOnlyDef(I, types, i, env', trace, v);
  }

  lemma TerminatorAgree(I: Interp, types: map<Value, Type>, i: Inst, out: set<Value>, env: Env, env': Env, trace: Trace)
    requires IsTerminator(i) && Agree(LiveBefore([i], out), env, env')
    ensures SameOutcome(out, ExecAll(I, types, [i], env, trace), ExecAll(I, types, [i], env', trace))
  {
    assert LiveBefore([i][1..], out) == out && DefSet(i) == {};
    assert out <= LiveBefore([i], out);
    if i.Branch? { assert i.cond in Uses(i); }
    if i.Return? && i.ret.Some? { assert i.ret.value in Uses(i); }
  }

  lemma {:induction false} ExecAgree(I: Interp, types: map<Value, Type>, insts: seq<Inst>, out: set<Value>,
                                     env: Env, env': Env, trace: Trace)
    requires forall i | i in insts :: FusedOk(i)
    requires forall k | 0 <= k < |insts| && IsTerminator(insts[k]) :: k == |insts| - 1
    requires Agree(LiveBefore(insts, out), env, env') && PhisSet(insts, env, env')
    ensures SameOutcome(out, ExecAll(I, types, insts, env, trace), ExecAll(I, types, insts, env', trace))
  {
    if insts != [] {
      var i := insts[0];
      assert i in insts;
      if IsTerminator(i) {
        assert insts == [i];
        TerminatorAgree(I, types, i, out, env, env', trace);
      } else {
        InstAgree(I, types, i, LiveBefore(insts[1..], out), env, env', trace);
        var (e, t) := Exec(I, types, i, env, trace);
        var (e', t') := Exec(I, types, i, env', trace);
        forall j | j in insts[1..] && j.Phi? ensures Get(e, j.d) == Get(e', j.d) {
          assert j in insts;
        }
        ExecAgree(I, types, insts[1..], out, e, e', t);
      }
    }
  }

  /** The states look alike and agree on what is live out of the block they come from. */
  ghost predicate Alike(f: Func, liveOut: LiveMap, st: State, st': State) {
    && Observe(st) == Observe(st')
    && (st.At? ==>
          && st'.At? && st.pred.Some? && Edge(f, st.pred.value, st.block)
          && st.pred.value in liveOut && Agree(liveOut[st.pred.value], st.env, st'.env))
  }

  /** Entering b from p with environments that agree on what b asks of that edge. */
  lemma StepAgree(I: Interp, f: Func, liveIn: LiveMap, liveOut: LiveMap, p: BlockId, b: BlockId, env: Env, env': Env,
                  trace: Trace)
    returns (next: State, next': State)
    requires ControlOk(f) && FusedListed(f) && Solution(f, liveIn, liveOut)
    requires Edge(f, p, b) && Agree(liveOut[p], env, env')
    ensures next == Step(I, f, At(b, Some(p), env, trace)) && next' == Step(I, f, At(b, Some(p), env', trace))
    ensures Alike(f, liveOut, next, next')
  {
    next, next' := Step(I, f, At(b, Some(p), env, trace)), Step(I, f, At(b, Some(p), env', trace));
    if Find(f.blocks, b).Some? {
      var blk, insts := Find(f.blocks, b).value, InstsOf(f, b);
      var from := Find(f.blocks, p).value;
      forall v | v in EdgeLive(f, liveIn, p, b) ensures Get(env, v) == Get(env', v) {
        assert v in OutOf(f, liveIn, from);
      }
      assert Agree(PhiInputs(insts, p), env, env');
      PhisAgree(insts, p, env, env');
      var e, e' := env + PhiValues(insts, Some(p), env), env' + PhiValues(insts, Some(p), env');
      forall v | v in liveIn[b] ensures Get(e, v) == Get(e', v) {
        PhiValuesDomain(insts, Some(p), env, v);
        if !PhiDef(insts, v) { assert v in EdgeLive(f, liveIn, p, b); }
      }
      forall i | i in insts && i.Phi? ensures Get(e, i.d) == Get(e', i.d) { PhiValuesDomain(insts, Some(p), env, i.d); }
      ExecAgreeFrom(I, f, b, 0, liveOut[b], e, e', trace);
      assert insts[0..] == insts;
    }
  }

  /** Running block b from instruction i on, in environments that agree on what is live there. */
  lemma ExecAgreeFrom(I: Interp, f: Func, b: BlockId, i: nat, out: set<Value>, env: Env, env': Env, trace: Trace)
    requires ControlOk(f) && FusedListed(f) && Find(f.blocks, b).Some? && i <= Len(f, b)
    requires Agree(LiveBefore(InstsOf(f, b)[i..], out), env, env') && PhisSet(InstsOf(f, b)[i..], env, env')
    ensures var o := ExecAll(I, f.types, InstsOf(f, b)[i..], env, trace);
            SameOutcome(out, o, ExecAll(I, f.types, InstsOf(f, b)[i..], env', trace))
              && (o.Goto? ==> Edge(f, b, o.target))
  {
    var insts := InstsOf(f, b);
    forall x | x in insts[i..] ensures FusedOk(x) {
      var k :| 0 <= k < |insts| && insts[k] == x;
      assert InstOf(f, b, k) == x;
    }
    forall k | 0 <= k < |insts[i..]| && IsTerminator(insts[i..][k]) ensures k == |insts[i..]| - 1 {
      assert InstOf(f, b, i + k) == insts[i..][k];
    }
    ExecAgree(I, f.types, insts[i..], out, env, env', trace);
    ExecTarget(I, f, b, i, env, trace);
  }

  lemma {:induction false} ExecTarget(I: Interp, f: Func, b: BlockId, i: nat, env: Env, trace: Trace)
    requires ControlOk(f) && Find(f.blocks, b).Some? && i <= Len(f, b)
    ensures var o := ExecAll(I, f.types, InstsOf(f, b)[i..], env, trace); o.Goto? ==> Edge(f, b, o.target)
    decreases Len(f, b) - i
  {
    var insts := InstsOf(f, b);
    if i < |insts| {
      assert insts[i..][0] == InstOf(f, b, i) && insts[i..][1..] == insts[i + 1..];
      assert JumpsAlongEdges(f, b, InstOf(f, b, i));
      if !IsTerminator(insts[i]) {
        var (e, t) := Exec(I, f.types, insts[i], env, trace);
        ExecTarget(I, f, b, i + 1, e, t);
      }
    }
  }

  lemma NextAlike(I: Interp, f: Func, liveIn: LiveMap, liveOut: LiveMap, st: State, st': State)
    requires ControlOk(f) && FusedListed(f) && Solution(f, liveIn, liveOut) && Alike(f, liveOut, st, st')
    ensures Alike(f, liveOut, Step(I, f, st), Step(I, f, st'))
  {
    if st.At? {
      var next, next' := StepAgree(I, f, liveIn, liveOut, st.pred.value, st.block, st.env, st'.env, st.trace);
    }
  }

  lemma {:induction false} RunsAlike(I: Interp, f: Func, liveIn: LiveMap, liveOut: LiveMap, st: State, st': State,
                                     n: nat)
    requires ControlOk(f) && FusedListed(f) && Solution(f, liveIn, liveOut) && Alike(f, liveOut, st, st')
    ensures Alike(f, liveOut, Run(I, f, st, n), Run(I, f, st', n))
  {
    if n > 0 {
      RunsAlike(I, f, liveIn, liveOut, st, st', n - 1);
      NextAlike(I, f, liveIn, liveOut, Run(I, f, st, n - 1), Run(I, f, st', n - 1));
    }
  }

  /** Environments that agree on live_out at the end of p give the same continuation through every successor. */
  lemma LiveOutSuffices(I: Interp, f: Func, liveIn: LiveMap, liveOut: LiveMap, p: BlockId, b: BlockId,
                        env: Env, env': Env, trace: Trace, n: nat)
    requires ControlOk(f) && FusedListed(f) && Solution(f, liveIn, liveOut)
    requires Edge(f, p, b) && Agree(liveOut[p], env, env')
    ensures Observe(Run(I, f, At(b, Some(p), env, trace), n)) == Observe(Run(I, f, At(b, Some(p), env', trace), n))
  {
    RunsAlike(I, f, liveIn, liveOut, At(b, Some(p), env, trace), At(b, Some(p), env', trace), n);
  }

  /** The state after running block b from instruction i on. */
  function Resume(I: Interp, f: Func, b: BlockId, i: nat, env: Env, trace: Trace): State
    requires Find(f.blocks, b).Some? && i <= Len(f, b)
  {
    match ExecAll(I, f.types, InstsOf(f, b)[i..], env, trace)
    case Goto(t, env', trace') => At(t, Some(b), env', trace')
    case Ret(v, trace') => Halted(v, trace')
    case RanOff(trace') => Stuck(trace')
  }

  lemma LaterPhis(f: Func, b: BlockId, i: nat, env: Env, env': Env)
    requires PhisFirst(f) && HasInst(f, b, i)
    requires InstOf(f, b, i).Phi? ==> PhisSet(InstsOf(f, b)[i + 1..], env, env')
    ensures PhisSet(InstsOf(f, b)[i + 1..], env, env')
  {
    var insts := InstsOf(f, b);
    forall x | x in insts[i + 1..] && x.Phi? ensures InstOf(f, b, i).Phi? {
      var k :| 0 <= k < |insts[i + 1..]| && insts[i + 1..][k] == x;
      assert InstOf(f, b, i + 1 + k) == x;
    }
  }

  /** Likewise inside a block: after instruction i, agreement on inst_live_out fixes everything still to be
      observed. After a phi, the later phis of the block, set together with it on the edge, agree as well. */
  lemma InstLiveOutSuffices(I: Interp, f: Func, r: Results, b: BlockId, i: nat, env: Env, env': Env, trace: Trace,
                            n: nat)
    requires ControlOk(f) && FusedListed(f) && PhisFirst(f) && Solution(f, r.liveIn, r.liveOut)
    requires HasInst(f, b, i) && (InstOf(f, b, i).Phi? ==> PhisSet(InstsOf(f, b)[i + 1..], env, env'))
    requires (b, i) in r.instLiveOut && r.instLiveOut[(b, i)] == LiveBefore(InstsOf(f, b)[i + 1..], r.liveOut[b])
    requires Agree(r.instLiveOut[(b, i)], env, env')
    ensures Observe(Run(I, f, Resume(I, f, b, i + 1, env, trace), n))
            == Observe(Run(I, f, Resume(I, f, b, i + 1, env', trace), n))
  {
    LaterPhis(f, b, i, env, env');
    ExecAgreeFrom(I, f, b, i + 1, r.liveOut[b], env, env', trace);
    var st, st' := Resume(I, f, b, i + 1, env, trace), Resume(I, f, b, i + 1, env', trace);
    RunsAlike(I, f, r.liveIn, r.liveOut, st, st', n);
  }
}
