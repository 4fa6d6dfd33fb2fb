/** A front end at work: the builder calls for a loop, ending in a finished, well-formed graph. */
module SsaClient {
  import opened Types
  import opened Ir
  import opened Ssa
  import opened SsaState
  import opened SsaSteps
  import opened SsaBuilder
  import opened SsaMeaning
  import opened SsaOutput

  datatype Ends = Ends(preds: seq<BlockId>, succs: seq<BlockId>)

  /** What the front end knows of the builder: the edges, the sealed blocks, what it did in each block,
      and that x is the only variable and assigned in the entry. */
  ghost predicate Looks(s: Builder, ends: seq<Ends>, sealed: set<BlockId>, log: seq<seq<Item>>, x: Var) {
    && |s.blocks| == |ends| > 0 && s.log == log && s.sealed == sealed && s.pending == {}
    && (forall b | 0 <= b < |ends| :: s.blocks[b].preds == ends[b].preds && s.blocks[b].succs == ends[b].succs)
    && s.defs.Keys <= {x} && Out(s, x, 0).Some?
  }

  /** Every sealed block but the entry has a predecessor. */
  predicate OneRoot(ends: seq<Ends>, sealed: set<BlockId>) {
    forall b | b in sealed && 0 < b < |ends| :: ends[b].preds != []
  }

  function Push(log: seq<seq<Item>>, b: BlockId, item: Item): seq<seq<Item>>
    requires b < |log|
  {
    log[b := log[b] + [item]]
  }

  function Link(ends: seq<Ends>, p: BlockId, b: BlockId): seq<Ends>
    requires p < |ends| && b < |ends|
  {
    var mid := ends[p := ends[p].(succs := PushNew(ends[p].succs, b))];
    mid[b := mid[b].(preds := PushNew(mid[b].preds, p))]
  }

  /** x is assigned in the only sealed block without predecessors. */
  ghost predicate Rooted(s: Builder, ends: seq<Ends>, x: Var) {
    && |s.blocks| == |ends| > 0 && (forall b | 0 <= b < |ends| :: s.blocks[b].preds == ends[b].preds)
    && OneRoot(ends, s.sealed) && Out(s, x, 0).Some?
  }

  lemma NoDeadEnd(s: Builder, ends: seq<Ends>, x: Var, p: seq<BlockId>)
    requires Rooted(s, ends, x)
    ensures !DeadEnd(s, x, p)
  {
    if |p| > 0 && p[|p| - 1] < |ends| { assert s.blocks[p[|p| - 1]].preds == ends[p[|p| - 1]].preds; }
  }

  /** So x is assigned on every backward walk. */
  lemma NeverUnbound(s: Builder, ends: seq<Ends>, x: Var)
    requires Rooted(s, ends, x)
    ensures forall b: BlockId :: !Unassigned(s, x, b)
  {
    forall b: BlockId ensures !Unassigned(s, x, b) {
      forall p | |p| > 0 && p[0] == b ensures !DeadEnd(s, x, p) { NoDeadEnd(s, ends, x, p); }
    }
  }

  method Emitting(c: CFGBuilder, b: BlockId, i: Inst,
                  ghost ends: seq<Ends>, ghost sealed: set<BlockId>, ghost log: seq<seq<Item>>, ghost x: Var)
    requires c.Valid() && Looks(c.State(), ends, sealed, log, x) && b < |ends| && |log| == |ends| && !i.Phi?
    requires Def(i).Some? ==> Def(i).value < c.func.valueCount && Def(i).value !in c.site
    modifies c, c.func
    ensures c.Valid() && Looks(c.State(), ends, sealed, Push(log, b, Do(i)), x)
  {
    c.AddInstruction(b, i);
  }

  method Assigning(c: CFGBuilder, b: BlockId, v: Value,
                   ghost ends: seq<Ends>, ghost sealed: set<BlockId>, ghost log: seq<seq<Item>>, x: Var)
    requires c.Valid() && Looks(c.State(), ends, sealed, log, x) && b < |ends| == |log| && ends[b].succs == []
    modifies c
    ensures c.Valid() && Looks(c.State(), ends, sealed, Push(log, b, Write(x, v)), x)
  {
    c.Assign(x, b, v);
  }

  method Fresh(c: CFGBuilder, ghost ends: seq<Ends>, ghost sealed: set<BlockId>, ghost log: seq<seq<Item>>,
               ghost x: Var)
    returns (v: Value)
    requires c.Valid() && Looks(c.State(), ends, sealed, log, x)
    modifies c.func
    ensures c.Valid() && Looks(c.State(), ends, sealed, log, x)
    ensures v < c.func.valueCount && v !in c.site
  {
    assert ValueOk(c.State(), c.func.valueCount);
    v := c.FreshValue();
  }

  method Linking(c: CFGBuilder, p: BlockId, b: BlockId,
                 ghost ends: seq<Ends>, ghost sealed: set<BlockId>, ghost log: seq<seq<Item>>, ghost x: Var)
    requires c.Valid() && Looks(c.State(), ends, sealed, log, x) && p < |ends| && b < |ends|
    requires b !in sealed && (p in sealed || ends[p].preds != [])
    modifies c.func
    ensures c.Valid() && Looks(c.State(), Link(ends, p, b), sealed, log, x)
  {
    c.LinkBlocks(p, b);
  }

  method Using(c: CFGBuilder, b: BlockId,
               ghost ends: seq<Ends>, ghost sealed: set<BlockId>, ghost log: seq<seq<Item>>, x: Var) returns (v: Value)
    requires c.Valid() && Looks(c.State(), ends, sealed, log, x) && OneRoot(ends, sealed)
    requires b < |ends| == |log|
    modifies c, c.func
    ensures c.Valid() && Looks(c.State(), ends, sealed, Push(log, b, Read(x, v)), x)
  {
    ghost var s := c.State();
    NeverUnbound(s, ends, x);
    var r := c.Use(x, b);
    v := r.value;
    SameEndsKept(s, c.State().(log := s.log), ends);
  }

  lemma SameEndsKept(s: Builder, t: Builder, ends: seq<Ends>)
    requires SameGraph(s, t) && |s.blocks| == |ends|
    requires forall b | 0 <= b < |ends| :: s.blocks[b].preds == ends[b].preds && s.blocks[b].succs == ends[b].succs
    ensures |t.blocks| == |ends|
    ensures forall b | 0 <= b < |ends| :: t.blocks[b].preds == ends[b].preds && t.blocks[b].succs == ends[b].succs
  {
    forall b | 0 <= b < |ends| ensures t.blocks[b].preds == ends[b].preds && t.blocks[b].succs == ends[b].succs {
      assert SameEnds(s.blocks[b], t.blocks[b]);
    }
  }

  /** A variable that waits for operands has been recorded, so it is x. */
  lemma OnlyXWaits(s: Builder, b: BlockId, x: Var)
    requires Inv(s) && s.defs.Keys <= {x}
    ensures Waiting(s.incomplete, b) <= {x}
  {
    forall y | y in Waiting(s.incomplete, b) ensures y == x {
      assert VarsOk(s, y, b) && ValueOk(s, s.incomplete[b][y]);
      CurSome(s.log[b], y, Inval(s, y, b), |s.log[b]|);
    }
  }

  lemma {:induction false} CurSome(items: seq<Item>, x: Var, init: Option<Value>, i: nat)
    requires i <= |items| && init.Some?
    ensures Cur(items, x, init, i).Some?
    decreases i
  {
    if i > 0 { CurSome(items, x, init, i - 1); }
  }

  method Sealing(c: CFGBuilder, b: BlockId,
                 ghost ends: seq<Ends>, ghost sealed: set<BlockId>, ghost log: seq<seq<Item>>, ghost x: Var)
    requires c.Valid() && Looks(c.State(), ends, sealed, log, x) && b < |ends| && OneRoot(ends, sealed + {b})
    modifies c, c.func
    ensures c.Valid() && Looks(c.State(), ends, sealed + {b}, log, x)
  {
    ghost var s := c.State();
    ghost var mid := SealedBlock(s, b);
    OnlyXWaits(s, b, x);
    NeverUnbound(mid, ends, x);
    var r := c.SealBlock(b);
    SameEndsKept(mid, c.State(), ends);
  }

  // ----- x := 10; while x: x := x - 1; return x -----

  function EntryLog(x: Var, ten: Value): seq<Item> {
    [Do(ConstInt(ten, 10)), Write(x, ten), Do(Jump(1))]
  }

  function HeadLog(x: Var, head: Value): seq<Item> {
    [Read(x, head), Do(Branch(head, 2, 3))]
  }

  function BodyLog(x: Var, old_: Value, one: Value, less: Value): seq<Item> {
    [Do(Nop), Read(x, old_), Do(ConstInt(one, 1)), Do(Arith(Sub, less, old_, one)), Write(x, less), Do(Jump(1))]
  }

  function ExitLog(x: Var, last: Value): seq<Item> {
    [Do(Nop), Read(x, last), Do(Return(Some(last)))]
  }

  function Entered(): seq<Ends> {
    [Ends([], [1]), Ends([0], []), Ends([], []), Ends([], [])]
  }

  function Branched(): seq<Ends> {
    [Ends([], [1]), Ends([0], [2, 3]), Ends([1], []), Ends([1], [])]
  }

  function Looped(): seq<Ends> {
    [Ends([], [1]), Ends([0, 2], [2, 3]), Ends([1], [1]), Ends([1], [])]
  }

  method BuildCountdown(x: Var, types: map<Value, Type>) returns (c: CFGBuilder)
    ensures fresh(c) && c.Valid() && Complete(c.State()) && Disciplined(c.State())
    ensures WellFormed(Built(c.State(), types))
  {
    var ten, head, old_, one, less, last;
    c, ten := Start(x);
    head := Head(c, x, ten);
    old_, one, less := Body(c, x, ten, head);
    last := Exit(c, x, [EntryLog(x, ten), HeadLog(x, head), BodyLog(x, old_, one, less), []]);
    CountdownComplete(c.State(), x, ten, head, old_, one, less, last);
    BuiltWellFormed(c.State(), types);
  }

  method Start(x: Var) returns (c: CFGBuilder, ten: Value)
    ensures fresh(c) && fresh(c.func) && c.Valid()
    ensures Looks(c.State(), Entered(), {0}, [EntryLog(x, ten), [], [], []], x)
  {
    c := new CFGBuilder();
    ten := c.FreshValue();
    ghost var s := c.State();
    assert ValueOk(s, ten);
    c.AddInstruction(0, ConstInt(ten, 10));
    c.Assign(x, 0, ten);
    AssignedLooks(s, x, 10, ten, c.State());
    AddBlocks(c, x, ten);
  }

  /** After x := n in the entry. */
  lemma AssignedLooks(s: Builder, x: Var, n: int, v: Value, t: Builder)
    requires s == NewValue(Initial()) && t == Assigned(Emit(s, 0, ConstInt(v, n)), x, 0, v)
    ensures Looks(t, [Ends([], [])], {0}, [[Do(ConstInt(v, n)), Write(x, v)]], x)
  {
    assert [] + [Do(ConstInt(v, n))] + [Write(x, v)] == [Do(ConstInt(v, n)), Write(x, v)];
    assert t.log[0] == [Do(ConstInt(v, n)), Write(x, v)];
  }

  method Adding(c: CFGBuilder, ghost ends: seq<Ends>, ghost sealed: set<BlockId>, ghost log: seq<seq<Item>>,
                ghost x: Var)
    returns (b: BlockId)
    requires c.Valid() && Looks(c.State(), ends, sealed, log, x)
    modifies c, c.func
    ensures c.Valid() && b == |ends| && Looks(c.State(), ends + [Ends([], [])], sealed, log + [[]], x)
  {
    b := c.CreateBlock();
  }

  method AddBlocks(c: CFGBuilder, x: Var, ten: Value)
    requires c.Valid() && Looks(c.State(), [Ends([], [])], {0}, [[Do(ConstInt(ten, 10)), Write(x, ten)]], x)
    modifies c, c.func
    ensures c.Valid() && Looks(c.State(), Entered(), {0}, [EntryLog(x, ten), [], [], []], x)
  {
    ghost var done := [Do(ConstInt(ten, 10)), Write(x, ten)];
    AddThree(c, x, done);
    Emitting(c, 0, Jump(1), Unlinked(), {0}, [done, [], [], []], x);
    EntryDone(x, ten);
    Linking(c, 0, 1, Unlinked(), {0}, [EntryLog(x, ten), [], [], []], x);
    LinkedEntry();
  }

  function Unlinked(): seq<Ends> {
    [Ends([], []), Ends([], []), Ends([], []), Ends([], [])]
  }

  lemma EntryDone(x: Var, ten: Value)
    ensures Push([[Do(ConstInt(ten, 10)), Write(x, ten)], [], [], []], 0, Do(Jump(1))) == [EntryLog(x, ten), [], [], []]
  {
    assert [Do(ConstInt(ten, 10)), Write(x, ten)] + [Do(Jump(1))] == EntryLog(x, ten);
  }

  method AddThree(c: CFGBuilder, x: Var, ghost done: seq<Item>)
    requires c.Valid() && Looks(c.State(), [Ends([], [])], {0}, [done], x)
    modifies c, c.func
    ensures c.Valid() && Looks(c.State(), Unlinked(), {0}, [done, [], [], []], x)
  {
    var head := Adding(c, [Ends([], [])], {0}, [done], x);
    var body := Adding(c, [Ends([], [])] + [Ends([], [])], {0}, [done] + [[]], x);
    var exit := Adding(c, [Ends([], [])] + [Ends([], [])] + [Ends([], [])], {0}, [done] + [[]] + [[]], x);
    assert [done] + [[]] + [[]] + [[]] == [done, [], [], []];
    assert [Ends([], [])] + [Ends([], [])] + [Ends([], [])] + [Ends([], [])] == Unlinked();
  }

  lemma LinkedEntry()
    ensures Link(Unlinked(), 0, 1) == Entered()
  {
    assert PushNew([], 0) == [0] && PushNew([], 1) == [1];
  }

  lemma LinkedHead()
    ensures Link(Link(Entered(), 1, 2), 1, 3) == Branched()
  {
    assert PushNew([], 1) == [1] && PushNew([], 2) == [2] && PushNew([2], 3) == [2] + [3] == [2, 3];
  }

  lemma LinkedBack()
    ensures Link(Branched(), 2, 1) == Looped()
  {
    assert PushNew([], 1) == [1] && PushNew([0], 2) == [0] + [2] == [0, 2];
  }

  /** The loop header is read before its back edge is known. */
  method Head(c: CFGBuilder, x: Var, ghost ten: Value) returns (head: Value)
    requires c.Valid() && Looks(c.State(), Entered(), {0}, [EntryLog(x, ten), [], [], []], x)
    modifies c, c.func
    ensures c.Valid() && Looks(c.State(), Branched(), {0, 2}, [EntryLog(x, ten), HeadLog(x, head), [], []], x)
  {
    head := ReadHead(c, x, ten);
    ghost var log := [EntryLog(x, ten), HeadLog(x, head), [], []];
    LinkBranch(c, log, x);
    Sealing(c, 2, Branched(), {0}, log, x);
  }

  method ReadHead(c: CFGBuilder, x: Var, ghost ten: Value) returns (head: Value)
    requires c.Valid() && Looks(c.State(), Entered(), {0}, [EntryLog(x, ten), [], [], []], x)
    modifies c, c.func
    ensures c.Valid() && Looks(c.State(), Entered(), {0}, [EntryLog(x, ten), HeadLog(x, head), [], []], x)
  {
    ghost var log := [EntryLog(x, ten), [], [], []];
    head := Using(c, 1, Entered(), {0}, log, x);
    log := Push(log, 1, Read(x, head));
    Emitting(c, 1, Branch(head, 2, 3), Entered(), {0}, log, x);
    HeadDone(x, ten, head);
  }

  lemma HeadDone(x: Var, ten: Value, head: Value)
    ensures Push(Push([EntryLog(x, ten), [], [], []], 1, Read(x, head)), 1, Do(Branch(head, 2, 3)))
         == [EntryLog(x, ten), HeadLog(x, head), [], []]
  {
    assert [] + [Read(x, head)] + [Do(Branch(head, 2, 3))] == HeadLog(x, head);
  }

  method LinkBranch(c: CFGBuilder, ghost log: seq<seq<Item>>, ghost x: Var)
    requires c.Valid() && Looks(c.State(), Entered(), {0}, log, x)
    modifies c.func
    ensures c.Valid() && Looks(c.State(), Branched(), {0}, log, x)
  {
    LinkedHead();
    Linking(c, 1, 2, Entered(), {0}, log, x);
    Linking(c, 1, 3, Link(Entered(), 1, 2), {0}, log, x);
  }

  method Body(c: CFGBuilder, x: Var, ghost ten: Value, ghost head: Value) returns (old_: Value, one: Value, less: Value)
    requires c.Valid() && Looks(c.State(), Branched(), {0, 2}, [EntryLog(x, ten), HeadLog(x, head), [], []], x)
    modifies c, c.func
    ensures c.Valid()
    ensures Looks(c.State(), Looped(), {0, 1, 2},
                  [EntryLog(x, ten), HeadLog(x, head), BodyLog(x, old_, one, less), []], x)
  {
    ghost var log := [EntryLog(x, ten), HeadLog(x, head), [], []];
    old_, one, less := Decrement(c, x, log);
    log := log[2 := BodyLog(x, old_, one, less)];
    assert log == [EntryLog(x, ten), HeadLog(x, head), BodyLog(x, old_, one, less), []];
    Linking(c, 2, 1, Branched(), {0, 2}, log, x);
    LinkedBack();
    Sealing(c, 1, Looped(), {0, 2}, log, x);
    assert {0, 2} + {1} == {0, 1, 2};
  }

  method Decrement(c: CFGBuilder, x: Var, ghost log: seq<seq<Item>>) returns (old_: Value, one: Value, less: Value)
    requires c.Valid() && Looks(c.State(), Branched(), {0, 2}, log, x) && |log| == 4 && log[2] == []
    modifies c, c.func
    ensures c.Valid() && Looks(c.State(), Branched(), {0, 2}, log[2 := BodyLog(x, old_, one, less)], x)
  {
    ghost var done: seq<seq<Item>>;
    old_, one, done := ReadAndOne(c, x, log);
    less, done := Less(c, x, old_, one, done);
    Assigning(c, 2, less, Branched(), {0, 2}, done, x);
    done := Push(done, 2, Write(x, less));
    Emitting(c, 2, Jump(1), Branched(), {0, 2}, done, x);
    BodyDone(x, old_, one, less, log);
  }

  lemma BodyDone(x: Var, old_: Value, one: Value, less: Value, log: seq<seq<Item>>)
    requires |log| == 4
    ensures var read := log[2 := [Do(Nop), Read(x, old_), Do(ConstInt(one, 1))]];
            Push(Push(Push(read, 2, Do(Arith(Sub, less, old_, one))), 2, Write(x, less)), 2, Do(Jump(1)))
              == log[2 := BodyLog(x, old_, one, less)]
  {
    var start := [Do(Nop), Read(x, old_), Do(ConstInt(one, 1))];
    assert start + [Do(Arith(Sub, less, old_, one))] + [Write(x, less)] + [Do(Jump(1))] == BodyLog(x, old_, one, less);
  }

  method Less(c: CFGBuilder, x: Var, old_: Value, one: Value, ghost log: seq<seq<Item>>)
    returns (less: Value, ghost done: seq<seq<Item>>)
    requires c.Valid() && Looks(c.State(), Branched(), {0, 2}, log, x) && |log| == 4
    modifies c, c.func
    ensures c.Valid() && Looks(c.State(), Branched(), {0, 2}, done, x)
    ensures done == Push(log, 2, Do(Arith(Sub, less, old_, one)))
  {
    less := Fresh(c, Branched(), {0, 2}, log, x);
    Emitting(c, 2, Arith(Sub, less, old_, one), Branched(), {0, 2}, log, x);
    done := Push(log, 2, Do(Arith(Sub, less, old_, one)));
  }

  method ReadAndOne(c: CFGBuilder, x: Var, ghost log: seq<seq<Item>>)
    returns (old_: Value, one: Value, ghost done: seq<seq<Item>>)
    requires c.Valid() && Looks(c.State(), Branched(), {0, 2}, log, x) && |log| == 4 && log[2] == []
    modifies c, c.func
    ensures c.Valid() && Looks(c.State(), Branched(), {0, 2}, done, x)
    ensures done == log[2 := [Do(Nop), Read(x, old_), Do(ConstInt(one, 1))]]
  {
    old_, done := ReadInBody(c, x, log);
    one := Fresh(c, Branched(), {0, 2}, done, x);
    Emitting(c, 2, ConstInt(one, 1), Branched(), {0, 2}, done, x);
    done := Push(done, 2, Do(ConstInt(one, 1)));
    assert done[2] == [Do(Nop), Read(x, old_), Do(ConstInt(one, 1))];
  }

  method ReadInBody(c: CFGBuilder, x: Var, ghost log: seq<seq<Item>>)
    returns (old_: Value, ghost done: seq<seq<Item>>)
    requires c.Valid() && Looks(c.State(), Branched(), {0, 2}, log, x) && |log| == 4 && log[2] == []
    modifies c, c.func
    ensures c.Valid() && Looks(c.State(), Branched(), {0, 2}, done, x) && done == log[2 := [Do(Nop), Read(x, old_)]]
  {
    Emitting(c, 2, Nop, Branched(), {0, 2}, log, x);
    done := Push(log, 2, Do(Nop));
    old_ := Using(c, 2, Branched(), {0, 2}, done, x);
    done := Push(done, 2, Read(x, old_));
    assert [] + [Do(Nop)] + [Read(x, old_)] == [Do(Nop), Read(x, old_)];
  }

  method Exit(c: CFGBuilder, x: Var, ghost log: seq<seq<Item>>) returns (last: Value)
    requires c.Valid() && Looks(c.State(), Looped(), {0, 1, 2}, log, x) && |log| == 4 && log[3] == []
    modifies c, c.func
    ensures c.Valid() && Looks(c.State(), Looped(), {0, 1, 2, 3}, log[3 := ExitLog(x, last)], x)
  {
    ghost var done := SealExit(c, x, log);
    last := Using(c, 3, Looped(), {0, 1, 2, 3}, done, x);
    done := Push(done, 3, Read(x, last));
    Emitting(c, 3, Return(Some(last)), Looped(), {0, 1, 2, 3}, done, x);
    ExitDone(x, last, log);
  }

  lemma ExitDone(x: Var, last: Value, log: seq<seq<Item>>)
    requires |log| == 4
    ensures Push(Push(log[3 := [Do(Nop)]], 3, Read(x, last)), 3, Do(Return(Some(last)))) == log[3 := ExitLog(x, last)]
  {
    assert [Do(Nop)] + [Read(x, last)] + [Do(Return(Some(last)))] == ExitLog(x, last);
  }

  /** The exit block is sealed last. */
  method SealExit(c: CFGBuilder, x: Var, ghost log: seq<seq<Item>>) returns (ghost done: seq<seq<Item>>)
    requires c.Valid() && Looks(c.State(), Looped(), {0, 1, 2}, log, x) && |log| == 4 && log[3] == []
    modifies c, c.func
    ensures c.Valid() && Looks(c.State(), Looped(), {0, 1, 2, 3}, done, x) && done == log[3 := [Do(Nop)]]
  {
    Emitting(c, 3, Nop, Looped(), {0, 1, 2}, log, x);
    done := Push(log, 3, Do(Nop));
    assert [] + [Do(Nop)] == [Do(Nop)];
    Sealing(c, 3, Looped(), {0, 1, 2}, done, x);
    assert {0, 1, 2} + {3} == {0, 1, 2, 3};
  }

  lemma CountdownComplete(s: Builder, x: Var, ten: Value, head: Value, old_: Value, one: Value, less: Value,
                          last: Value)
    requires Inv(s)
    requires Looks(s, Looped(), {0, 1, 2, 3},
                   [EntryLog(x, ten), HeadLog(x, head), BodyLog(x, old_, one, less), ExitLog(x, last)], x)
    ensures Complete(s) && Disciplined(s)
  {
    forall b: BlockId, k: nat | b < |s.log| && k < |s.log[b]| ensures ItemOk(s, b, k) {
      if b == 0 { EntryOk(s, x, ten, k); }
      else if b == 1 { HeadOk(s, x, head, k); }
      else if b == 2 { BodyOk(s, x, old_, one, less, k); }
      else { ExitOk(s, x, last, k); }
    }
  }

  /** An earlier item gives the value. */
  lemma GivenAvailable(s: Builder, b: BlockId, j: nat, k: nat, v: Value)
    requires b < |s.log| && j < k <= |s.log[b]| && Gives(s.log[b][j], v)
    ensures Available(s, b, k, v)
  {
  }

  lemma EntryOk(s: Builder, x: Var, ten: Value, k: nat)
    requires |s.log| > 0 && s.log[0] == EntryLog(x, ten) && k < 3 && HasSucc(s, 0, 1)
    ensures ItemOk(s, 0, k)
  {
    if k == 1 { GivenAvailable(s, 0, 0, 1, ten); }
  }

  lemma HeadOk(s: Builder, x: Var, head: Value, k: nat)
    requires |s.log| > 1 && s.log[1] == HeadLog(x, head) && k < 2 && HasSucc(s, 1, 2) && HasSucc(s, 1, 3)
    ensures ItemOk(s, 1, k)
  {
    if k == 1 { GivenAvailable(s, 1, 0, 1, head); }
  }

  lemma BodyOk(s: Builder, x: Var, old_: Value, one: Value, less: Value, k: nat)
    requires |s.log| > 2 && s.log[2] == BodyLog(x, old_, one, less) && k < 6 && HasSucc(s, 2, 1)
    ensures ItemOk(s, 2, k)
  {
    if k == 3 {
      GivenAvailable(s, 2, 1, 3, old_);
      GivenAvailable(s, 2, 2, 3, one);
    } else if k == 4 {
      GivenAvailable(s, 2, 3, 4, less);
    }
  }

  lemma ExitOk(s: Builder, x: Var, last: Value, k: nat)
    requires |s.log| > 3 && s.log[3] == ExitLog(x, last) && k < 3
    ensures ItemOk(s, 3, k)
  {
    if k == 2 { GivenAvailable(s, 3, 1, 2, last); }
  }

  // ----- x := 1; return x; return x -----

  function TwiceLog(x: Var, one: Value, first: Value, second: Value): seq<Item> {
    [Do(ConstInt(one, 1)), Write(x, one)]
    + [Read(x, first), Do(Return(Some(first))), Read(x, second), Do(Return(Some(second)))]
  }

  /** The statement visitor goes on after a return, and so the finished graph is not well-formed. */
  method BuildReturnTwice(x: Var, types: map<Value, Type>) returns (c: CFGBuilder)
    ensures fresh(c) && c.Valid() && Complete(c.State()) && AllSourced(c.State())
    ensures !WellFormed(Built(c.State(), types))
  {
    c := new CFGBuilder();
    var one := c.FreshValue();
    ghost var s := c.State();
    assert ValueOk(s, one);
    c.AddInstruction(0, ConstInt(one, 1));
    c.Assign(x, 0, one);
    AssignedLooks(s, x, 1, one, c.State());
    var first, second := Returning(c, x, one);
    TwiceMisplaced(c.State(), x, one, first, second);
    WellFormedExactly(c.State(), types);
  }

  method Returning(c: CFGBuilder, x: Var, ghost one: Value) returns (first: Value, second: Value)
    requires c.Valid() && Looks(c.State(), [Ends([], [])], {0}, [[Do(ConstInt(one, 1)), Write(x, one)]], x)
    modifies c, c.func
    ensures c.Valid() && Looks(c.State(), [Ends([], [])], {0}, [TwiceLog(x, one, first, second)], x)
  {
    ghost var log := [[Do(ConstInt(one, 1)), Write(x, one)]];
    first, log := ReturnX(c, x, log);
    second, log := ReturnX(c, x, log);
    assert log[0] == TwiceLog(x, one, first, second);
    assert log == [TwiceLog(x, one, first, second)];
  }

  method ReturnX(c: CFGBuilder, x: Var, ghost log: seq<seq<Item>>) returns (v: Value, ghost done: seq<seq<Item>>)
    requires c.Valid() && |log| == 1 && Looks(c.State(), [Ends([], [])], {0}, log, x)
    modifies c, c.func
    ensures done == [log[0] + [Read(x, v)] + [Do(Return(Some(v)))]]
    ensures c.Valid() && Looks(c.State(), [Ends([], [])], {0}, done, x)
  {
    v := Using(c, 0, [Ends([], [])], {0}, log, x);
    done := Push(log, 0, Read(x, v));
    Emitting(c, 0, Return(Some(v)), [Ends([], [])], {0}, done, x);
    done := Push(done, 0, Do(Return(Some(v))));
  }

  lemma TwiceMisplaced(s: Builder, x: Var, one: Value, first: Value, second: Value)
    requires Inv(s) && Looks(s, [Ends([], [])], {0}, [TwiceLog(x, one, first, second)], x)
    ensures Complete(s) && AllSourced(s) && !AllPlaced(s)
  {
    assert s.log[0][3] == Do(Return(Some(first))) && s.log[0][5] == Do(Return(Some(second)));
    assert !Placed(s, 0, 3);
    forall b: BlockId, k: nat | b < |s.log| && k < |s.log[b]| ensures Sourced(s, b, k) {
      TwiceSourced(s, x, one, first, second, k);
    }
  }

  lemma TwiceSourced(s: Builder, x: Var, one: Value, first: Value, second: Value, k: nat)
    requires |s.log| > 0 && s.log[0] == TwiceLog(x, one, first, second) && k < 6
    ensures Sourced(s, 0, k)
  {
    if k == 1 {
      GivenAvailable(s, 0, 0, 1, one);
    } else if k == 3 {
      GivenAvailable(s, 0, 2, 3, first);
    } else if k == 5 {
      GivenAvailable(s, 0, 4, 5, second);
    }
  }
}
