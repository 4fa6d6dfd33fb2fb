/** The run of a built function is, block by block, the run on source variables along the path it takes. */
module SsaRuns {
  import opened Types
  import opened Ir
  import opened Ssa
  import opened SsaState
  import opened SsaMeaning
  import opened SsaOutput

  /** What is left to run after m emitted instructions; a terminator stays where it is. */
  function Remaining(all: seq<Inst>, m: nat): seq<Inst>
    requires m <= |all|
  {
    if m > 0 && IsTerminator(all[m - 1]) then [all[m - 1]] else all[m..]
  }

  lemma RemainingStep(I: Interp, types: map<Value, Type>, all: seq<Inst>, m: nat, env: Env, trace: Trace)
    requires m < |all| && forall k | 0 <= k < |all| && IsTerminator(all[k]) :: k == |all| - 1
    ensures if IsTerminator(all[m]) then Remaining(all, m) == Remaining(all, m + 1)
            else
              var (e, t) := Exec(I, types, all[m], env, trace);
              ExecAll(I, types, Remaining(all, m), env, trace) == ExecAll(I, types, Remaining(all, m + 1), e, t)
  {
    assert all[m..][0] == all[m] && all[m..][1..] == all[m + 1..];
    assert !(m > 0 && IsTerminator(all[m - 1]));
    if IsTerminator(all[m]) { assert all[m..] == [all[m]]; }
  }

  /** One item against the instructions still to run. */
  lemma ItemFollows(I: Interp, types: map<Value, Type>, all: seq<Inst>, m: nat, item: Item, t: Twin)
    requires m <= |all| && forall k | 0 <= k < |all| && IsTerminator(all[k]) :: k == |all| - 1
    requires item.Do? ==> m < |all| && all[m] == item.inst
    requires StepItem(I, types, item, t).Some?
    ensures var u := StepItem(I, types, item, t).value;
            ExecAll(I, types, Remaining(all, m), t.env, t.trace)
            == ExecAll(I, types, Remaining(all, m + if item.Do? then 1 else 0), u.env, u.trace)
  {
    if item.Do? { RemainingStep(I, types, all, m, t.env, t.trace); }
  }

  lemma EmittedCount(items: seq<Item>, n: nat)
    requires n < |items|
    ensures |Emitted(items[..n + 1])| == |Emitted(items[..n])| + (if items[n].Do? then 1 else 0) <= |Emitted(items)|
    ensures items[n].Do? ==> Emitted(items)[|Emitted(items[..n])|] == items[n].inst
  {
    EmittedSplit(items, n);
  }

  /** Running the emitted instructions to their terminator is running the items. */
  lemma {:induction false} ItemsFollow(I: Interp, types: map<Value, Type>, items: seq<Item>, n: nat, t: Twin)
    requires n <= |items| && RunItems(I, types, items, n, t).Some?
    requires forall k | 0 <= k < |Emitted(items)| && IsTerminator(Emitted(items)[k]) :: k == |Emitted(items)| - 1
    ensures |Emitted(items[..n])| <= |Emitted(items)|
    ensures var u := RunItems(I, types, items, n, t).value;
            ExecAll(I, types, Emitted(items), t.env, t.trace)
            == ExecAll(I, types, Remaining(Emitted(items), |Emitted(items[..n])|), u.env, u.trace)
    decreases n
  {
    if n == 0 {
      assert items[..0] == [];
      assert Emitted(items)[0..] == Emitted(items);
    } else {
      ItemsFollow(I, types, items, n - 1, t);
      EmittedCount(items, n - 1);
      var before := RunItems(I, types, items, n - 1, t).value;
      ItemFollows(I, types, Emitted(items), |Emitted(items[..n - 1])|, items[n - 1], before);
    }
  }

  lemma {:induction false} ExecSkipsPhis(I: Interp, types: map<Value, Type>, insts: seq<Inst>, env: Env, trace: Trace)
    ensures ExecAll(I, types, insts, env, trace) == ExecAll(I, types, insts[PhiCount(insts)..], env, trace)
  {
    if insts != [] && insts[0].Phi? {
      ExecSkipsPhis(I, types, insts[1..], env, trace);
      assert insts[1..][PhiCount(insts[1..])..] == insts[PhiCount(insts)..];
    } else {
      assert insts[0..] == insts;
    }
  }

  lemma TerminatorsLast(s: Builder, types: map<Value, Type>, b: BlockId)
    requires Inv(s) && b < |s.blocks| && ControlOk(Built(s, types))
    ensures forall k | 0 <= k < |Emitted(s.log[b])| && IsTerminator(Emitted(s.log[b])[k]) ::
            k == |Emitted(s.log[b])| - 1
  {
    assert BlockOk(s, b);
    BuiltFind(s, types, b);
    var insts := s.blocks[b].insts;
    var c := PhiCount(insts);
    forall k | 0 <= k < |Emitted(s.log[b])| && IsTerminator(Emitted(s.log[b])[k]) ensures k == |Emitted(s.log[b])| - 1 {
      assert insts[c..][k] == insts[c + k];
      BuiltInst(s, types, b, c + k);
      assert IsTerminator(InstOf(Built(s, types), b, c + k));
    }
  }

  /** One block of the function's run against one block of the twin run. */
  lemma BlockFollows(I: Interp, s: Builder, types: map<Value, Type>, b: BlockId, t: Twin, end: Twin)
    requires Inv(s) && b < |s.blocks| && ControlOk(Built(s, types))
    requires RunItems(I, types, s.log[b], |s.log[b]|, t) == Some(end)
    ensures var o := ExecAll(I, types, s.blocks[b].insts, t.env, t.trace);
            o.Goto? ==> o.env == end.env && o.trace == end.trace && Edge(Built(s, types), b, o.target)
  {
    var items := s.log[b];
    var all := Emitted(items);
    assert BlockOk(s, b);
    TerminatorsLast(s, types, b);
    ItemsFollow(I, types, items, |items|, t);
    assert items[..|items|] == items;
    ExecSkipsPhis(I, types, s.blocks[b].insts, t.env, t.trace);
    if |all| > 0 && IsTerminator(all[|all| - 1]) {
      var insts := s.blocks[b].insts;
      var c := PhiCount(insts);
      assert insts[c..][|all| - 1] == insts[c + (|all| - 1)];
      BuiltFind(s, types, b);
      BuiltInst(s, types, b, c + (|all| - 1));
      assert JumpsAlongEdges(Built(s, types), b, InstOf(Built(s, types), b, c + (|all| - 1)));
    } else {
      assert all[|all|..] == [];
    }
  }

  /** Any state the function's run reaches at a block is the twin run's state along the path taken. */
  ghost predicate Follows(I: Interp, s: Builder, types: map<Value, Type>, env: Env, st: State, p: seq<BlockId>)
    requires |s.log| == |s.blocks|
  {
    st.At? ==>
      && Path(s, p) && p[0] == 0 && p[|p| - 1] == st.block
      && AtEntry(I, s, types, env, p).Some?
      && AtEntry(I, s, types, env, p).value.env == st.env + PhiValues(s.blocks[st.block].insts, st.pred, st.env)
      && AtEntry(I, s, types, env, p).value.trace == st.trace
  }

  lemma StepFollows(I: Interp, s: Builder, types: map<Value, Type>, env: Env, st: State, p: seq<BlockId>)
    returns (q: seq<BlockId>)
    requires Complete(s) && Disciplined(s) && Given(s, env) && Follows(I, s, types, env, st, p)
    ensures Follows(I, s, types, env, Step(I, Built(s, types), st), q)
  {
    q := p;
    var f := Built(s, types);
    var next := Step(I, f, st);
    if st.At? && next.At? {
      var b := st.block;
      BuiltFind(s, types, b);
      var t := AtEntry(I, s, types, env, p).value;
      BuiltControl(s, types);
      WayComputed(I, s, types, env, p);
      var end := AtEnd(I, s, types, env, p).value;
      BlockFollows(I, s, types, b, t, end);
      q := p + [next.block];
      BuiltEdge(s, types, b, next.block);
      ExtendPath(s, p, next.block);
      assert q[..|q| - 1] == p && q[|q| - 2] == b;
    }
  }

  /** The run of the built function is followed, block by block, by the run on source variables. */
  lemma {:induction false} RunFollowed(I: Interp, s: Builder, types: map<Value, Type>, env: Env, n: nat)
    returns (p: seq<BlockId>)
    requires Complete(s) && Disciplined(s) && Given(s, env)
    ensures Follows(I, s, types, env, Run(I, Built(s, types), Start(Built(s, types), env), n), p)
  {
    var f := Built(s, types);
    if n == 0 {
      p := [0];
      assert Path(s, [0]);
    } else {
      var q := RunFollowed(I, s, types, env, n - 1);
      p := StepFollows(I, s, types, env, Run(I, f, Start(f, env), n - 1), q);
    }
  }
}
