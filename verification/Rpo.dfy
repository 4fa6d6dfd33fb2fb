/** The lowering order: reverse post-order of the control-flow graph (cranelift/mod.rs, visit). */
module Rpo {
  import opened Ir
  import opened Ssa

  function Named(f: Func): set<BlockId> {
    {f.entry} + set b, s | b in f.blocks && s in b.succs :: s
  }

  predicate Distinct(s: seq<BlockId>) {
    forall i, j | 0 <= i < j < |s| :: s[i] != s[j]
  }

  /** n edges lead from a to b. */
  ghost predicate LeadsIn(f: Func, a: BlockId, b: BlockId, n: nat)
    decreases n
  {
    if n == 0 then a == b else exists c :: LeadsIn(f, a, c, n - 1) && Edge(f, c, b)
  }

  ghost predicate Leads(f: Func, a: BlockId, b: BlockId) {
    exists n: nat :: LeadsIn(f, a, b, n)
  }

  lemma LeadsOn(f: Func, a: BlockId, b: BlockId, c: BlockId)
    requires Leads(f, a, b) && Edge(f, b, c)
    ensures Leads(f, a, c)
  {
    var n: nat :| LeadsIn(f, a, b, n);
    assert LeadsIn(f, a, c, n + 1);
  }

  lemma LeadsSelf(f: Func, a: BlockId)
    ensures Leads(f, a, a)
  {
    assert LeadsIn(f, a, a, 0);
  }

  /** What order[i] leads to in one edge was finished before it, or leads back to it. */
  ghost predicate AfterTargets(f: Func, order: seq<BlockId>, i: nat)
    requires i < |order|
  {
    forall s | Edge(f, order[i], s) :: s in order[..i] || Leads(f, s, order[i])
  }

  /** Some predecessor of order[i] is still open or was finished later. */
  ghost predicate HasLaterPred(f: Func, order: seq<BlockId>, open: set<BlockId>, i: nat)
    requires i < |order|
  {
    exists p | Edge(f, p, order[i]) :: p in open || exists k :: i < k < |order| && order[k] == p
  }

  /** The search half-way: open blocks are being visited, order lists the finished ones. */
  ghost predicate Searching(f: Func, visited: set<BlockId>, order: seq<BlockId>, open: set<BlockId>) {
    && (forall b :: b in visited <==> b in open || b in order)
    && (forall b | b in open :: b !in order)
    && Distinct(order)
    && (forall b, s | b in order && Edge(f, b, s) :: s in visited)
    && (forall b | b in visited :: Reachable(f, b))
    && (forall i | 0 <= i < |order| && order[i] != f.entry :: HasLaterPred(f, order, open, i))
    && (forall i | 0 <= i < |order| :: AfterTargets(f, order, i))
  }

  lemma ReachableStep(f: Func, p: BlockId, b: BlockId)
    requires Reachable(f, p) && Edge(f, p, b)
    ensures Reachable(f, b)
  {
    var path :| IsPath(f, path) && Last(path) == p;
    PathExtend(f, path, b);
  }

  method Visit(b: BlockId, f: Func, visited: set<BlockId>, order: seq<BlockId>, ghost open: set<BlockId>)
    returns (visited': set<BlockId>, order': seq<BlockId>)
    requires Searching(f, visited, order, open) && b in Named(f)
    requires if b == f.entry then true else exists p | p in open :: Edge(f, p, b)
    requires forall a | a in open :: Leads(f, a, b)
    ensures Searching(f, visited', order', open)
    ensures visited <= visited' && b in visited' && order <= order'
    decreases Named(f) - visited
  {
    visited', order' := visited, order;
    if b in visited {
      return;
    }
    visited' := visited' + {b};
    ghost var inside := open + {b};
    Open(f, visited, order, open, b);
    var block := Find(f.blocks, b);
    if block.Some? {
      for k := 0 to |block.value.succs|
        invariant Searching(f, visited', order', inside)
        invariant visited + {b} <= visited' && order <= order'
        invariant forall j | 0 <= j < k :: block.value.succs[j] in visited'
      {
        var s := block.value.succs[k];
        assert Edge(f, b, s) && s in Named(f);
        OpenLead(f, open, b, s);
        visited', order' := Visit(s, f, visited', order', inside);
      }
    }
    Finish(f, visited', order', open, b);
    order' := order' + [b];
  }

  /** Opening b, which is the entry or a successor of an open block. */
  lemma Open(f: Func, visited: set<BlockId>, order: seq<BlockId>, open: set<BlockId>, b: BlockId)
    requires Searching(f, visited, order, open) && b !in visited
    requires if b == f.entry then true else exists p | p in open :: Edge(f, p, b)
    ensures Searching(f, visited + {b}, order, open + {b})
  {
    if b == f.entry {
      assert IsPath(f, [b]) && Last([b]) == b;
    } else {
      var p :| p in open && Edge(f, p, b);
      ReachableStep(f, p, b);
    }
    forall i | 0 <= i < |order| && order[i] != f.entry ensures HasLaterPred(f, order, open + {b}, i) {
      assert HasLaterPred(f, order, open, i);
    }
  }

  lemma OpenLead(f: Func, open: set<BlockId>, b: BlockId, s: BlockId)
    requires Edge(f, b, s) && forall a | a in open :: Leads(f, a, b)
    ensures forall a | a in open + {b} :: Leads(f, a, s)
  {
    LeadsSelf(f, b);
    forall a | a in open + {b} ensures Leads(f, a, s) { LeadsOn(f, a, b, s); }
  }

  /** Finishing b: it follows everything it led to, and its own predecessor is still open. */
  lemma Finish(f: Func, visited: set<BlockId>, order: seq<BlockId>, open: set<BlockId>, b: BlockId)
    requires Searching(f, visited, order, open + {b}) && b !in open
    requires b != f.entry ==> exists p | p in open :: Edge(f, p, b)
    requires forall s | Edge(f, b, s) :: s in visited
    requires forall a | a in open :: Leads(f, a, b)
    ensures Searching(f, visited, order + [b], open)
  {
    var order' := order + [b];
    forall i | 0 <= i < |order'| ensures AfterTargets(f, order', i) {
      assert order'[..i] == order[..i];
      if i < |order| { assert AfterTargets(f, order, i); } else { LeadsSelf(f, b); }
    }
    forall i | 0 <= i < |order'| && order'[i] != f.entry ensures HasLaterPred(f, order', open, i) {
      if i < |order| {
        assert HasLaterPred(f, order, open + {b}, i);
        var p :| Edge(f, p, order[i]) && (p in open + {b} || exists k :: i < k < |order| && order[k] == p);
        if p in order {
          if exists k :: i < k < |order| && order[k] == p {
            var k :| i < k < |order| && order[k] == p;
            assert order'[k] == p;
          }
        } else if p == b {
          assert order'[|order|] == p;
        }
      }
    }
  }

  /** The entry comes first and every other block has an earlier predecessor. */
  ghost predicate EarlierPreds(f: Func, rpo: seq<BlockId>) {
    && |rpo| > 0 && rpo[0] == f.entry && Distinct(rpo)
    && forall i | 0 < i < |rpo| :: exists k :: 0 <= k < i && Edge(f, rpo[k], rpo[i])
  }

  /** Where one block leads to another in one edge, it comes first, unless the other leads back to it. */
  ghost predicate SourcesFirst(f: Func, rpo: seq<BlockId>) {
    forall i, s | 0 <= i < |rpo| && Edge(f, rpo[i], s) :: s in rpo[i + 1..] || Leads(f, s, rpo[i])
  }

  method Reversed(order: seq<BlockId>) returns (rpo: seq<BlockId>)
    ensures |rpo| == |order| && forall i | 0 <= i < |rpo| :: rpo[i] == order[|order| - 1 - i]
  {
    rpo := [];
    for k := 0 to |order|
      invariant |rpo| == k && forall i | 0 <= i < k :: rpo[i] == order[k - 1 - i]
    {
      rpo := [order[k]] + rpo;
    }
  }

  /** The order in which blocks are lowered: each reachable block once, each after a predecessor. */
  method ReversePostOrder(f: Func) returns (rpo: seq<BlockId>)
    ensures forall b :: b in rpo <==> Reachable(f, b)
    ensures EarlierPreds(f, rpo) && SourcesFirst(f, rpo)
  {
    var visited, order := Visit(f.entry, f, {}, [], {});
    AllReached(f, visited, order);
    EntryLast(f, order);
    rpo := Reversed(order);
    ReversedOrder(f, visited, order, rpo);
    ReversedTargets(f, visited, order, rpo);
  }

  lemma ReversedTargets(f: Func, visited: set<BlockId>, order: seq<BlockId>, rpo: seq<BlockId>)
    requires Searching(f, visited, order, {})
    requires |rpo| == |order| && forall i | 0 <= i < |rpo| :: rpo[i] == order[|order| - 1 - i]
    ensures SourcesFirst(f, rpo)
  {
    forall i, s | 0 <= i < |rpo| && Edge(f, rpo[i], s) ensures s in rpo[i + 1..] || Leads(f, s, rpo[i]) {
      var m := |order| - 1 - i;
      assert AfterTargets(f, order, m);
      if s in order[..m] {
        var k :| 0 <= k < m && order[k] == s;
        assert rpo[i + 1..][|order| - 1 - k - (i + 1)] == s;
      }
    }
  }

  lemma ReversedOrder(f: Func, visited: set<BlockId>, order: seq<BlockId>, rpo: seq<BlockId>)
    requires Searching(f, visited, order, {}) && |order| > 0 && order[|order| - 1] == f.entry
    requires |rpo| == |order| && forall i | 0 <= i < |rpo| :: rpo[i] == order[|order| - 1 - i]
    ensures forall b :: b in rpo <==> b in order
    ensures EarlierPreds(f, rpo)
  {
    forall b ensures b in rpo <==> b in order {
      if b in order {
        var m :| 0 <= m < |order| && order[m] == b;
        assert rpo[|order| - 1 - m] == b;
      }
    }
    forall i | 0 < i < |rpo| ensures exists k :: 0 <= k < i && Edge(f, rpo[k], rpo[i]) {
      var m := |order| - 1 - i;
      assert HasLaterPred(f, order, {}, m);
      var p :| Edge(f, p, order[m]) && exists k :: m < k < |order| && order[k] == p;
      var k :| m < k < |order| && order[k] == p;
      assert rpo[|order| - 1 - k] == p;
    }
  }

  lemma {:induction false} PathVisited(f: Func, visited: set<BlockId>, order: seq<BlockId>, p: seq<BlockId>)
    requires Searching(f, visited, order, {}) && f.entry in visited && IsPath(f, p)
    ensures Last(p) in visited
    decreases |p|
  {
    if |p| > 1 {
      PathPrefix(f, p, |p| - 2);
      PathVisited(f, visited, order, p[..|p| - 1]);
      assert EdgeAt(f, p, |p| - 1);
    }
  }

  lemma AllReached(f: Func, visited: set<BlockId>, order: seq<BlockId>)
    requires Searching(f, visited, order, {}) && f.entry in visited
    ensures forall b :: b in order <==> Reachable(f, b)
  {
    forall b | Reachable(f, b) ensures b in order {
      var p :| IsPath(f, p) && Last(p) == b;
      PathVisited(f, visited, order, p);
    }
  }

  lemma EntryLast(f: Func, order: seq<BlockId>)
    requires |order| > 0 && Distinct(order)
    requires forall i | 0 <= i < |order| && order[i] != f.entry :: HasLaterPred(f, order, {}, i)
    ensures order[|order| - 1] == f.entry
  {
    assert !HasLaterPred(f, order, {}, |order| - 1);
  }

  // ----- definitions are lowered before uses -----

  /** A path from the entry to rpo[i] through blocks lowered before it. */
  lemma {:induction false} PathOfEarlier(f: Func, rpo: seq<BlockId>, i: nat) returns (p: seq<BlockId>)
    requires EarlierPreds(f, rpo) && i < |rpo|
    ensures IsPath(f, p) && Last(p) == rpo[i]
    ensures forall b | b in p[..|p| - 1] :: b in rpo[..i]
    decreases i
  {
    if i == 0 {
      p := [f.entry];
    } else {
      var k :| 0 <= k < i && Edge(f, rpo[k], rpo[i]);
      var q := PathOfEarlier(f, rpo, k);
      PathExtend(f, q, rpo[i]);
      p := q + [rpo[i]];
      forall b | b in q ensures b in rpo[..i] {
        if b in q[..|q| - 1] {
          assert b in rpo[..k];
        } else {
          assert b == rpo[k];
        }
      }
    }
  }

  /** Every block comes after all blocks that dominate it. */
  lemma DominatorsFirst(f: Func, rpo: seq<BlockId>, i: nat, a: BlockId)
    requires EarlierPreds(f, rpo) && i < |rpo| && StrictDom(f, a, rpo[i])
    ensures a in rpo[..i]
  {
    var p := PathOfEarlier(f, rpo, i);
  }

  /** Lowering in this order meets every non-phi definition before its uses. */
  lemma DefinitionsFirst(f: Func, rpo: seq<BlockId>, i: nat, k: nat, v: Value, a: BlockId, j: nat)
    requires WellFormed(f) && EarlierPreds(f, rpo) && i < |rpo|
    requires HasInst(f, rpo[i], k) && v in Uses(InstOf(f, rpo[i], k)) && DefAt(f, a, j, v)
    ensures (a == rpo[i] && j < k) || a in rpo[..i]
  {
    assert DefDominates(f, v, rpo[i], k);
    if StrictDom(f, a, rpo[i]) { DominatorsFirst(f, rpo, i, a); }
  }
}
