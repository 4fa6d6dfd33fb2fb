/** Breadth-first reachability over control edges (verifier/control_flow.rs, is_reachable). */
module Reach {
  import opened Ir

  type Edges = set<(BlockId, BlockId)>

  /** The edges the verifier declares: the targets of each block's last instruction. */
  function Targets(b: Block): set<BlockId> {
    if b.insts == [] then {}
    else match b.insts[|b.insts| - 1]
      case Jump(t) => {t}
      case Branch(_, t, f) => {t, f}
      case _ => {}
  }

  function ControlEdges(blocks: seq<Block>): Edges {
    set b, t | b in blocks && t in Targets(b) :: (b.id, t)
  }

  ghost predicate Walk(edges: Edges, p: seq<BlockId>) {
    |p| > 0 && forall k: nat {:trigger StepIn(edges, p, k)} :: StepIn(edges, p, k)
  }

  predicate StepIn(edges: Edges, p: seq<BlockId>, k: nat) {
    0 < k < |p| ==> (p[k - 1], p[k]) in edges
  }

  lemma WalkExtend(edges: Edges, p: seq<BlockId>, c: BlockId)
    requires Walk(edges, p) && (p[|p| - 1], c) in edges
    ensures Walk(edges, p + [c])
  {
    forall k: nat ensures StepIn(edges, p + [c], k) { assert StepIn(edges, p, k); }
  }

  ghost predicate Reaches(edges: Edges, a: BlockId, b: BlockId) {
    exists p :: Walk(edges, p) && p[0] == a && p[|p| - 1] == b
  }

  lemma ReachesStep(edges: Edges, a: BlockId, b: BlockId, c: BlockId)
    requires Reaches(edges, a, b) && (b, c) in edges
    ensures Reaches(edges, a, c)
  {
    var p :| Walk(edges, p) && p[0] == a && p[|p| - 1] == b;
    WalkExtend(edges, p, c);
    assert (p + [c])[0] == a && (p + [c])[|p|] == c;
  }

  lemma ReachesSelf(edges: Edges, a: BlockId)
    ensures Reaches(edges, a, a)
  {
    assert Walk(edges, [a]);
  }

  lemma {:induction false} WalkStaysIn(edges: Edges, p: seq<BlockId>, s: set<BlockId>)
    requires Walk(edges, p) && p[0] in s
    requires forall e | e in edges && e.0 in s :: e.1 in s
    ensures p[|p| - 1] in s
    decreases |p|
  {
    if |p| > 1 {
      assert StepIn(edges, p, 1);
      forall k: nat ensures StepIn(edges, p[1..], k) { assert StepIn(edges, p, k + 1); }
      WalkStaysIn(edges, p[1..], s);
    }
  }

  method Successors(edges: Edges, b: BlockId) returns (succs: seq<BlockId>)
    ensures forall c :: c in succs <==> (b, c) in edges
  {
    succs := [];
    var todo := edges;
    while todo != {}
      invariant todo <= edges
      invariant forall c :: c in succs <==> (b, c) in edges - todo
      decreases |todo|
    {
      var e :| e in todo;
      todo := todo - {e};
      if e.0 == b {
        succs := succs + [e.1];
      }
    }
  }

  /** The search finds the target exactly when some path leads to it; the queue may hold a block twice. */
  method IsReachable(edges: Edges, start: BlockId, target: BlockId) returns (found: bool)
    ensures found <==> Reaches(edges, start, target)
  {
    var visited: set<BlockId> := {};
    var queue := [start];
    ghost var all := {start} + set e | e in edges :: e.1;
    ReachesSelf(edges, start);
    while queue != []
      invariant forall b | b in queue :: b in all && Reaches(edges, start, b)
      invariant target !in visited
      invariant start in visited || start in queue
      invariant forall e | e in edges && e.0 in visited :: e.1 in visited || e.1 in queue
      decreases all - visited, |queue|
    {
      var current := queue[0];
      ghost var was := queue;
      queue := queue[1..];
      assert was == [current] + queue;
      if current == target {
        return true;
      }
      if current !in visited {
        visited := visited + {current};
        var succs := Successors(edges, current);
        forall c | c in succs ensures c in all && Reaches(edges, start, c) {
          assert (current, c) in edges;
          ReachesStep(edges, start, current, c);
        }
        queue := queue + succs;
      }
    }
    if Reaches(edges, start, target) {
      var p :| Walk(edges, p) && p[0] == start && p[|p| - 1] == target;
      WalkStaysIn(edges, p, visited);
      assert false;
    }
    return false;
  }
}
