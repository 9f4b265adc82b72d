/** What the pools of a graph mean in terms of the operations alone: the value of a
    key after a sequence of operations is what the last write put there, or the
    initial value, plus everything added since. */
module Replay {
  import opened OrderingGraph
  import opened Dfs

  predicate Sets(op: Operation, k: int) {
    op.typ == OP_WRITE && op.key == k
  }

  /** Index of the last write to `k`, -1 if there is none. */
  function LastWrite(ops: seq<Operation>, k: int): (w: int)
    ensures -1 <= w < |ops|
    ensures w >= 0 ==> ops[w].typ == OP_WRITE && ops[w].key == k
    ensures forall i | w < i < |ops| :: !(ops[i].typ == OP_WRITE && ops[i].key == k)
  {
    if ops == [] then -1
    else if Sets(ops[|ops| - 1], k) then |ops| - 1
    else LastWrite(ops[..|ops| - 1], k)
  }

  /** The sum of the values added to `k` from position `from` on. */
  function AddedFrom(ops: seq<Operation>, from: nat, k: int): int
    decreases |ops|
  {
    if |ops| <= from then 0
    else
      var op := ops[|ops| - 1];
      AddedFrom(ops[..|ops| - 1], from, k) + if op.typ == OP_RADDW && op.key == k then op.val else 0
  }

  function ValueAfter(ops: seq<Operation>, initial: int, k: int): int {
    var w := LastWrite(ops, k);
    (if w >= 0 then ops[w].val else initial) + AddedFrom(ops, w + 1, k)
  }

  /** One more operation: a write replaces the value, an addition adds to it, anything else keeps it. */
  lemma ValueAfterOne(ops: seq<Operation>, op: Operation, initial: int, k: int)
    ensures ValueAfter(ops + [op], initial, k) == OneMore(ValueAfter(ops, initial, k), op, k)
  {
    assert (ops + [op])[..|ops|] == ops;
  }

  function OneMore(v: int, op: Operation, k: int): int {
    if op.key != k || op.typ == OP_READ then v
    else if op.typ == OP_WRITE then op.val
    else v + op.val
  }

  /** What `ops` make of `initial`. */
  function Replayed(ops: seq<Operation>, initial: Pool): (r: Pool)
    ensures r.Keys == initial.Keys
  {
    map k | k in initial :: ValueAfter(ops, initial[k], k)
  }

  /** Applying one operation is replaying one more. */
  lemma ApplyReplays(op: Operation, ops: seq<Operation>, initial: Pool)
    requires op.key in initial
    ensures ApplyOpToPool(op, Replayed(ops, initial)) == Replayed(ops + [op], initial)
  {
    var before := Replayed(ops, initial);
    forall k | k in initial
      ensures ApplyOpToPool(op, before)[k] == Replayed(ops + [op], initial)[k]
    {
      ValueAfterOne(ops, op, initial[k], k);
    }
  }

  // ----- along the walks of a graph -----

  ghost predicate InGraph(g: Graph, w: seq<int>) {
    forall i | 0 <= i < |w| :: w[i] in g.nodes
  }

  /** The operations of the nodes of a walk. */
  function Ops(g: Graph, w: seq<int>): (ops: seq<Operation>)
    requires forall i | 0 <= i < |w| :: w[i] in g.nodes
    ensures |ops| == |w| && forall i | 0 <= i < |w| :: ops[i] == g.nodes[w[i]].op
  {
    seq(|w|, i requires 0 <= i < |w| => g.nodes[w[i]].op)
  }

  /** Position `i` of the walk: its pool replays the operations after the first node. */
  ghost predicate ReplaysAt(g: Graph, w: seq<int>, i: nat)
    requires InGraph(g, w) && i < |w|
  {
    && (i > 0 ==> g.nodes[w[i]].op.key in g.nodes[w[0]].pool)
    && g.nodes[w[i]].pool == Replayed(Ops(g, w)[1..i + 1], g.nodes[w[0]].pool)
  }

  /** Every pool along the walk replays the operations up to it. */
  ghost predicate Replays(g: Graph, w: seq<int>) {
    InGraph(g, w) && forall i | 0 <= i < |w| :: ReplaysAt(g, w, i)
  }

  ghost predicate FollowsAlong(g: Graph, w: seq<int>) {
    forall i | 1 <= i < |w| :: Follows(g, w[i - 1], w[i])
  }

  lemma OpsExtend(ops: seq<Operation>, i: nat)
    requires 0 < i < |ops|
    ensures ops[1..i + 1] == ops[1..i] + [ops[i]]
  {
  }

  lemma NextReplays(g: Graph, w: seq<int>, i: nat)
    requires InGraph(g, w) && 0 < i < |w| && ReplaysAt(g, w, i - 1)
    ensures Follows(g, w[i - 1], w[i]) <==> ReplaysAt(g, w, i)
  {
    var op, initial := g.nodes[w[i]].op, g.nodes[w[0]].pool;
    OpsExtend(Ops(g, w), i);
    if op.key in initial {
      ApplyReplays(op, Ops(g, w)[1..i], initial);
    }
  }

  lemma {:induction false} FollowingReplaysAt(g: Graph, w: seq<int>, i: nat)
    requires InGraph(g, w) && i < |w| && FollowsAlong(g, w)
    ensures ReplaysAt(g, w, i)
  {
    if i == 0 {
      assert Ops(g, w)[1..1] == [];
    } else {
      FollowingReplaysAt(g, w, i - 1);
      assert Follows(g, w[i - 1], w[i]);
      NextReplays(g, w, i);
    }
  }

  /** Pools follow one another along a walk exactly when each replays the operations up to it. */
  lemma FollowingIsReplaying(g: Graph, w: seq<int>)
    requires InGraph(g, w)
    ensures FollowsAlong(g, w) <==> Replays(g, w)
  {
    if FollowsAlong(g, w) {
      forall i | 0 <= i < |w| ensures ReplaysAt(g, w, i) {
        FollowingReplaysAt(g, w, i);
      }
    }
    if Replays(g, w) {
      forall i | 1 <= i < |w| ensures Follows(g, w[i - 1], w[i]) {
        assert ReplaysAt(g, w, i - 1) && ReplaysAt(g, w, i);
        NextReplays(g, w, i);
      }
    }
  }

  // ----- every node of a graph -----

  lemma {:induction false} DistinctFits(w: seq<int>, s: set<int>)
    requires Distinct(w) && forall i | 0 <= i < |w| :: w[i] in s
    ensures |w| <= |s|
  {
    if w != [] {
      var n := |w| - 1;
      DistinctFits(w[..n], s - {w[n]});
    }
  }

  lemma WalkDistinct(g: Graph, w: seq<int>)
    requires Walk(g, w) && Acyclic(g)
    ensures Distinct(w)
  {
    forall i, j | 0 <= i < j < |w| ensures w[i] != w[j] {
      SubWalk(g, w, i, j);
      assert EdgeAt(g, w, i);
    }
  }

  /** `w` leads from the head to `b` and every pool on it replays the operations up to it. */
  ghost predicate ReplayWalk(g: Graph, w: seq<int>, b: int) {
    WalkFromTo(g, w, g.head, b) && Replays(g, w)
  }

  ghost predicate AllReplayed(g: Graph) {
    forall b | b in g.nodes :: exists w :: ReplayWalk(g, w, b)
  }

  lemma LongerBack(g: Graph, a: int, w: seq<int>)
    requires Walk(g, w) && InGraph(g, w) && FollowsAlong(g, w) && Edge(g, a, w[0]) && Follows(g, a, w[0])
    ensures Walk(g, [a] + w) && InGraph(g, [a] + w) && FollowsAlong(g, [a] + w)
  {
    var v := [a] + w;
    forall i | 0 <= i < |v| - 1 ensures EdgeAt(g, v, i) {
      assert i > 0 ==> EdgeAt(g, w, i - 1);
    }
    forall i | 1 <= i < |v| ensures Follows(g, v[i - 1], v[i]) {
      assert i > 1 ==> Follows(g, w[i - 1 - 1], w[i - 1]);
    }
  }

  /** Go back from an explained node to the one that explains it, until the head. */
  lemma {:induction false} BackToHead(g: Graph, w: seq<int>) returns (full: seq<int>)
    requires Valid(g) && forall b | b in g.nodes && b != g.head :: Explained(g, b)
    requires Walk(g, w) && InGraph(g, w) && FollowsAlong(g, w)
    ensures WalkFromTo(g, full, g.head, w[|w| - 1]) && InGraph(g, full) && FollowsAlong(g, full)
    decreases |g.nodes| - |w|
  {
    if w[0] == g.head {
      full := w;
    } else {
      assert w[0] in g.nodes;
      var a :| Edge(g, a, w[0]) && Follows(g, a, w[0]);
      LongerBack(g, a, w);
      WalkDistinct(g, [a] + w);
      DistinctFits([a] + w, g.nodes.Keys);
      full := BackToHead(g, [a] + w);
      assert ([a] + w)[|[a] + w| - 1] == w[|w| - 1];
    }
  }

  lemma LastExplains(g: Graph, w: seq<int>, b: int)
    requires ReplayWalk(g, w, b) && b != g.head
    ensures Explained(g, b)
  {
    FollowingIsReplaying(g, w);
    assert EdgeAt(g, w, |w| - 2);
    assert Follows(g, w[|w| - 1 - 1], w[|w| - 1]);
  }

  /** What the pool check decides: every node follows from a parent if and only if
      every node's pool is the replay of the operations on a walk from the head. */
  lemma ExplainedIsReplayed(g: Graph)
    requires Valid(g)
    ensures (forall b | b in g.nodes && b != g.head :: Explained(g, b)) <==>
            AllReplayed(g)
  {
    if forall b | b in g.nodes && b != g.head :: Explained(g, b) {
      forall b | b in g.nodes ensures exists w :: ReplayWalk(g, w, b) {
        var w := BackToHead(g, [b]);
        FollowingIsReplaying(g, w);
        assert ReplayWalk(g, w, b);
      }
    }
    if AllReplayed(g) {
      forall b | b in g.nodes && b != g.head ensures Explained(g, b) {
        var w :| ReplayWalk(g, w, b);
        LastExplains(g, w, b);
      }
    }
  }

  /** C_SO and C_CPO, the two levels of graphs whose pools are right, in terms of the operations. */
  lemma ConvergesIsReplayed(g: Graph)
    ensures Convergence(g) == C_SO || Convergence(g) == C_CPO <==>
            Valid(g) && AllReplayed(g)
  {
    if Valid(g) {
      ExplainedIsReplayed(g);
    }
  }
}
