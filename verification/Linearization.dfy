/** "SO + RT" means linearizable: the classifier answers it exactly when the graph
    is one chain that orders all operations legally and in real time. */
module Linearization {
  import opened OrderingGraph
  import opened Dfs
  import opened Replay
  import opened DfsTermination
  import opened Classifier

  /** The edges of the graph are those of the chain `order`. */
  ghost predicate IsChain(g: Graph, order: seq<int>) {
    && Enumerates(order, g.nodes.Keys)
    && order != [] && order[0] == g.head
    && forall i | 0 <= i < |order| :: NextInChain(g, order, i)
  }

  ghost predicate NextInChain(g: Graph, order: seq<int>, i: nat)
    requires i < |order|
  {
    order[i] in g.nodes && g.nodes[order[i]].next == if i + 1 < |order| then {order[i + 1]} else {}
  }

  /** Every operation once, head first; each pool follows from the previous one;
      no operation is placed before one that had responded before its request. */
  ghost predicate IsLinearization(g: Graph, order: seq<int>) {
    && IsChain(g, order)
    && FollowsAlong(g, order)
    && InRealTime(g, order)
  }

  ghost predicate InRealTime(g: Graph, order: seq<int>) {
    forall i, j | 0 <= i < j < |order| :: order[i] in g.nodes && order[j] in g.nodes && !Earlier(g, order[j], order[i])
  }

  // ----- from SO + RT to a chain -----

  /** Follow the only successor until there is none. */
  lemma {:induction false} FollowAll(g: Graph, w: seq<int>) returns (order: seq<int>)
    requires Valid(g) && AtMostOneNext(g) && Walk(g, w) && w[0] == g.head && forall i | 0 <= i < |w| :: w[i] in g.nodes
    ensures Walk(g, order) && order[0] == g.head && forall i | 0 <= i < |order| :: order[i] in g.nodes
    ensures g.nodes[order[|order| - 1]].next == {}
    decreases |g.nodes| - |w|
  {
    WalkDistinct(g, w);
    DistinctFits(w, g.nodes.Keys);
    var last := w[|w| - 1];
    if g.nodes[last].next == {} {
      order := w;
    } else {
      NonEmpty(g.nodes[last].next);
      var y :| y in g.nodes[last].next;
      assert Edge(g, last, y);
      assert WalkFromTo(g, [last, y], last, y);
      JoinWalks(g, w, [last, y], g.head, last, y);
      assert [last, y][1..] == [y];
      WalkDistinct(g, w + [y]);
      DistinctFits(w + [y], g.nodes.Keys);
      order := FollowAll(g, w + [y]);
    }
  }

  lemma OnlyNext(g: Graph, a: int, b: int)
    requires AtMostOneNext(g) && Edge(g, a, b)
    ensures g.nodes[a].next == {b}
  {
    SubsetSize({b}, g.nodes[a].next);
  }

  lemma ChainFromWalk(g: Graph, order: seq<int>)
    requires Valid(g) && AtMostOneNext(g) && Walk(g, order) && order[0] == g.head
    requires (forall i | 0 <= i < |order| :: order[i] in g.nodes) && g.nodes[order[|order| - 1]].next == {}
    ensures IsChain(g, order)
  {
    WalkDistinct(g, order);
    forall i | 0 <= i < |order| ensures NextInChain(g, order, i) {
      if i + 1 < |order| {
        assert EdgeAt(g, order, i);
        OnlyNext(g, order[i], order[i + 1]);
      }
    }
    var inside := set i | 0 <= i < |order| :: order[i];
    forall x, y | x in inside && Edge(g, x, y) ensures y in inside {
      var i :| 0 <= i < |order| && order[i] == x;
      assert NextInChain(g, order, i);
    }
    forall x | x in g.nodes ensures x in order {
      if x != g.head {
        ClosedUnderReach(g, inside, g.head, x);
      }
    }
  }

  lemma ChainIndex(g: Graph, order: seq<int>, x: int) returns (i: nat)
    requires IsChain(g, order) && x in g.nodes
    ensures i < |order| && order[i] == x
  {
    assert x in order;
    i :| 0 <= i < |order| && order[i] == x;
  }

  /** In a chain the only predecessor of a node is the one just before it. */
  lemma ChainParent(g: Graph, order: seq<int>, a: int, i: nat)
    requires IsChain(g, order) && 1 <= i < |order| && Edge(g, a, order[i])
    ensures a == order[i - 1]
  {
    var k := ChainIndex(g, order, a);
    assert NextInChain(g, order, k);
    assert order[k + 1] == order[i];
    assert k + 1 == i;
  }

  lemma ChainReaches(g: Graph, order: seq<int>, i: nat, j: nat)
    requires IsChain(g, order) && i < j < |order|
    ensures Reaches(g, order[i], order[j])
  {
    assert Walk(g, order) by {
      forall k | 0 <= k < |order| - 1 ensures EdgeAt(g, order, k) {
        assert NextInChain(g, order, k);
      }
    }
    SubWalk(g, order, i, j);
  }

  /** Reachability in a chain is being later in it. */
  lemma ChainOrder(g: Graph, order: seq<int>, i: nat, j: nat)
    requires IsChain(g, order) && i < |order| && j < |order|
    ensures Reaches(g, order[i], order[j]) <==> i < j
  {
    if i < j {
      ChainReaches(g, order, i, j);
    } else if Reaches(g, order[i], order[j]) {
      var later := set k | i < k < |order| :: order[k];
      var b := FirstStep(g, order[i], order[j]);
      assert NextInChain(g, order, i);
      forall x, y | x in later && Edge(g, x, y) ensures y in later {
        var k :| i < k < |order| && order[k] == x;
        assert NextInChain(g, order, k);
      }
      if b != order[j] {
        ClosedUnderReach(g, later, b, order[j]);
      }
    }
  }

  lemma ForwardPools(g: Graph, order: seq<int>)
    requires IsChain(g, order) && forall b | b in g.nodes && b != g.head :: Explained(g, b)
    ensures FollowsAlong(g, order)
  {
    forall i | 1 <= i < |order| ensures Follows(g, order[i - 1], order[i]) {
      assert order[i] in order && order[0] != order[i];
      var a :| Edge(g, a, order[i]) && Follows(g, a, order[i]);
      ChainParent(g, order, a, i);
    }
  }

  lemma ForwardRealTime(g: Graph, order: seq<int>)
    requires IsChain(g, order) && Closed(g) && LevelHolds(g, ClosureOf(g), R_RT)
    ensures InRealTime(g, order)
  {
    forall i, j | 0 <= i < j < |order|
      ensures order[i] in g.nodes && order[j] in g.nodes && !Earlier(g, order[j], order[i])
    {
      assert order[i] in order && order[j] in order;
      ChainOrder(g, order, j, i);
      assert PairHolds(g, ClosureOf(g), R_RT, order[j], order[i]);
    }
  }

  lemma RtMeans(g: Graph, reach: map<int, set<int>>)
    requires reach.Keys == g.nodes.Keys && Relationship(g, reach) == R_RT
    ensures LevelHolds(g, reach, R_RT)
  {
  }

  lemma SoAndRt(g: Graph)
    requires Meaning(g) == Constraints(C_SO, R_RT)
    ensures Valid(g) && AtMostOneNext(g) && (forall b | b in g.nodes && b != g.head :: Explained(g, b))
    ensures LevelHolds(g, ClosureOf(g), R_RT)
  {
    RtMeans(g, ClosureOf(g));
  }

  /** Extraction: from a graph classified SO + RT to an actual linearization. */
  lemma Extract(g: Graph) returns (order: seq<int>)
    requires Meaning(g) == Constraints(C_SO, R_RT)
    ensures IsLinearization(g, order)
  {
    SoAndRt(g);
    order := FollowAll(g, [g.head]);
    ChainFromWalk(g, order);
    ForwardPools(g, order);
    ForwardRealTime(g, order);
  }

  // ----- from a chain to SO + RT -----

  lemma ChainValid(g: Graph, order: seq<int>)
    requires IsChain(g, order)
    ensures Valid(g) && AtMostOneNext(g)
  {
    assert order[0] in order;
    forall a, b | Edge(g, a, b) ensures b in g.nodes {
      var k := ChainIndex(g, order, a);
      assert NextInChain(g, order, k);
      assert order[k + 1] in order;
    }
    forall a | a in g.nodes ensures !Reaches(g, a, a) && FromHead(g, a) && |g.nodes[a].next| <= 1 {
      var k := ChainIndex(g, order, a);
      assert NextInChain(g, order, k);
      ChainOrder(g, order, k, k);
      ChainOrder(g, order, 0, k);
    }
  }

  lemma ChainExplained(g: Graph, order: seq<int>)
    requires IsLinearization(g, order)
    ensures forall b | b in g.nodes && b != g.head :: Explained(g, b)
  {
    forall b | b in g.nodes && b != g.head ensures Explained(g, b) {
      var k := ChainIndex(g, order, b);
      assert NextInChain(g, order, k - 1);
      assert Edge(g, order[k - 1], b) && Follows(g, order[k - 1], order[k]);
    }
  }

  lemma ChainRealTime(g: Graph, order: seq<int>)
    requires IsLinearization(g, order) && Closed(g)
    ensures LevelHolds(g, ClosureOf(g), R_RT)
  {
    forall a, b | a in g.nodes && b in g.nodes ensures PairHolds(g, ClosureOf(g), R_RT, a, b) {
      if Requires(g, R_RT, a, b) {
        var i := ChainIndex(g, order, a);
        var j := ChainIndex(g, order, b);
        ChainOrder(g, order, i, j);
      }
    }
  }

  /** The classifier's "SO + RT" is linearizability of the graph, in both directions. */
  lemma LinearizableExact(g: Graph)
    ensures Meaning(g) == Constraints(C_SO, R_RT) <==> exists order :: IsLinearization(g, order)
  {
    if Meaning(g) == Constraints(C_SO, R_RT) {
      var order := Extract(g);
    }
    if order :| IsLinearization(g, order) {
      ChainValid(g, order);
      ChainExplained(g, order);
      ChainRealTime(g, order);
    }
  }

  /** In a linearization every pool is what the operations before it, in that order,
      make of the first pool. */
  lemma LinearizationReplays(g: Graph, order: seq<int>)
    requires IsChain(g, order) && InRealTime(g, order)
    ensures IsLinearization(g, order) <==> Replays(g, order)
  {
    forall i | 0 <= i < |order| ensures order[i] in g.nodes {
      assert NextInChain(g, order, i);
    }
    FollowingIsReplaying(g, order);
  }

  lemma LinearizationKeys(g: Graph, order: seq<int>)
    requires IsLinearization(g, order)
    ensures KeysInPools(g)
  {
    forall a, b | Edge(g, a, b) && b in g.nodes ensures g.nodes[b].op.key in g.nodes[a].pool {
      var k := ChainIndex(g, order, a);
      assert NextInChain(g, order, k);
      assert Follows(g, order[k + 1 - 1], order[k + 1]);
    }
  }

  lemma LinearizationMeans(g: Graph, order: seq<int>)
    requires IsLinearization(g, order)
    ensures g.head in g.nodes && KeysInPools(g) && !HasShortcut(g)
  {
    LinearizationKeys(g, order);
    ChainValid(g, order);
    ChainHasNoShortcut(g);
  }

  /** AssertLinearizability, with a bound on the iterations of the traversal: Some(true)
      when both assertions hold, Some(false) when an assertion fails, here or inside the
      classifier. It passes exactly the linearizable graphs, and two iterations per node
      are enough for each of those. */
  method AssertLinearizability(g: Graph, budget: nat) returns (passed: Option<bool>)
    ensures passed.Some? ==> (passed.value <==> exists order :: IsLinearization(g, order))
    ensures !HasShortcut(g) && budget >= 2 * |g.nodes| ==> passed.Some?
    ensures (exists order :: IsLinearization(g, order)) && budget >= 2 * |g.nodes| ==> passed == Some(true)
  {
    LinearizableExact(g);
    if order :| IsLinearization(g, order) {
      LinearizationMeans(g, order);
    }
    var r := SatisfiedConstraints(g, budget);
    match r
    case None => passed := None;
    case Some(Failed) => passed := Some(false);
    case Some(Constraints(convergence, relationship)) => passed := Some(convergence == C_SO && relationship == R_RT);
  }
}
