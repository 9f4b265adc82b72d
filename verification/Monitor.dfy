/** The monitor that appends every announced response to a linear history and
    asserts linearizability after each. */
module Monitor {
  import opened OrderingGraph
  import opened Dfs
  import opened Replay
  import opened DfsTermination
  import opened Classifier
  import opened Linearization

  datatype Response = Response(op: Operation, cId: int, tsReq: int, tsResp: int)

  /** 0, 1, ..., n - 1 */
  function UpTo(n: nat): (s: seq<int>)
    ensures |s| == n && forall i | 0 <= i < n :: s[i] == i
  {
    seq(n, i => i)
  }

  const DEFAULT_OP: Operation := Operation(OP_READ, 0, 0, 0)

  ghost predicate NodeFits(g: Graph, n: nat, i: nat, keys: set<int>)
    requires i in g.nodes
  {
    && g.nodes[i].next == (if i + 1 < n then {i + 1} else {})
    && g.nodes[i].pool.Keys == keys
    && (i > 0 ==> Follows(g, i - 1, i))
  }

  /** The history is the chain of nodes 0 to n - 1. */
  ghost predicate IsHistory(g: Graph, n: nat, keys: set<int>) {
    && n > 0 && g.head == 0
    && (forall x :: x in g.nodes <==> 0 <= x < n)
    && forall i | 0 <= i < n :: NodeFits(g, n, i, keys)
  }

  lemma HistoryIsChain(g: Graph, n: nat, keys: set<int>)
    requires IsHistory(g, n, keys)
    ensures IsChain(g, UpTo(n)) && FollowsAlong(g, UpTo(n))
  {
    var order := UpTo(n);
    forall x ensures x in order <==> x in g.nodes.Keys {
      if 0 <= x < n {
        assert order[x] == x;
      }
    }
    forall i | 0 <= i < n ensures NextInChain(g, order, i) {
      assert NodeFits(g, n, i, keys);
    }
    forall i | 1 <= i < n ensures Follows(g, order[i - 1], order[i]) {
      assert NodeFits(g, n, i, keys);
    }
  }

  lemma {:induction false} OnlyChain(g: Graph, n: nat, keys: set<int>, order: seq<int>, i: nat)
    requires IsHistory(g, n, keys) && IsChain(g, order) && i < |order|
    ensures order[i] == i && i < n && (i + 1 < |order| <==> i + 1 < n)
  {
    if i > 0 {
      OnlyChain(g, n, keys, order, i - 1);
      assert NodeFits(g, n, i - 1, keys) && NextInChain(g, order, i - 1);
      assert g.nodes[i - 1].next == {order[i]} == {i};
      assert order[i] in {i};
    }
    assert NodeFits(g, n, i, keys) && NextInChain(g, order, i);
    if i + 1 < |order| {
      assert order[i + 1] in g.nodes[i].next;
    }
    if i + 1 < n {
      assert i + 1 in g.nodes[i].next;
    }
  }

  /** The history has one candidate order, its own; it linearizes the history
      exactly when it respects real time. */
  lemma HistoryLinearizes(g: Graph, n: nat, keys: set<int>)
    requires IsHistory(g, n, keys)
    ensures (exists order :: IsLinearization(g, order)) <==> InRealTime(g, UpTo(n))
  {
    HistoryIsChain(g, n, keys);
    if order :| IsLinearization(g, order) {
      OnlyChain(g, n, keys, order, |order| - 1);
      forall i | 0 <= i < |order| ensures order[i] == UpTo(n)[i] {
        OnlyChain(g, n, keys, order, i);
      }
      assert order == UpTo(n);
    }
    if InRealTime(g, UpTo(n)) {
      assert IsLinearization(g, UpTo(n));
    }
  }

  /** Node `i` carries the announced response. */
  ghost predicate Records(g: Graph, i: int, resp: Response) {
    && i in g.nodes && g.nodes[i].nId == i && g.nodes[i].op == resp.op && g.nodes[i].cId == resp.cId
    && g.nodes[i].tsReq == resp.tsReq && g.nodes[i].tsResp == resp.tsResp
  }

  ghost predicate SameButNext(g: Graph, g': Graph, i: int) {
    i in g.nodes && i in g'.nodes && g'.nodes[i] == g.nodes[i].(next := g'.nodes[i].next)
  }

  ghost predicate SameBefore(g: Graph, g': Graph, n: int) {
    forall i | 0 <= i < n :: SameButNext(g, g', i)
  }

  lemma AppendFits(g: Graph, n: nat, keys: set<int>, g': Graph)
    requires IsHistory(g, n, keys) && g'.head == 0 && n in g'.nodes
    requires g'.nodes == g.nodes[n - 1 := g.nodes[n - 1].(next := g.nodes[n - 1].next + {n})][n := g'.nodes[n]]
    requires g'.nodes[n].op.key in g.nodes[n - 1].pool
    requires g'.nodes[n].pool == ApplyOpToPool(g'.nodes[n].op, g.nodes[n - 1].pool)
    requires g'.nodes[n].next == {}
    ensures IsHistory(g', n + 1, keys)
  {
    assert NodeFits(g, n, n - 1, keys);
    var m := n + 1;
    forall i | 0 <= i < m ensures NodeFits(g', m, i, keys) {
      if i < n {
        assert NodeFits(g, n, i, keys);
      }
    }
  }

  /** No recorded operation was requested after `ts`. */
  ghost predicate RequestedBy(g: Graph, n: nat, ts: int) {
    forall i | 0 <= i < n :: i in g.nodes && g.nodes[i].tsReq <= ts
  }

  lemma AppendInRealTime(g: Graph, n: nat, keys: set<int>, g': Graph)
    requires IsHistory(g, n, keys) && IsHistory(g', n + 1, keys) && SameBefore(g, g', n)
    ensures InRealTime(g', UpTo(n + 1)) <==> InRealTime(g, UpTo(n)) && RequestedBy(g, n, g'.nodes[n].tsResp)
  {
    var order, order' := UpTo(n), UpTo(n + 1);
    if InRealTime(g', order') {
      forall i, j | 0 <= i < j < n ensures !Earlier(g, order[j], order[i]) {
        assert SameButNext(g, g', i) && SameButNext(g, g', j);
        assert !Earlier(g', order'[j], order'[i]);
      }
      forall i | 0 <= i < n ensures g.nodes[i].tsReq <= g'.nodes[n].tsResp {
        assert SameButNext(g, g', i);
        assert !Earlier(g', order'[n], order'[i]);
      }
    }
    if InRealTime(g, order) && RequestedBy(g, n, g'.nodes[n].tsResp) {
      forall i, j | 0 <= i < j < n + 1 ensures !Earlier(g', order'[j], order'[i]) {
        assert SameButNext(g, g', i);
        if j < n {
          assert SameButNext(g, g', j);
          assert !Earlier(g, order[j], order[i]);
        }
      }
    }
  }

  class ServiceIsLinearizable {
    var history: Graph
    var nodeId: int

    /** No assertion has failed so far. */
    ghost predicate Valid(keys: set<int>)
      reads this
    {
      nodeId > 0 && IsHistory(history, nodeId, keys) && InRealTime(history, UpTo(nodeId))
    }

    /** The dummy first node carrying the initial pool. */
    constructor (initialPool: Pool)
      ensures Valid(initialPool.Keys) && nodeId == 1
      ensures history.nodes[0] == Node(0, 0, Operation(OP_READ, 0, 0, 0), 0, 0, initialPool, {})
    {
      history := Graph(map[0 := Node(0, 0, DEFAULT_OP, 0, 0, initialPool, {})], 0);
      nodeId := 1;
    }

    /** The key must be in the pool: the source asserts it before applying the operation. */
    method AppendResponse(resp: Response, ghost keys: set<int>)
      requires nodeId > 0 && IsHistory(history, nodeId, keys) && resp.op.key in keys
      modifies this
      ensures nodeId == old(nodeId) && IsHistory(history, nodeId + 1, keys)
      ensures Records(history, nodeId, resp)
      ensures SameBefore(old(history), history, nodeId)
    {
      ghost var before := history;
      var last := history.nodes[nodeId - 1];
      assert NodeFits(before, nodeId, nodeId - 1, keys);
      var node := Node(nodeId, resp.cId, resp.op, resp.tsReq, resp.tsResp, ApplyOpToPool(resp.op, last.pool), {});
      history := history.(nodes := history.nodes[nodeId - 1 := last.(next := last.next + {nodeId})]);
      history := history.(nodes := history.nodes[nodeId := node]);
      AppendFits(before, nodeId, keys, history);
    }

    /** A response is announced: append it and check. All assertions hold exactly when
        the key is in the pool and no recorded operation was requested after this
        response; the traversal always ends. */
    method ClientSeesResponse(resp: Response, ghost keys: set<int>) returns (passed: bool)
      requires Valid(keys)
      modifies this
      ensures passed <==> resp.op.key in keys && RequestedBy(old(history), old(nodeId), resp.tsResp)
      ensures passed ==> Valid(keys) && nodeId == old(nodeId) + 1
      ensures passed ==> Records(history, old(nodeId), resp) && SameBefore(old(history), history, old(nodeId))
    {
      assert NodeFits(history, nodeId, nodeId - 1, keys);
      if resp.op.key !in history.nodes[nodeId - 1].pool {
        return false;
      }
      AppendResponse(resp, keys);
      AppendInRealTime(old(history), nodeId, keys, history);
      HistoryLinearizes(history, nodeId + 1, keys);
      EndsOnHistory(history, nodeId + 1, keys);
      var checked := AssertLinearizability(history, 2 * |history.nodes|);
      nodeId := nodeId + 1;
      passed := checked.value;
    }
  }

  lemma EndsOnHistory(g: Graph, n: nat, keys: set<int>)
    requires IsHistory(g, n, keys)
    ensures !HasShortcut(g)
  {
    HistoryIsChain(g, n, keys);
    ChainValid(g, UpTo(n));
    ChainHasNoShortcut(g);
  }

  /** Response `i` is about a key of the pool and came no earlier than any request announced before it. */
  ghost predicate Acceptable(resps: seq<Response>, i: nat, keys: set<int>)
    requires i < |resps|
  {
    && resps[i].op.key in keys && 0 <= resps[i].tsResp
    && forall j | 0 <= j < i :: resps[j].tsReq <= resps[i].tsResp
  }

  /** Announcements with strictly increasing response times, requests before responses, keys in the pool. */
  ghost predicate WellTimed(resps: seq<Response>, keys: set<int>) {
    forall i | 0 <= i < |resps| ::
      && resps[i].op.key in keys && 0 < resps[i].tsReq < resps[i].tsResp
      && (i > 0 ==> resps[i - 1].tsResp < resps[i].tsResp)
  }

  lemma {:induction false} LaterResponds(resps: seq<Response>, keys: set<int>, i: nat, j: nat)
    requires WellTimed(resps, keys) && i < j < |resps|
    ensures resps[i].tsResp < resps[j].tsResp
    decreases j
  {
    if i < j - 1 {
      LaterResponds(resps, keys, i, j - 1);
    }
  }

  lemma WellTimedAcceptable(resps: seq<Response>, keys: set<int>, i: nat)
    requires WellTimed(resps, keys) && i < |resps|
    ensures Acceptable(resps, i, keys)
  {
    forall j | 0 <= j < i ensures resps[j].tsReq <= resps[i].tsResp {
      LaterResponds(resps, keys, j, i);
    }
  }

  /** The history holds the dummy node and the first `n` responses. */
  ghost predicate Holds(g: Graph, initialPool: Pool, resps: seq<Response>, n: nat)
    requires n <= |resps|
  {
    && 0 in g.nodes && g.nodes[0].tsReq == 0 && g.nodes[0].pool == initialPool
    && forall j | 0 <= j < n :: Records(g, j + 1, resps[j])
  }

  lemma HoldsAcceptable(g: Graph, initialPool: Pool, resps: seq<Response>, i: nat, keys: set<int>)
    requires i < |resps| && Holds(g, initialPool, resps, i)
    ensures Acceptable(resps, i, keys) <==> resps[i].op.key in keys && RequestedBy(g, i + 1, resps[i].tsResp)
  {
    if RequestedBy(g, i + 1, resps[i].tsResp) {
      forall j | 0 <= j < i ensures resps[j].tsReq <= resps[i].tsResp {
        assert Records(g, j + 1, resps[j]);
      }
    }
    if Acceptable(resps, i, keys) {
      forall x | 0 <= x < i + 1 ensures x in g.nodes && g.nodes[x].tsReq <= resps[i].tsResp {
        if x > 0 {
          assert Records(g, x - 1 + 1, resps[x - 1]);
        }
      }
    }
  }

  lemma HoldsMore(g: Graph, initialPool: Pool, resps: seq<Response>, i: nat, g': Graph)
    requires i < |resps| && Holds(g, initialPool, resps, i) && SameBefore(g, g', i + 1) && Records(g', i + 1, resps[i])
    ensures Holds(g', initialPool, resps, i + 1)
  {
    assert SameButNext(g, g', 0);
    forall j | 0 <= j < i ensures Records(g', j + 1, resps[j]) {
      assert SameButNext(g, g', j + 1);
      assert Records(g, j + 1, resps[j]);
    }
  }

  /** The operations of the responses. */
  function OpsOf(resps: seq<Response>): (ops: seq<Operation>)
    ensures |ops| == |resps| && forall i | 0 <= i < |resps| :: ops[i] == resps[i].op
  {
    seq(|resps|, i requires 0 <= i < |resps| => resps[i].op)
  }

  /** After `i` responses each key holds the value of the last write to it, or the
      initial one, plus everything added since. */
  lemma HistoryPools(g: Graph, initialPool: Pool, resps: seq<Response>, n: nat, keys: set<int>, i: nat)
    requires n <= |resps| && IsHistory(g, n + 1, keys) && Holds(g, initialPool, resps, n) && i <= n
    ensures g.nodes[i].pool == Replayed(OpsOf(resps[..i]), initialPool)
  {
    var order := UpTo(n + 1);
    HistoryIsChain(g, n + 1, keys);
    FollowingReplaysAt(g, order, i);
    forall j | 0 <= j < i ensures Ops(g, order)[1..i + 1][j] == OpsOf(resps[..i])[j] {
      assert Records(g, j + 1, resps[j]);
    }
    assert Ops(g, order)[1..i + 1] == OpsOf(resps[..i]);
  }

  /** A whole run of the monitor: it stops at the first response that is not
      acceptable, and never fails on a well-timed sequence of announcements. Until
      then the history is the chain of the dummy node and all responses, and each pool
      is what the responses up to it make of the initial one. */
  method MonitorRun(initialPool: Pool, resps: seq<Response>) returns (monitor: ServiceIsLinearizable, accepted: nat)
    ensures accepted <= |resps|
    ensures forall i | 0 <= i < accepted :: Acceptable(resps, i, initialPool.Keys)
    ensures accepted < |resps| ==> !Acceptable(resps, accepted, initialPool.Keys)
    ensures WellTimed(resps, initialPool.Keys) ==> accepted == |resps|
    ensures accepted == |resps| ==>
      && monitor.Valid(initialPool.Keys) && monitor.nodeId == |resps| + 1 && Holds(monitor.history, initialPool, resps, |resps|)
    ensures accepted == |resps| ==>
      forall i | 0 <= i <= |resps| ::
        i in monitor.history.nodes && monitor.history.nodes[i].pool == Replayed(OpsOf(resps[..i]), initialPool)
  {
    monitor := new ServiceIsLinearizable(initialPool);
    for i := 0 to |resps|
      invariant fresh(monitor) && monitor.Valid(initialPool.Keys) && monitor.nodeId == i + 1
      invariant Holds(monitor.history, initialPool, resps, i)
      invariant forall j | 0 <= j < i :: Acceptable(resps, j, initialPool.Keys)
    {
      ghost var before := monitor.history;
      HoldsAcceptable(before, initialPool, resps, i, initialPool.Keys);
      var passed := monitor.ClientSeesResponse(resps[i], initialPool.Keys);
      if !passed {
        if WellTimed(resps, initialPool.Keys) {
          WellTimedAcceptable(resps, initialPool.Keys, i);
        }
        return monitor, i;
      }
      HoldsMore(before, initialPool, resps, i, monitor.history);
    }
    accepted := |resps|;
    forall i | 0 <= i <= |resps|
      ensures monitor.history.nodes[i].pool == Replayed(OpsOf(resps[..i]), initialPool)
    {
      HistoryPools(monitor.history, initialPool, resps, |resps|, initialPool.Keys, i);
    }
  }
}
