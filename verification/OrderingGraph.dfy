/** Ordering graphs of operations: nodes record an operation with its timestamps
    and the object pool after it, edges say what comes after what. */
module OrderingGraph {

  datatype OpType = OP_READ | OP_WRITE | OP_RADDW

  datatype Operation = Operation(typ: OpType, key: int, val: int, ret: int)

  type Pool = map<int, int>

  datatype Node = Node(nId: int, cId: int, op: Operation, tsReq: int, tsResp: int, pool: Pool, next: set<int>)

  datatype Graph = Graph(nodes: map<int, Node>, head: int)

  /** The mutation an operation makes to the pool; the source asserts the key is there. */
  function ApplyOpToPool(op: Operation, pool: Pool): (r: Pool)
    requires op.key in pool
    ensures r.Keys == pool.Keys && forall k | k in pool && k != op.key :: r[k] == pool[k]
  {
    match op.typ
    case OP_READ => pool
    case OP_WRITE => pool[op.key := op.val]
    case OP_RADDW => pool[op.key := pool[op.key] + op.val]
  }

  lemma NonEmpty(s: set<int>)
    requires s != {}
    ensures exists x :: x in s
  {
    if !exists x :: x in s {
      assert false;
    }
  }

  // ----- walks and reachability -----

  predicate Edge(g: Graph, a: int, b: int) {
    a in g.nodes && b in g.nodes[a].next
  }

  predicate EdgeAt(g: Graph, w: seq<int>, i: nat)
    requires i + 1 < |w|
  {
    Edge(g, w[i], w[i + 1])
  }

  ghost predicate Walk(g: Graph, w: seq<int>) {
    |w| > 0 && forall i | 0 <= i < |w| - 1 :: EdgeAt(g, w, i)
  }

  ghost predicate WalkFromTo(g: Graph, w: seq<int>, a: int, b: int) {
    Walk(g, w) && w[0] == a && w[|w| - 1] == b
  }

  /** One or more edges lead from `a` to `b`. */
  ghost predicate Reaches(g: Graph, a: int, b: int) {
    exists w :: WalkFromTo(g, w, a, b) && |w| > 1
  }

  ghost predicate FromHead(g: Graph, a: int) {
    a == g.head || Reaches(g, g.head, a)
  }

  lemma EdgeReaches(g: Graph, a: int, b: int)
    requires Edge(g, a, b)
    ensures Reaches(g, a, b)
  {
    assert WalkFromTo(g, [a, b], a, b);
  }

  lemma JoinWalks(g: Graph, v: seq<int>, w: seq<int>, a: int, b: int, c: int)
    requires WalkFromTo(g, v, a, b) && WalkFromTo(g, w, b, c)
    ensures WalkFromTo(g, v + w[1..], a, c)
  {
    var u := v + w[1..];
    forall i | 0 <= i < |u| - 1 ensures EdgeAt(g, u, i) {
      if i < |v| - 1 {
        assert EdgeAt(g, v, i);
      } else {
        assert EdgeAt(g, w, i - (|v| - 1));
      }
    }
  }

  lemma ReachesTransitive(g: Graph, a: int, b: int, c: int)
    requires Reaches(g, a, b) && Reaches(g, b, c)
    ensures Reaches(g, a, c)
  {
    var v :| WalkFromTo(g, v, a, b) && |v| > 1;
    var w :| WalkFromTo(g, w, b, c) && |w| > 1;
    JoinWalks(g, v, w, a, b, c);
  }

  lemma ReachesThenEdge(g: Graph, a: int, b: int, c: int)
    requires a == b || Reaches(g, a, b)
    requires Edge(g, b, c)
    ensures Reaches(g, a, c)
  {
    EdgeReaches(g, b, c);
    if a != b {
      ReachesTransitive(g, a, b, c);
    }
  }

  lemma EdgeThenReaches(g: Graph, a: int, b: int, c: int)
    requires Edge(g, a, b)
    requires b == c || Reaches(g, b, c)
    ensures Reaches(g, a, c)
  {
    EdgeReaches(g, a, b);
    if b != c {
      ReachesTransitive(g, a, b, c);
    }
  }

  lemma FirstStep(g: Graph, a: int, c: int) returns (b: int)
    requires Reaches(g, a, c)
    ensures Edge(g, a, b) && (b == c || Reaches(g, b, c))
  {
    var w :| WalkFromTo(g, w, a, c) && |w| > 1;
    b := w[1];
    assert EdgeAt(g, w, 0);
    if |w| > 2 {
      SubWalk(g, w, 1, |w| - 1);
      assert w[1..|w|] == w[1..];
    }
  }

  lemma LastStep(g: Graph, a: int, c: int) returns (b: int)
    requires Reaches(g, a, c)
    ensures Edge(g, b, c) && (a == b || Reaches(g, a, b))
  {
    var w :| WalkFromTo(g, w, a, c) && |w| > 1;
    b := w[|w| - 2];
    assert EdgeAt(g, w, |w| - 2);
    if |w| > 2 {
      SubWalk(g, w, 0, |w| - 2);
    }
  }

  lemma SubWalk(g: Graph, w: seq<int>, i: nat, j: nat)
    requires Walk(g, w) && i < j < |w|
    ensures WalkFromTo(g, w[i..j + 1], w[i], w[j]) && Reaches(g, w[i], w[j])
  {
    var v := w[i..j + 1];
    forall k | 0 <= k < |v| - 1 ensures EdgeAt(g, v, k) {
      assert EdgeAt(g, w, i + k);
    }
    assert WalkFromTo(g, v, w[i], w[j]);
  }

  /** A set closed under edges contains everything reachable from its members. */
  lemma ClosedUnderReach(g: Graph, inside: set<int>, a: int, b: int)
    requires forall x, y | x in inside && Edge(g, x, y) :: y in inside
    requires a in inside && Reaches(g, a, b)
    ensures b in inside
  {
    var w :| WalkFromTo(g, w, a, b) && |w| > 1;
    StaysInside(g, inside, w, |w| - 1);
  }

  lemma {:induction false} StaysInside(g: Graph, inside: set<int>, w: seq<int>, i: nat)
    requires forall x, y | x in inside && Edge(g, x, y) :: y in inside
    requires Walk(g, w) && w[0] in inside && i < |w|
    ensures w[i] in inside
  {
    if i > 0 {
      StaysInside(g, inside, w, i - 1);
      assert EdgeAt(g, w, i - 1);
    }
  }

  // ----- what makes a graph well formed -----

  ghost predicate Closed(g: Graph) {
    forall a, b | Edge(g, a, b) :: b in g.nodes
  }

  ghost predicate Acyclic(g: Graph) {
    forall a | a in g.nodes :: !Reaches(g, a, a)
  }

  ghost predicate Valid(g: Graph) {
    && g.head in g.nodes
    && Closed(g) && Acyclic(g)
    && forall a | a in g.nodes :: FromHead(g, a)
  }

  ghost predicate AtMostOneNext(g: Graph) {
    forall a | a in g.nodes :: |g.nodes[a].next| <= 1
  }

  ghost predicate AtMostOnePrevious(g: Graph) {
    forall a, b, c | Edge(g, a, c) && Edge(g, b, c) :: a == b
  }

  /** The pool of `b` results from applying its operation to the pool of `a`. */
  predicate Follows(g: Graph, a: int, b: int) {
    && a in g.nodes && b in g.nodes
    && g.nodes[b].op.key in g.nodes[a].pool
    && g.nodes[b].pool == ApplyOpToPool(g.nodes[b].op, g.nodes[a].pool)
  }

  ghost predicate Explained(g: Graph, b: int) {
    exists a :: Edge(g, a, b) && Follows(g, a, b)
  }

  // ----- what the four convergence levels mean -----

  datatype ConvergenceLevel = C_SO | C_CPO | C_NPO | C_INVALID

  ghost function Convergence(g: Graph): ConvergenceLevel {
    if !Valid(g) then C_INVALID
    else if exists b :: b in g.nodes && b != g.head && !Explained(g, b) then C_NPO
    else if AtMostOneNext(g) then C_SO
    else C_CPO
  }
}
