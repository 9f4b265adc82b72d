/** The coloured depth-first traversal of an ordering graph, one loop iteration at
    a time. The order in which a node's successors are pushed is arbitrary. */
module Dfs {
  import opened OrderingGraph

  datatype Color = Unvisited | InProgress | Finished

  datatype Dfs = Dfs(
    level: ConvergenceLevel,
    stack: seq<int>,
    color: map<int, Color>,
    reach: map<int, set<int>>,
    parents: map<int, set<int>>,
    done: nat)

  datatype Option<+T> = None | Some(value: T)

  function Init(g: Graph): Dfs {
    Dfs(C_SO, [g.head], map n | n in g.nodes :: Unvisited, map n | n in g.nodes :: {}, map n | n in g.nodes :: {}, 0)
  }

  ghost predicate Distinct(s: seq<int>) {
    forall i, j | 0 <= i < j < |s| :: s[i] != s[j]
  }

  /** `order` lists the members of `s`, each once. */
  ghost predicate Enumerates(order: seq<int>, s: set<int>) {
    && Distinct(order)
    && (forall x :: x in order <==> x in s)
  }

  predicate Keyed(g: Graph, s: Dfs) {
    s.color.Keys == s.reach.Keys == s.parents.Keys == g.nodes.Keys
  }

  /** The foreach over the successors of a first-visited node; None is the early return of C_INVALID. */
  function PushAll(g: Graph, s: Dfs, curr: int, order: seq<int>): Option<Dfs>
    requires Keyed(g, s)
    decreases |order|
  {
    if order == [] then Some(s)
    else if order[0] !in g.nodes then None
    else
      var s1 := s.(parents := s.parents[order[0] := s.parents[order[0]] + {curr}]);
      match s.color[order[0]]
      case Unvisited => PushAll(g, s1.(stack := s1.stack + [order[0]]), curr, order[1..])
      case InProgress => None
      case Finished => PushAll(g, s1, curr, order[1..])
  }

  function Mark(g: Graph, s: Dfs, curr: int): Dfs
    requires curr in g.nodes
  {
    s.(color := s.color[curr := InProgress],
       level := if s.level == C_SO && |g.nodes[curr].next| > 1 then C_CPO else s.level)
  }

  function GatherFrom(reach: map<int, set<int>>, bs: set<int>): set<int> {
    bs + set b, y | b in bs && b in reach && y in reach[b] :: y
  }

  function Gathered(g: Graph, s: Dfs, curr: int): set<int>
    requires curr in g.nodes
  {
    GatherFrom(s.reach, g.nodes[curr].next)
  }

  function Finish(g: Graph, s: Dfs, curr: int): Dfs
    requires Keyed(g, s) && curr in g.nodes && s.stack != []
  {
    s.(reach := s.reach[curr := s.reach[curr] + Gathered(g, s, curr)],
       color := s.color[curr := Finished],
       done := s.done + 1,
       stack := s.stack[..|s.stack| - 1])
  }

  function Top(s: Dfs): int
    requires s.stack != []
  {
    s.stack[|s.stack| - 1]
  }

  /** One iteration of the while loop; `r` is None when it returns C_INVALID. */
  ghost predicate Iteration(g: Graph, s: Dfs, r: Option<Dfs>) {
    && Keyed(g, s) && s.stack != [] && Top(s) in g.nodes
    && match s.color[Top(s)]
       case Unvisited =>
         exists order :: Enumerates(order, g.nodes[Top(s)].next) && r == PushAll(g, Mark(g, s, Top(s)), Top(s), order)
       case InProgress => r == Some(Finish(g, s, Top(s)))
       case Finished => r == Some(s)
  }

  ghost predicate LoopRun(g: Graph, ss: seq<Dfs>) {
    && |ss| > 0 && ss[0] == Init(g)
    && forall i | 0 <= i < |ss| - 1 :: Iteration(g, ss[i], Some(ss[i + 1]))
  }

  // ----- what pushing does -----

  function Unseen(color: map<int, Color>, order: seq<int>): seq<int> {
    if order == [] then []
    else if order[0] in color && color[order[0]] == Unvisited then [order[0]] + Unseen(color, order[1..])
    else Unseen(color, order[1..])
  }

  lemma {:induction false} UnseenIs(color: map<int, Color>, order: seq<int>, x: int)
    ensures x in Unseen(color, order) <==> x in order && x in color && color[x] == Unvisited
  {
    if order != [] {
      UnseenIs(color, order[1..], x);
      assert order == [order[0]] + order[1..];
    }
  }

  function AddParent(parents: map<int, set<int>>, curr: int, order: seq<int>): map<int, set<int>> {
    map n | n in parents :: if n in order then parents[n] + {curr} else parents[n]
  }

  ghost predicate Pushable(g: Graph, s: Dfs, order: seq<int>) {
    forall i | 0 <= i < |order| :: order[i] in g.nodes && order[i] in s.color && s.color[order[i]] != InProgress
  }

  lemma AddParentStep(parents: map<int, set<int>>, curr: int, order: seq<int>)
    requires order != [] && order[0] in parents
    ensures AddParent(parents[order[0] := parents[order[0]] + {curr}], curr, order[1..]) == AddParent(parents, curr, order)
  {
    assert order == [order[0]] + order[1..];
  }

  lemma {:induction false} PushAllIs(g: Graph, s: Dfs, curr: int, order: seq<int>)
    requires Keyed(g, s)
    ensures PushAll(g, s, curr, order) ==
      if Pushable(g, s, order)
      then Some(s.(stack := s.stack + Unseen(s.color, order), parents := AddParent(s.parents, curr, order)))
      else None
    decreases |order|
  {
    if order == [] {
      assert AddParent(s.parents, curr, order) == s.parents;
      assert s.stack + [] == s.stack;
    } else if order[0] in g.nodes && s.color[order[0]] != InProgress {
      var x := order[0];
      var s1 := s.(parents := s.parents[x := s.parents[x] + {curr}]);
      var s2 := if s.color[x] == Unvisited then s1.(stack := s1.stack + [x]) else s1;
      PushAllIs(g, s2, curr, order[1..]);
      AddParentStep(s.parents, curr, order);
      assert order == [x] + order[1..];
      assert Pushable(g, s, order) <==> Pushable(g, s2, order[1..]);
      assert s2.stack + Unseen(s.color, order[1..]) == s.stack + Unseen(s.color, order);
    }
  }

  // ----- invariant of the loop -----

  ghost predicate Seen(s: Dfs, x: int) {
    x in s.color && s.color[x] != Unvisited
  }

  ghost predicate Black(s: Dfs, x: int) {
    x in s.color && s.color[x] == Finished
  }

  ghost predicate Above(s: Dfs, a: nat, x: int) {
    exists b | a < b < |s.stack| :: s.stack[b] == x
  }

  /** The in-progress node `x` sits at position `a`: everything above is reachable
      from it, and each of its successors is finished or still above. */
  ghost predicate GrayAt(g: Graph, s: Dfs, x: int, a: nat) {
    && x in g.nodes
    && a < |s.stack| && s.stack[a] == x
    && (forall b | a < b < |s.stack| :: s.stack[b] != x && Reaches(g, x, s.stack[b]))
    && (forall y | y in g.nodes[x].next :: Black(s, y) || Above(s, a, y))
  }

  ghost predicate GrayOk(g: Graph, s: Dfs, x: int) {
    exists a :: GrayAt(g, s, x, a)
  }

  /** A finished node: its successors are finished, it is on no cycle, and its
      reachable set is the exact transitive closure. */
  ghost predicate BlackOk(g: Graph, s: Dfs, x: int) {
    && x in g.nodes && x in s.reach
    && (forall y | y in g.nodes[x].next :: Black(s, y))
    && !Reaches(g, x, x)
    && (forall y :: y in s.reach[x] <==> Reaches(g, x, y))
  }

  ghost predicate ParentsOk(g: Graph, s: Dfs) {
    forall n, p | n in s.parents :: p in s.parents[n] <==> Seen(s, p) && Edge(g, p, n)
  }

  function BlackSet(s: Dfs): set<int> {
    set x | x in s.color && s.color[x] == Finished
  }

  ghost predicate LevelOk(g: Graph, s: Dfs) {
    s.level == if exists x :: x in g.nodes && Seen(s, x) && |g.nodes[x].next| > 1 then C_CPO else C_SO
  }

  ghost predicate NodeOk(g: Graph, s: Dfs, x: int)
    requires Keyed(g, s) && x in g.nodes
  {
    && (s.color[x] != Unvisited ==> FromHead(g, x) && forall y | y in g.nodes[x].next :: y in g.nodes)
    && (s.color[x] != Finished ==> s.reach[x] == {})
    && (s.color[x] == InProgress ==> GrayOk(g, s, x))
    && (s.color[x] == Finished ==> BlackOk(g, s, x))
  }

  ghost predicate StackOk(g: Graph, s: Dfs) {
    && (forall i | 0 <= i < |s.stack| :: s.stack[i] in g.nodes && FromHead(g, s.stack[i]))
    && (Black(s, g.head) || g.head in s.stack)
  }

  ghost predicate Inv(g: Graph, s: Dfs) {
    && g.head in g.nodes && Keyed(g, s)
    && StackOk(g, s)
    && (forall x | x in g.nodes :: NodeOk(g, s, x))
    && ParentsOk(g, s)
    && LevelOk(g, s)
    && s.done == |BlackSet(s)|
  }

  lemma InitInv(g: Graph)
    requires g.head in g.nodes
    ensures Inv(g, Init(g))
  {
    var s := Init(g);
    assert s.stack[0] == g.head;
    assert BlackSet(s) == {};
  }

  /** The next node cannot be visited: its edge leaves the graph or closes a cycle. */
  lemma ReturnsInvalid(g: Graph, s: Dfs, order: seq<int>)
    requires Inv(g, s) && s.stack != [] && s.color[Top(s)] == Unvisited && Enumerates(order, g.nodes[Top(s)].next)
    requires !Pushable(g, Mark(g, s, Top(s)), order)
    ensures !Closed(g) || !Acyclic(g)
  {
    var curr := Top(s);
    var i :| 0 <= i < |order| && !(order[i] in g.nodes && Mark(g, s, curr).color[order[i]] != InProgress);
    var y := order[i];
    assert y in order && Edge(g, curr, y);
    if y in g.nodes {
      if y == curr {
        EdgeReaches(g, curr, curr);
      } else {
        assert NodeOk(g, s, y);
        var a :| GrayAt(g, s, y, a);
        assert s.stack[|s.stack| - 1] == curr;
        assert Reaches(g, y, curr);
        ReachesThenEdge(g, y, curr, y);
      }
    }
  }

  /** State after a first visit that did not return. */
  function Visited(g: Graph, s: Dfs, order: seq<int>): Dfs
    requires Keyed(g, s) && s.stack != [] && Top(s) in g.nodes
  {
    var m := Mark(g, s, Top(s));
    m.(stack := m.stack + Unseen(m.color, order), parents := AddParent(m.parents, Top(s), order))
  }

  ghost predicate CanVisit(g: Graph, s: Dfs, order: seq<int>) {
    && Keyed(g, s) && s.stack != [] && Top(s) in g.nodes && s.color[Top(s)] == Unvisited
    && Enumerates(order, g.nodes[Top(s)].next)
    && Pushable(g, Mark(g, s, Top(s)), order)
  }

  lemma VisitedStack(g: Graph, s: Dfs, order: seq<int>, i: nat)
    requires CanVisit(g, s, order) && |s.stack| <= i < |Visited(g, s, order).stack|
    ensures var x := Visited(g, s, order).stack[i];
      Edge(g, Top(s), x) && x in g.nodes && x in s.color && s.color[x] == Unvisited && x != Top(s)
  {
    var m := Mark(g, s, Top(s));
    var u := Unseen(m.color, order);
    var x := Visited(g, s, order).stack[i];
    assert x == u[i - |s.stack|];
    UnseenIs(m.color, order, x);
  }

  lemma VisitedTop(g: Graph, s: Dfs, order: seq<int>)
    requires CanVisit(g, s, order)
    ensures GrayAt(g, Visited(g, s, order), Top(s), |s.stack| - 1)
  {
    var s', curr, a := Visited(g, s, order), Top(s), |s.stack| - 1;
    forall b | a < b < |s'.stack|
      ensures s'.stack[b] != curr && Reaches(g, curr, s'.stack[b])
    {
      VisitedStack(g, s, order, b);
      EdgeReaches(g, curr, s'.stack[b]);
    }
    forall y | y in g.nodes[curr].next
      ensures Black(s', y) || Above(s', a, y)
    {
      assert y in order;
      var m := Mark(g, s, curr);
      UnseenIs(m.color, order, y);
      if s'.color[y] == Unvisited {
        var i :| 0 <= i < |Unseen(m.color, order)| && Unseen(m.color, order)[i] == y;
        assert s'.stack[|s.stack| + i] == y;
      }
    }
  }

  lemma VisitedGray(g: Graph, s: Dfs, order: seq<int>, x: int, a: nat)
    requires CanVisit(g, s, order) && GrayAt(g, s, x, a) && x in s.color && s.color[x] == InProgress
    ensures GrayAt(g, Visited(g, s, order), x, a)
  {
    var s', curr := Visited(g, s, order), Top(s);
    assert s.stack[|s.stack| - 1] == curr;
    forall b | a < b < |s'.stack|
      ensures s'.stack[b] != x && Reaches(g, x, s'.stack[b])
    {
      if b >= |s.stack| {
        VisitedStack(g, s, order, b);
        ReachesThenEdge(g, x, curr, s'.stack[b]);
      }
    }
    forall y | y in g.nodes[x].next
      ensures Black(s', y) || Above(s', a, y)
    {
      if !Black(s, y) {
        var b :| a < b < |s.stack| && s.stack[b] == y;
        assert s'.stack[b] == y;
      }
    }
  }

  lemma VisitedNode(g: Graph, s: Dfs, order: seq<int>, x: int)
    requires Inv(g, s) && CanVisit(g, s, order) && x in g.nodes
    ensures NodeOk(g, Visited(g, s, order), x)
  {
    assert NodeOk(g, s, x);
    var s' := Visited(g, s, order);
    if x == Top(s) {
      VisitedTop(g, s, order);
      assert forall y | y in g.nodes[x].next :: y in order;
    } else if s.color[x] == InProgress {
      var a :| GrayAt(g, s, x, a);
      VisitedGray(g, s, order, x, a);
    } else if s.color[x] == Finished {
      assert BlackOk(g, s, x);
    }
  }

  lemma VisitedRest(g: Graph, s: Dfs, order: seq<int>)
    requires Inv(g, s) && CanVisit(g, s, order)
    ensures var s' := Visited(g, s, order); StackOk(g, s') && LevelOk(g, s') && s'.done == |BlackSet(s')|
  {
    var s', curr := Visited(g, s, order), Top(s);
    assert BlackSet(s') == BlackSet(s);
    forall i | 0 <= i < |s'.stack|
      ensures s'.stack[i] in g.nodes && FromHead(g, s'.stack[i])
    {
      if i < |s.stack| {
        assert s'.stack[i] == s.stack[i];
      } else {
        VisitedStack(g, s, order, i);
        ReachesThenEdge(g, g.head, curr, s'.stack[i]);
      }
    }
    if !Black(s, g.head) {
      var i :| 0 <= i < |s.stack| && s.stack[i] == g.head;
      assert s'.stack[i] == g.head;
    }
    LevelAfter(g, s, order);
  }

  lemma LevelAfter(g: Graph, s: Dfs, order: seq<int>)
    requires CanVisit(g, s, order) && LevelOk(g, s)
    ensures LevelOk(g, Visited(g, s, order))
  {
    var s', curr := Visited(g, s, order), Top(s);
    if x :| x in g.nodes && Seen(s, x) && |g.nodes[x].next| > 1 {
      assert Seen(s', x);
    } else if |g.nodes[curr].next| > 1 {
      assert Seen(s', curr);
    }
  }

  lemma VisitedParents(g: Graph, s: Dfs, order: seq<int>)
    requires CanVisit(g, s, order) && ParentsOk(g, s)
    ensures ParentsOk(g, Visited(g, s, order))
  {
    var s', curr := Visited(g, s, order), Top(s);
    forall n, p | n in s'.parents
      ensures p in s'.parents[n] <==> Seen(s', p) && Edge(g, p, n)
    {
      assert p in s.parents[n] <==> Seen(s, p) && Edge(g, p, n);
      assert n in order <==> n in g.nodes[curr].next;
    }
  }

  lemma VisitedInv(g: Graph, s: Dfs, order: seq<int>)
    requires Inv(g, s) && CanVisit(g, s, order)
    ensures Inv(g, Visited(g, s, order))
  {
    VisitedRest(g, s, order);
    VisitedParents(g, s, order);
    forall x | x in g.nodes ensures NodeOk(g, Visited(g, s, order), x) {
      VisitedNode(g, s, order, x);
    }
  }

  // ----- finishing a node -----

  ghost predicate CanFinish(g: Graph, s: Dfs) {
    && Keyed(g, s) && s.stack != [] && Top(s) in g.nodes && s.color[Top(s)] == InProgress
  }

  /** The assertion inside the loop: when a node is finished, so are its successors. */
  lemma SuccessorsFinished(g: Graph, s: Dfs)
    requires Inv(g, s) && CanFinish(g, s)
    ensures forall y | y in g.nodes[Top(s)].next :: y in g.nodes && s.color[y] == Finished
  {
    var curr := Top(s);
    assert NodeOk(g, s, curr);
    var a :| GrayAt(g, s, curr, a);
    assert s.stack[|s.stack| - 1] == curr;
    assert a == |s.stack| - 1;
  }

  lemma FinishedReach(g: Graph, s: Dfs)
    requires Inv(g, s) && CanFinish(g, s)
    ensures forall y :: y in Gathered(g, s, Top(s)) <==> Reaches(g, Top(s), y)
  {
    var curr := Top(s);
    SuccessorsFinished(g, s);
    forall y | y in Gathered(g, s, curr) ensures Reaches(g, curr, y) {
      if y in g.nodes[curr].next {
        EdgeReaches(g, curr, y);
      } else {
        var b :| b in g.nodes[curr].next && b in s.reach && y in s.reach[b];
        assert NodeOk(g, s, b);
        EdgeThenReaches(g, curr, b, y);
      }
    }
    forall y | Reaches(g, curr, y) ensures y in Gathered(g, s, curr) {
      var b := FirstStep(g, curr, y);
      assert NodeOk(g, s, b);
    }
  }

  lemma FinishedAcyclic(g: Graph, s: Dfs)
    requires Inv(g, s) && CanFinish(g, s)
    ensures !Reaches(g, Top(s), Top(s))
  {
    var curr := Top(s);
    SuccessorsFinished(g, s);
    if Reaches(g, curr, curr) {
      var b := FirstStep(g, curr, curr);
      forall x, y | x in BlackSet(s) && Edge(g, x, y)
        ensures y in BlackSet(s)
      {
        assert NodeOk(g, s, x);
      }
      if b != curr {
        ClosedUnderReach(g, BlackSet(s), b, curr);
      }
    }
  }

  lemma FinishGray(g: Graph, s: Dfs, x: int, a: nat)
    requires CanFinish(g, s) && GrayAt(g, s, x, a) && x != Top(s)
    ensures GrayAt(g, Finish(g, s, Top(s)), x, a)
  {
    var s', curr := Finish(g, s, Top(s)), Top(s);
    forall y | y in g.nodes[x].next
      ensures Black(s', y) || Above(s', a, y)
    {
      if !Black(s, y) && y != curr {
        var b :| a < b < |s.stack| && s.stack[b] == y;
        assert s'.stack[b] == y;
      }
    }
  }

  lemma FinishedOk(g: Graph, s: Dfs)
    requires CanFinish(g, s) && s.reach[Top(s)] == {} && !Reaches(g, Top(s), Top(s))
    requires forall y | y in g.nodes[Top(s)].next :: y in g.nodes && s.color[y] == Finished
    requires forall y :: y in Gathered(g, s, Top(s)) <==> Reaches(g, Top(s), y)
    ensures BlackOk(g, Finish(g, s, Top(s)), Top(s))
  {
    assert Finish(g, s, Top(s)).reach[Top(s)] == Gathered(g, s, Top(s));
  }

  lemma FinishTop(g: Graph, s: Dfs)
    requires Inv(g, s) && CanFinish(g, s)
    ensures BlackOk(g, Finish(g, s, Top(s)), Top(s))
  {
    SuccessorsFinished(g, s);
    FinishedReach(g, s);
    FinishedAcyclic(g, s);
    assert NodeOk(g, s, Top(s));
    FinishedOk(g, s);
  }

  lemma FinishOther(g: Graph, s: Dfs, x: int)
    requires CanFinish(g, s) && x in g.nodes && NodeOk(g, s, x) && x != Top(s)
    ensures NodeOk(g, Finish(g, s, Top(s)), x)
  {
    if s.color[x] == InProgress {
      var a :| GrayAt(g, s, x, a);
      FinishGray(g, s, x, a);
    } else if s.color[x] == Finished {
      assert BlackOk(g, s, x);
    }
  }

  lemma FinishNode(g: Graph, s: Dfs, x: int)
    requires Inv(g, s) && CanFinish(g, s) && x in g.nodes
    ensures NodeOk(g, Finish(g, s, Top(s)), x)
  {
    assert NodeOk(g, s, x);
    if x == Top(s) {
      FinishTop(g, s);
    } else {
      FinishOther(g, s, x);
    }
  }

  lemma FinishStack(g: Graph, s: Dfs)
    requires CanFinish(g, s) && StackOk(g, s)
    ensures StackOk(g, Finish(g, s, Top(s)))
  {
    var s' := Finish(g, s, Top(s));
    assert forall i | 0 <= i < |s'.stack| :: s'.stack[i] == s.stack[i];
    if !Black(s', g.head) {
      var i :| 0 <= i < |s.stack| && s.stack[i] == g.head;
      assert s'.stack[i] == g.head;
    }
  }

  lemma FinishRest(g: Graph, s: Dfs)
    requires CanFinish(g, s) && ParentsOk(g, s) && LevelOk(g, s) && s.done == |BlackSet(s)|
    ensures var s' := Finish(g, s, Top(s)); ParentsOk(g, s') && LevelOk(g, s') && s'.done == |BlackSet(s')|
  {
    var s' := Finish(g, s, Top(s));
    assert BlackSet(s') == BlackSet(s) + {Top(s)};
    assert forall x :: Seen(s', x) <==> Seen(s, x);
  }

  lemma FinishInv(g: Graph, s: Dfs)
    requires Inv(g, s) && CanFinish(g, s)
    ensures Inv(g, Finish(g, s, Top(s)))
  {
    forall x | x in g.nodes ensures NodeOk(g, Finish(g, s, Top(s)), x) {
      FinishNode(g, s, x);
    }
    FinishStack(g, s);
    FinishRest(g, s);
  }

  /** Every iteration keeps the invariant, or returns because the graph is not valid. */
  lemma IterationInv(g: Graph, s: Dfs, r: Option<Dfs>)
    requires Inv(g, s) && Iteration(g, s, r)
    ensures r.Some? ==> Inv(g, r.value)
    ensures r.None? ==> !Closed(g) || !Acyclic(g)
  {
    match s.color[Top(s)]
    case Unvisited =>
      var order :| Enumerates(order, g.nodes[Top(s)].next) && r == PushAll(g, Mark(g, s, Top(s)), Top(s), order);
      PushAllIs(g, Mark(g, s, Top(s)), Top(s), order);
      if r.Some? {
        VisitedInv(g, s, order);
      } else {
        ReturnsInvalid(g, s, order);
      }
    case InProgress => FinishInv(g, s);
    case Finished =>
  }

  // ----- what holds when the stack is empty -----

  lemma EmptyStack(g: Graph, s: Dfs)
    requires Inv(g, s) && s.stack == []
    ensures forall x | x in g.nodes :: Black(s, x) <==> FromHead(g, x)
    ensures forall x | x in g.nodes :: s.color[x] != InProgress
    ensures BlackSet(s) <= g.nodes.Keys
  {
    forall x | x in g.nodes ensures s.color[x] != InProgress {
      assert NodeOk(g, s, x);
    }
    forall x, y | x in BlackSet(s) && Edge(g, x, y)
      ensures y in BlackSet(s)
    {
      assert NodeOk(g, s, x);
    }
    forall x | x in g.nodes ensures Black(s, x) <==> FromHead(g, x) {
      assert NodeOk(g, s, x);
      if FromHead(g, x) && x != g.head {
        ClosedUnderReach(g, BlackSet(s), g.head, x);
      }
    }
  }

  lemma SubsetSize(a: set<int>, b: set<int>)
    requires a <= b
    ensures |a| <= |b| && (|a| == |b| ==> a == b)
  {
    assert |b - a| == |b| - |a|;
    if |a| == |b| {
      assert b - a == {};
    }
  }

  /** The count decides validity: all nodes finished exactly when the graph is valid. */
  lemma CountDecides(g: Graph, s: Dfs)
    requires Inv(g, s) && s.stack == []
    ensures s.done <= |g.nodes| && (s.done == |g.nodes| <==> Valid(g))
    ensures s.done == |g.nodes| ==> forall x | x in g.nodes :: Black(s, x)
  {
    EmptyStack(g, s);
    SubsetSize(BlackSet(s), g.nodes.Keys);
    if s.done == |g.nodes| {
      forall x | x in g.nodes ensures Black(s, x) && BlackOk(g, s, x) {
        assert NodeOk(g, s, x);
        assert x in BlackSet(s);
      }
      forall a, b | Edge(g, a, b) ensures b in g.nodes {
        assert BlackOk(g, s, a);
      }
    }
    if Valid(g) {
      forall x | x in g.nodes ensures x in BlackSet(s) {
        assert FromHead(g, x);
      }
      assert BlackSet(s) == g.nodes.Keys;
    }
  }
}
