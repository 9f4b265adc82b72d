/** When the traversal loop ends. A finished node on top of the stack is never
    popped, so a node pushed twice blocks the loop forever. That can happen for
    some push order exactly when the graph has a shortcut edge. */
module DfsTermination {
  import opened OrderingGraph
  import opened Dfs

  /** `p` has an edge to `v` and also reaches, around `v`, another predecessor `q` of `v`. */
  ghost predicate Shortcut(g: Graph, p: int, q: int, v: int) {
    p != q && Edge(g, p, v) && Edge(g, q, v) && exists w :: WalkFromTo(g, w, p, q) && v !in w
  }

  ghost predicate HasShortcut(g: Graph) {
    exists p, q, v :: FromHead(g, p) && Shortcut(g, p, q, v)
  }

  lemma ChainHasNoShortcut(g: Graph)
    requires AtMostOneNext(g) || AtMostOnePrevious(g)
    ensures !HasShortcut(g)
  {
    forall p, q, v | Shortcut(g, p, q, v)
      ensures false
    {
      if AtMostOneNext(g) {
        var w :| WalkFromTo(g, w, p, q) && v !in w;
        assert EdgeAt(g, w, 0);
        assert {v, w[1]} <= g.nodes[p].next;
        SubsetSize({v, w[1]}, g.nodes[p].next);
      }
    }
  }

  // ----- progress -----

  function Colored(s: Dfs, c: Color): set<int> {
    set x | x in s.color && s.color[x] == c
  }

  function Remaining(s: Dfs): nat {
    2 * |Colored(s, Unvisited)| + |Colored(s, InProgress)|
  }

  lemma Recolor(s: Dfs, s': Dfs, x: int, c: Color)
    requires x in s.color && s'.color == s.color[x := c] && c != s.color[x]
    ensures |Colored(s', s.color[x])| == |Colored(s, s.color[x])| - 1
    ensures |Colored(s', c)| == |Colored(s, c)| + 1
    ensures forall d | d != c && d != s.color[x] :: Colored(s', d) == Colored(s, d)
  {
    assert Colored(s', s.color[x]) == Colored(s, s.color[x]) - {x};
    assert Colored(s', c) == Colored(s, c) + {x};
  }

  /** Every iteration uses up one unit of remaining work, or changes nothing
      because a finished node is on top. */
  lemma IterationProgress(g: Graph, s: Dfs, s': Dfs)
    requires Iteration(g, s, Some(s'))
    ensures if s.color[Top(s)] == Finished then s' == s else Remaining(s') == Remaining(s) - 1
  {
    match s.color[Top(s)]
    case Unvisited =>
      var m := Mark(g, s, Top(s));
      var order :| Enumerates(order, g.nodes[Top(s)].next) && Some(s') == PushAll(g, m, Top(s), order);
      PushAllIs(g, m, Top(s), order);
      Recolor(s, s', Top(s), InProgress);
    case InProgress => Recolor(s, s', Top(s), Finished);
    case Finished =>
  }

  // ----- without shortcuts, nothing is pushed twice -----

  ghost predicate Gray(s: Dfs, x: int) {
    x in s.color && s.color[x] == InProgress
  }

  /** Each stacked node was pushed by the nearest in-progress node below it. */
  ghost predicate PushedBy(g: Graph, s: Dfs) {
    forall a, b | 0 <= a < b < |s.stack| && Gray(s, s.stack[a]) && (forall c | a < c < b :: !Gray(s, s.stack[c])) ::
      Edge(g, s.stack[a], s.stack[b])
  }

  ghost predicate Tidy(g: Graph, s: Dfs) {
    && Distinct(s.stack)
    && (forall i | 0 <= i < |s.stack| :: !Black(s, s.stack[i]))
    && (|s.stack| > 1 ==> Gray(s, s.stack[0]))
    && PushedBy(g, s)
  }

  lemma {:induction false} NearestGray(s: Dfs, b: nat) returns (a: nat)
    requires 0 < b < |s.stack| && Gray(s, s.stack[0])
    ensures a < b && Gray(s, s.stack[a]) && forall c | a < c < b :: !Gray(s, s.stack[c])
  {
    a := b - 1;
    while !Gray(s, s.stack[a])
      invariant a < b && forall c | a < c < b :: !Gray(s, s.stack[c])
      decreases a
    {
      a := a - 1;
    }
  }

  /** In-progress nodes lead from any of them up to any higher stack position. */
  lemma {:induction false} GrayWalk(g: Graph, s: Dfs, a: nat, t: nat) returns (w: seq<int>)
    requires Tidy(g, s) && a < t < |s.stack| && Gray(s, s.stack[a])
    ensures WalkFromTo(g, w, s.stack[a], s.stack[t])
    ensures forall x | x in w :: Gray(s, x) || x == s.stack[t]
    decreases t
  {
    var c := NearestGray(s, t);
    assert Edge(g, s.stack[c], s.stack[t]);
    if c == a {
      w := [s.stack[a], s.stack[t]];
    } else {
      var v := GrayWalk(g, s, a, c);
      w := v + [s.stack[t]];
      assert WalkFromTo(g, [s.stack[c], s.stack[t]], s.stack[c], s.stack[t]);
      JoinWalks(g, v, [s.stack[c], s.stack[t]], s.stack[a], s.stack[c], s.stack[t]);
      assert [s.stack[c], s.stack[t]][1..] == [s.stack[t]];
    }
  }

  lemma NotYetStacked(g: Graph, s: Dfs, v: int)
    requires Inv(g, s) && Tidy(g, s) && !HasShortcut(g)
    requires s.stack != [] && Edge(g, Top(s), v) && v in s.color && s.color[v] == Unvisited
    requires s.color[Top(s)] == Unvisited && v != Top(s)
    ensures v !in s.stack
  {
    var t := |s.stack| - 1;
    if v in s.stack {
      var b :| 0 <= b < |s.stack| && s.stack[b] == v;
      var a := NearestGray(s, b);
      var w := GrayWalk(g, s, a, t);
      assert NodeOk(g, s, s.stack[a]);
      assert Shortcut(g, s.stack[a], Top(s), v);
      assert false;
    }
  }

  lemma VisitDistinct(g: Graph, s: Dfs, order: seq<int>, i: nat, j: nat)
    requires Inv(g, s) && Tidy(g, s) && !HasShortcut(g) && CanVisit(g, s, order) && i < j < |Visited(g, s, order).stack|
    ensures Visited(g, s, order).stack[i] != Visited(g, s, order).stack[j]
  {
    var s', t := Visited(g, s, order), |s.stack|;
    if j < t {
      assert s'.stack[i] == s.stack[i] && s'.stack[j] == s.stack[j];
    } else if i < t {
      VisitedStack(g, s, order, j);
      NotYetStacked(g, s, s'.stack[j]);
      assert s'.stack[i] == s.stack[i];
    } else {
      NewDistinct(g, s, order, i, j);
    }
  }

  lemma NewDistinct(g: Graph, s: Dfs, order: seq<int>, i: nat, j: nat)
    requires CanVisit(g, s, order) && |s.stack| <= i < j < |Visited(g, s, order).stack|
    ensures Visited(g, s, order).stack[i] != Visited(g, s, order).stack[j]
  {
    var m := Mark(g, s, Top(s));
    var u := Unseen(m.color, order);
    UnseenDistinct(m.color, order);
    var a, b := i - |s.stack|, j - |s.stack|;
    assert (s.stack + u)[i] == u[a] && (s.stack + u)[j] == u[b];
    assert u[a] != u[b];
  }

  lemma VisitTidy(g: Graph, s: Dfs, order: seq<int>)
    requires Inv(g, s) && Tidy(g, s) && !HasShortcut(g) && CanVisit(g, s, order)
    ensures Tidy(g, Visited(g, s, order))
  {
    var s' := Visited(g, s, order);
    forall i, j | 0 <= i < j < |s'.stack| ensures s'.stack[i] != s'.stack[j] {
      VisitDistinct(g, s, order, i, j);
    }
    forall i | 0 <= i < |s'.stack| ensures !Black(s', s'.stack[i]) {
      if i < |s.stack| {
        assert s'.stack[i] == s.stack[i];
      } else {
        VisitedStack(g, s, order, i);
      }
    }
    assert |s.stack| > 1 ==> s'.stack[0] == s.stack[0];
    VisitPushedBy(g, s, order);
  }

  lemma {:induction false} UnseenDistinct(color: map<int, Color>, order: seq<int>)
    requires Distinct(order)
    ensures Distinct(Unseen(color, order))
  {
    if order != [] {
      UnseenDistinct(color, order[1..]);
      UnseenIs(color, order[1..], order[0]);
    }
  }

  lemma VisitPushedBy(g: Graph, s: Dfs, order: seq<int>)
    requires Tidy(g, s) && CanVisit(g, s, order)
    ensures PushedBy(g, Visited(g, s, order))
  {
    var s', t := Visited(g, s, order), |s.stack| - 1;
    assert s'.stack[t] == Top(s) && Gray(s', Top(s));
    forall a, b | 0 <= a < b < |s'.stack| && Gray(s', s'.stack[a]) && (forall c | a < c < b :: !Gray(s', s'.stack[c]))
      ensures Edge(g, s'.stack[a], s'.stack[b])
    {
      if b > t {
        VisitedStack(g, s, order, b);
        if a > t {
          VisitedStack(g, s, order, a);
        }
        assert a == t;
      } else {
        assert Gray(s, s.stack[a]);
        assert forall c | a < c < b :: s'.stack[c] == s.stack[c] && !Gray(s, s.stack[c]);
      }
    }
  }

  lemma FinishPushedBy(g: Graph, s: Dfs, s': Dfs)
    requires PushedBy(g, s) && s.stack != [] && s'.stack == s.stack[..|s.stack| - 1]
    requires forall i | 0 <= i < |s'.stack| :: Gray(s', s'.stack[i]) <==> Gray(s, s'.stack[i])
    ensures PushedBy(g, s')
  {
    forall a, b | 0 <= a < b < |s'.stack| && Gray(s', s'.stack[a]) && (forall c | a < c < b :: !Gray(s', s'.stack[c]))
      ensures Edge(g, s'.stack[a], s'.stack[b])
    {
      assert s.stack[a] == s'.stack[a] && s.stack[b] == s'.stack[b];
      assert forall c | a < c < b :: s.stack[c] == s'.stack[c];
    }
  }

  lemma FinishTidy(g: Graph, s: Dfs)
    requires Tidy(g, s) && CanFinish(g, s)
    ensures Tidy(g, Finish(g, s, Top(s)))
  {
    var s' := Finish(g, s, Top(s));
    assert forall i | 0 <= i < |s'.stack| :: s'.stack[i] == s.stack[i] && s.stack[i] != Top(s);
    FinishPushedBy(g, s, s');
  }

  lemma IterationTidy(g: Graph, s: Dfs, s': Dfs)
    requires Inv(g, s) && Tidy(g, s) && !HasShortcut(g) && Iteration(g, s, Some(s'))
    ensures Tidy(g, s') && Remaining(s') == Remaining(s) - 1
  {
    assert !Black(s, s.stack[|s.stack| - 1]);
    IterationProgress(g, s, s');
    if s.color[Top(s)] == Unvisited {
      var m := Mark(g, s, Top(s));
      var order :| Enumerates(order, g.nodes[Top(s)].next) && Some(s') == PushAll(g, m, Top(s), order);
      PushAllIs(g, m, Top(s), order);
      VisitTidy(g, s, order);
    } else {
      FinishTidy(g, s);
    }
  }

  lemma InitTidy(g: Graph)
    requires g.head in g.nodes
    ensures Tidy(g, Init(g)) && Remaining(Init(g)) == 2 * |g.nodes|
  {
    assert Colored(Init(g), Unvisited) == g.nodes.Keys;
    assert Colored(Init(g), InProgress) == {};
  }

  lemma {:induction false} RunTidy(g: Graph, ss: seq<Dfs>, n: nat)
    requires g.head in g.nodes && !HasShortcut(g) && LoopRun(g, ss) && n < |ss|
    ensures Inv(g, ss[n]) && Tidy(g, ss[n]) && Remaining(ss[n]) == 2 * |g.nodes| - n
  {
    if n == 0 {
      InitInv(g);
      InitTidy(g);
    } else {
      RunTidy(g, ss, n - 1);
      assert Iteration(g, ss[n - 1], Some(ss[n - 1 + 1]));
      IterationInv(g, ss[n - 1], Some(ss[n]));
      IterationTidy(g, ss[n - 1], ss[n]);
    }
  }

  /** Without a shortcut, whatever the push order, the loop ends within two iterations per node. */
  lemma LoopEnds(g: Graph, ss: seq<Dfs>)
    requires g.head in g.nodes && !HasShortcut(g) && LoopRun(g, ss)
    ensures |ss| <= 2 * |g.nodes| + 1
    ensures ss[|ss| - 1].stack != [] ==> Tidy(g, ss[|ss| - 1])
  {
    RunTidy(g, ss, |ss| - 1);
  }

  // ----- a shortcut blocks the loop for some push order -----

  /** A node twice on the stack, or finished and still on it. */
  ghost predicate Jammed(s: Dfs) {
    || (exists i, j | 0 <= i < j < |s.stack| :: s.stack[i] == s.stack[j])
    || (exists i | 0 <= i < |s.stack| :: Black(s, s.stack[i]))
  }

  lemma JamStays(g: Graph, s: Dfs, s': Dfs)
    requires Jammed(s) && Iteration(g, s, Some(s'))
    ensures Jammed(s')
  {
    if s.color[Top(s)] == Unvisited {
      var m := Mark(g, s, Top(s));
      var order :| Enumerates(order, g.nodes[Top(s)].next) && Some(s') == PushAll(g, m, Top(s), order);
      PushAllIs(g, m, Top(s), order);
      assert forall i | 0 <= i < |s.stack| :: s'.stack[i] == s.stack[i];
    } else if s.color[Top(s)] == InProgress {
      assert forall i | 0 <= i < |s'.stack| :: s'.stack[i] == s.stack[i];
      if i, j :| 0 <= i < j < |s.stack| && s.stack[i] == s.stack[j] {
        if j == |s.stack| - 1 {
          assert Black(s', s'.stack[i]);
        }
      } else {
        var i :| 0 <= i < |s.stack| && Black(s, s.stack[i]);
        assert Black(s', s'.stack[i]);
      }
    }
  }

  lemma {:induction false} Enumerable(s: set<int>) returns (order: seq<int>)
    ensures Enumerates(order, s)
  {
    if s == {} {
      order := [];
    } else {
      NonEmpty(s);
      var x :| x in s;
      var rest := Enumerable(s - {x});
      order := rest + [x];
    }
  }

  lemma EnumerableEndingIn(s: set<int>, x: int) returns (order: seq<int>)
    requires x in s
    ensures Enumerates(order, s) && order[|order| - 1] == x
  {
    var rest := Enumerable(s - {x});
    order := rest + [x];
  }

  lemma CanIterate(g: Graph, s: Dfs) returns (s': Dfs)
    requires Inv(g, s) && Closed(g) && Acyclic(g) && s.stack != []
    ensures Iteration(g, s, Some(s')) && Inv(g, s')
  {
    assert s.stack[|s.stack| - 1] in g.nodes;
    match s.color[Top(s)] {
      case Unvisited =>
        var order := Enumerable(g.nodes[Top(s)].next);
        s' := CanVisitIn(g, s, order);
      case InProgress => s' := Finish(g, s, Top(s));
      case Finished => s' := s;
    }
    IterationInv(g, s, Some(s'));
  }

  lemma CanVisitIn(g: Graph, s: Dfs, order: seq<int>) returns (s': Dfs)
    requires Inv(g, s) && Closed(g) && Acyclic(g) && s.stack != [] && s.color[Top(s)] == Unvisited
    requires Enumerates(order, g.nodes[Top(s)].next)
    ensures CanVisit(g, s, order) && s' == Visited(g, s, order) && Iteration(g, s, Some(s')) && Inv(g, s')
  {
    var m := Mark(g, s, Top(s));
    PushAllIs(g, m, Top(s), order);
    if !Pushable(g, m, order) {
      ReturnsInvalid(g, s, order);
    }
    s' := Visited(g, s, order);
    assert Some(s') == PushAll(g, m, Top(s), order);
    IterationInv(g, s, Some(s'));
  }

  /** From a jammed state the loop goes on for any number of iterations. */
  lemma {:induction false} JamRuns(g: Graph, ss: seq<Dfs>, n: nat) returns (longer: seq<Dfs>)
    requires LoopRun(g, ss) && Inv(g, ss[|ss| - 1]) && Jammed(ss[|ss| - 1]) && Closed(g) && Acyclic(g)
    ensures LoopRun(g, longer) && |longer| == |ss| + n
    decreases n
  {
    if n == 0 {
      longer := ss;
    } else {
      var s := ss[|ss| - 1];
      var s' := CanIterate(g, s);
      JamStays(g, s, s');
      RunGrows(g, ss, s');
      longer := JamRuns(g, ss + [s'], n - 1);
    }
  }

  lemma RunGrows(g: Graph, ss: seq<Dfs>, s': Dfs)
    requires LoopRun(g, ss) && Iteration(g, ss[|ss| - 1], Some(s'))
    ensures LoopRun(g, ss + [s'])
  {
    var tt := ss + [s'];
    forall i | 0 <= i < |tt| - 1 ensures Iteration(g, tt[i], Some(tt[i + 1])) {
      if i < |ss| - 1 {
        assert Iteration(g, ss[i], Some(ss[i + 1]));
      }
    }
  }

  /** The route of the adversary: from the head down to `v`, passing a node that also points at `v`. */
  ghost predicate Route(g: Graph, path: seq<int>, ip: nat) {
    && Walk(g, path) && ip + 2 < |path|
    && path[0] == g.head
    && Edge(g, path[ip], path[|path| - 1])
  }

  ghost predicate OnlyGray(g: Graph, s: Dfs, grays: seq<int>) {
    forall x | x in g.nodes && x in s.color :: s.color[x] == if x in grays then InProgress else Unvisited
  }

  /** The traversal has gone straight down the route to position `k`. */
  ghost predicate Descended(g: Graph, path: seq<int>, ip: nat, s: Dfs, k: nat)
    requires Route(g, path, ip) && k < |path|
  {
    && Keyed(g, s)
    && s.stack != [] && Top(s) == path[k]
    && OnlyGray(g, s, path[..k])
    && (k > ip ==> path[|path| - 1] in s.stack[..|s.stack| - 1])
  }

  lemma RouteSimple(g: Graph, path: seq<int>, ip: nat, i: nat, j: nat)
    requires Route(g, path, ip) && Acyclic(g) && i < j < |path|
    ensures path[i] != path[j]
  {
    SubWalk(g, path, i, j);
    assert EdgeAt(g, path, i);
  }

  lemma {:induction false} UnseenLast(color: map<int, Color>, order: seq<int>)
    requires order != [] && order[|order| - 1] in color && color[order[|order| - 1]] == Unvisited
    ensures var u := Unseen(color, order); u != [] && u[|u| - 1] == order[|order| - 1]
  {
    if |order| > 1 {
      assert order[1..][|order[1..]| - 1] == order[|order| - 1];
      UnseenLast(color, order[1..]);
    }
  }

  /** Nodes further down the route have not been touched. */
  lemma AheadUnvisited(g: Graph, path: seq<int>, ip: nat, s: Dfs, k: nat, j: nat)
    requires Route(g, path, ip) && Closed(g) && Acyclic(g) && k <= j < |path| && 0 < j
    requires Keyed(g, s) && OnlyGray(g, s, path[..k])
    ensures path[j] in g.nodes && s.color[path[j]] == Unvisited
  {
    assert EdgeAt(g, path, j - 1);
    if path[j] in path[..k] {
      var i :| 0 <= i < k && path[..k][i] == path[j];
      RouteSimple(g, path, ip, i, j);
    }
  }

  lemma DescendFacts(g: Graph, path: seq<int>, ip: nat, s: Dfs, k: nat)
    requires g.head in g.nodes && Route(g, path, ip) && Closed(g) && Acyclic(g) && k + 1 < |path|
    requires Keyed(g, s) && OnlyGray(g, s, path[..k])
    ensures path[k] in g.nodes && path[k + 1] in g.nodes && path[|path| - 1] in g.nodes && Edge(g, path[k], path[k + 1])
    ensures s.color[path[k]] == Unvisited && s.color[path[k + 1]] == Unvisited && s.color[path[|path| - 1]] == Unvisited
    ensures path[k + 1] != path[k] && path[|path| - 1] != path[k]
  {
    assert EdgeAt(g, path, k);
    if k == 0 {
      assert path[..0] == [];
    } else {
      AheadUnvisited(g, path, ip, s, k, k);
    }
    AheadUnvisited(g, path, ip, s, k, k + 1);
    AheadUnvisited(g, path, ip, s, k, |path| - 1);
    RouteSimple(g, path, ip, k, k + 1);
    RouteSimple(g, path, ip, k, |path| - 1);
  }

  /** The last successor of the push order ends up on top, everything else stays below. */
  lemma DescendStack(g: Graph, s: Dfs, order: seq<int>, next: int, v: int)
    requires CanVisit(g, s, order) && order != [] && order[|order| - 1] == next
    requires next in g.nodes && s.color[next] == Unvisited && next != Top(s)
    ensures var s' := Visited(g, s, order);
      && s'.stack != [] && Top(s') == next
      && s.stack <= s'.stack[..|s'.stack| - 1]
      && (v in order && v != next && v != Top(s) && v in g.nodes && s.color[v] == Unvisited ==>
            v in s'.stack[..|s'.stack| - 1])
  {
    var m := Mark(g, s, Top(s));
    var u := Unseen(m.color, order);
    UnseenLast(m.color, order);
    assert Visited(g, s, order).stack == s.stack + u;
    if v in order && v != next && v != Top(s) && v in g.nodes && s.color[v] == Unvisited {
      PushedBelowTop(m.color, order, s.stack, v);
    }
  }

  lemma PushedBelowTop(color: map<int, Color>, order: seq<int>, stack: seq<int>, v: int)
    requires v in order && v in color && color[v] == Unvisited && order[|order| - 1] != v
    requires var u := Unseen(color, order); u != [] && u[|u| - 1] == order[|order| - 1]
    ensures var t := stack + Unseen(color, order); v in t[..|t| - 1]
  {
    var u := Unseen(color, order);
    UnseenIs(color, order, v);
    var i :| 0 <= i < |u| && u[i] == v;
    assert (stack + u)[..|stack + u| - 1][|stack| + i] == v;
  }

  lemma RouteColors(g: Graph, path: seq<int>, s: Dfs, k: nat, order: seq<int>)
    requires k < |path| && CanVisit(g, s, order) && Top(s) == path[k] && OnlyGray(g, s, path[..k])
    ensures OnlyGray(g, Visited(g, s, order), path[..k + 1])
  {
    assert path[..k + 1] == path[..k] + [path[k]];
  }

  lemma StaysBelow(a: seq<int>, b: seq<int>, v: int)
    requires a != [] && b != [] && a <= b[..|b| - 1] && v in a[..|a| - 1]
    ensures v in b[..|b| - 1]
  {
    var i :| 0 <= i < |a| - 1 && a[i] == v;
    assert b[..|b| - 1][i] == v;
  }

  lemma DescendKeeps(g: Graph, path: seq<int>, ip: nat, s: Dfs, k: nat, order: seq<int>)
    requires g.head in g.nodes && Route(g, path, ip) && Closed(g) && Acyclic(g) && k + 1 < |path|
    requires Descended(g, path, ip, s, k) && CanVisit(g, s, order)
    requires order != [] && order[|order| - 1] == path[k + 1]
    ensures Descended(g, path, ip, Visited(g, s, order), k + 1)
  {
    var v := path[|path| - 1];
    DescendFacts(g, path, ip, s, k);
    RouteColors(g, path, s, k, order);
    DescendStack(g, s, order, path[k + 1], v);
    if k == ip {
      RouteSimple(g, path, ip, k + 1, |path| - 1);
      assert v in order;
    } else if k > ip {
      StaysBelow(s.stack, Visited(g, s, order).stack, v);
    }
  }

  lemma DescendStep(g: Graph, path: seq<int>, ip: nat, s: Dfs, k: nat) returns (s': Dfs)
    requires Inv(g, s) && Route(g, path, ip) && Closed(g) && Acyclic(g) && k + 1 < |path| && Descended(g, path, ip, s, k)
    ensures Iteration(g, s, Some(s')) && Inv(g, s') && Descended(g, path, ip, s', k + 1)
  {
    DescendFacts(g, path, ip, s, k);
    var order := EnumerableEndingIn(g.nodes[path[k]].next, path[k + 1]);
    s' := CanVisitIn(g, s, order);
    DescendKeeps(g, path, ip, s, k, order);
  }

  lemma {:induction false} Descend(g: Graph, path: seq<int>, ip: nat, k: nat) returns (ss: seq<Dfs>)
    requires g.head in g.nodes && Route(g, path, ip) && Closed(g) && Acyclic(g) && k < |path|
    ensures LoopRun(g, ss) && Inv(g, ss[|ss| - 1]) && Descended(g, path, ip, ss[|ss| - 1], k)
    decreases k
  {
    if k == 0 {
      ss := [Init(g)];
      InitInv(g);
      assert path[..0] == [];
    } else {
      ss := Descend(g, path, ip, k - 1);
      var s' := DescendStep(g, path, ip, ss[|ss| - 1], k - 1);
      RunGrows(g, ss, s');
      ss := ss + [s'];
    }
  }

  lemma ShortcutRoute(g: Graph, p: int, q: int, v: int) returns (path: seq<int>, ip: nat)
    requires FromHead(g, p) && Shortcut(g, p, q, v)
    ensures Route(g, path, ip)
  {
    var w :| WalkFromTo(g, w, p, q) && v !in w;
    var h := [g.head];
    if p != g.head {
      h :| WalkFromTo(g, h, g.head, p) && |h| > 1;
    }
    JoinWalks(g, h, w, g.head, p, q);
    assert WalkFromTo(g, [q, v], q, v);
    JoinWalks(g, h + w[1..], [q, v], g.head, q, v);
    path, ip := h + w[1..] + [q, v][1..], |h| - 1;
    assert |w| > 1;
  }

  lemma DescentJams(g: Graph, path: seq<int>, ip: nat, s: Dfs)
    requires Route(g, path, ip) && Descended(g, path, ip, s, |path| - 1)
    ensures Jammed(s)
  {
    var i :| 0 <= i < |s.stack| - 1 && s.stack[i] == path[|path| - 1];
    assert s.stack[i] == s.stack[|s.stack| - 1];
  }

  /** A reachable shortcut lets the loop run for as many iterations as one likes. */
  lemma ShortcutBlocks(g: Graph, n: nat) returns (ss: seq<Dfs>)
    requires g.head in g.nodes && Closed(g) && Acyclic(g) && HasShortcut(g)
    ensures LoopRun(g, ss) && |ss| > n
  {
    var p, q, v :| FromHead(g, p) && Shortcut(g, p, q, v);
    var path, ip := ShortcutRoute(g, p, q, v);
    ss := Descend(g, path, ip, |path| - 1);
    DescentJams(g, path, ip, ss[|ss| - 1]);
    ss := JamRuns(g, ss, n);
  }

  /** Exact condition: on a closed acyclic graph the loop ends for every push
      order, within two iterations per node, if and only if no shortcut edge is
      reachable from the head. */
  lemma TerminationExact(g: Graph)
    requires g.head in g.nodes && Closed(g) && Acyclic(g)
    ensures (forall ss | LoopRun(g, ss) :: |ss| <= 2 * |g.nodes| + 1) <==> !HasShortcut(g)
  {
    if HasShortcut(g) {
      var ss := ShortcutBlocks(g, 2 * |g.nodes| + 1);
    } else {
      forall ss | LoopRun(g, ss) ensures |ss| <= 2 * |g.nodes| + 1 {
        LoopEnds(g, ss);
      }
    }
  }

  lemma {:induction false} Ascends(g: Graph, w: seq<int>, i: nat)
    requires Walk(g, w) && 0 < i < |w| && forall a, b | Edge(g, a, b) :: a < b
    ensures w[0] < w[i]
  {
    assert EdgeAt(g, w, i - 1);
    if i > 1 {
      Ascends(g, w, i - 1);
    }
  }

  /** The smallest blocking graph, 0 -> {1, 2} and 1 -> {2}: the loop can go on past any bound. */
  lemma BlockingExample(a: Node, b: Node, c: Node, n: nat) returns (g: Graph, ss: seq<Dfs>)
    requires a.next == {1, 2} && b.next == {2} && c.next == {}
    ensures g == Graph(map[0 := a, 1 := b, 2 := c], 0) && LoopRun(g, ss) && |ss| > n
  {
    g := Graph(map[0 := a, 1 := b, 2 := c], 0);
    assert Edge(g, 0, 1) && Edge(g, 0, 2) && Edge(g, 1, 2);
    forall x | x in g.nodes ensures !Reaches(g, x, x) {
      forall w | WalkFromTo(g, w, x, x) && |w| > 1 ensures false {
        Ascends(g, w, |w| - 1);
      }
    }
    assert WalkFromTo(g, [0, 1], 0, 1);
    assert Shortcut(g, 0, 1, 2);
    ss := ShortcutBlocks(g, n);
  }
}
