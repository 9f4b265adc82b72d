/** The consistency classifier: convergence level by traversal, relationship level
    by comparing all pairs. The loops are those of the source; a bound on the
    number of traversal iterations stands in for the runs that never end. */
module Classifier {
  import opened OrderingGraph
  import opened Dfs
  import opened Replay
  import opened DfsTermination

  /** What a finished call did: classify the graph, or trip an assertion of the source. */
  datatype Verdict = Classified(level: ConvergenceLevel, reach: map<int, set<int>>) | AssertionFailed

  ghost predicate ExactClosure(g: Graph, reach: map<int, set<int>>) {
    reach.Keys == g.nodes.Keys && forall a, b | a in reach :: b in reach[a] <==> Reaches(g, a, b)
  }

  /** The source asserts, before applying an operation, that its key is in the pool. */
  ghost predicate KeysInPools(g: Graph) {
    forall a, b | Edge(g, a, b) && b in g.nodes :: g.nodes[b].op.key in g.nodes[a].pool
  }

  // ----- the foreach over successors -----

  lemma {:induction false} UnseenAppend(color: map<int, Color>, order: seq<int>, x: int)
    ensures Unseen(color, order + [x]) ==
            Unseen(color, order) + if x in color && color[x] == Unvisited then [x] else []
  {
    if order == [] {
      assert order + [x] == [x];
    } else {
      assert (order + [x])[1..] == order[1..] + [x];
      UnseenAppend(color, order[1..], x);
    }
  }

  lemma {:induction false} EnumeratesJoin(order: seq<int>, s: set<int>, t: set<int>) returns (full: seq<int>)
    requires Enumerates(order, s) && s !! t
    ensures Enumerates(full, s + t) && order <= full
    decreases t
  {
    if t == {} {
      full := order;
      assert s + t == s;
    } else {
      NonEmpty(t);
      var x :| x in t;
      full := EnumeratesJoin(order + [x], s + {x}, t - {x});
      assert s + {x} + (t - {x}) == s + t;
    }
  }

  /** Any order that continues with a missing node or a back edge cannot be pushed. */
  lemma Unpushable(g: Graph, s: Dfs, order: seq<int>, past: set<int>, x: int, todo: set<int>) returns (full: seq<int>)
    requires Enumerates(order, past) && past !! todo && x in todo && Keyed(g, s)
    requires x !in g.nodes || s.color[x] == InProgress
    ensures Enumerates(full, past + todo) && !Pushable(g, s, full)
  {
    full := EnumeratesJoin(order + [x], past + {x}, todo - {x});
    assert past + {x} + (todo - {x}) == past + todo;
    assert full[|order|] == x;
  }

  /** The successors in `order` have been handled. */
  ghost predicate Handled(g: Graph, s: Dfs, curr: int, order: seq<int>, past: set<int>, stack': seq<int>,
                          parents': map<int, set<int>>) {
    && Enumerates(order, past) && Pushable(g, s, order)
    && stack' == s.stack + Unseen(s.color, order)
    && parents' == AddParent(s.parents, curr, order)
  }

  lemma HandledNone(g: Graph, s: Dfs, curr: int)
    ensures Handled(g, s, curr, [], {}, s.stack, s.parents)
  {
    assert AddParent(s.parents, curr, []) == s.parents;
  }

  lemma HandledMore(g: Graph, s: Dfs, curr: int, order: seq<int>, past: set<int>, stack': seq<int>,
                    parents': map<int, set<int>>, x: int)
    requires Keyed(g, s) && Handled(g, s, curr, order, past, stack', parents') && x !in past
    requires x in g.nodes && s.color[x] != InProgress
    ensures x in parents'
    ensures Handled(g, s, curr, order + [x], past + {x},
                    if s.color[x] == Unvisited then stack' + [x] else stack', parents'[x := parents'[x] + {curr}])
  {
    UnseenAppend(s.color, order, x);
  }

  /** First visit: record the parent of every successor and stack the unvisited
      ones, giving up at a missing node or a back edge. */
  method PushSuccessors(g: Graph, ghost s: Dfs, curr: int, stack: seq<int>, color: map<int, Color>,
                        parents: map<int, set<int>>)
    returns (ok: bool, stack': seq<int>, parents': map<int, set<int>>, ghost order: seq<int>)
    requires Keyed(g, s) && curr in g.nodes && s.stack == stack && s.color == color && s.parents == parents
    ensures Enumerates(order, g.nodes[curr].next)
    ensures ok <==> Pushable(g, s, order)
    ensures ok ==> stack' == stack + Unseen(color, order) && parents' == AddParent(parents, curr, order)
  {
    stack', parents', order := stack, parents, [];
    var todo := g.nodes[curr].next;
    ghost var past: set<int> := {};
    HandledNone(g, s, curr);
    while todo != {}
      invariant past !! todo && past + todo == g.nodes[curr].next
      invariant Handled(g, s, curr, order, past, stack', parents')
      decreases todo
    {
      NonEmpty(todo);
      var next :| next in todo;
      if next !in g.nodes || color[next] == InProgress {
        order := Unpushable(g, s, order, past, next, todo);
        return false, stack', parents', order;
      }
      HandledMore(g, s, curr, order, past, stack', parents', next);
      parents' := parents'[next := parents'[next] + {curr}];
      if color[next] == Unvisited {
        stack' := stack' + [next];
      }
      order, past, todo := order + [next], past + {next}, todo - {next};
    }
    ok := true;
    assert past == g.nodes[curr].next;
  }

  lemma GatherOneMore(reach: map<int, set<int>>, bs: set<int>, b: int)
    requires b in reach
    ensures GatherFrom(reach, bs + {b}) == GatherFrom(reach, bs) + {b} + reach[b]
  {
    var l, r := GatherFrom(reach, bs + {b}), GatherFrom(reach, bs) + {b} + reach[b];
    forall x | x in l ensures x in r {
      if x !in bs + {b} {
        var c :| c in bs + {b} && c in reach && x in reach[c];
      }
    }
    forall x | x in r ensures x in l {
      if x in GatherFrom(reach, bs) && x !in bs {
        var c :| c in bs && c in reach && x in reach[c];
      }
    }
    assert l == r;
  }

  method AddAll(all0: set<int>, more0: set<int>) returns (all: set<int>)
    ensures all == all0 + more0
  {
    all := all0;
    var more := more0;
    while more != {}
      invariant more <= more0 && all == all0 + (more0 - more)
      decreases more
    {
      NonEmpty(more);
      var nId :| nId in more;
      all := all + {nId};
      more := more - {nId};
    }
  }

  /** Second visit: the union of the successors and of what they reach. */
  method GatherReach(next: set<int>, curr: int, color: map<int, Color>, reach: map<int, set<int>>)
    returns (all: set<int>)
    requires curr in reach && forall y | y in next :: y in reach && y in color && color[y] == Finished
    ensures all == reach[curr] + GatherFrom(reach, next)
  {
    all := reach[curr];
    var todo := next;
    ghost var past: set<int> := {};
    while todo != {}
      invariant past !! todo && past + todo == next
      invariant all == reach[curr] + GatherFrom(reach, past)
      decreases todo
    {
      NonEmpty(todo);
      var y :| y in todo;
      assert color[y] == Finished;
      GatherOneMore(reach, past, y);
      all := AddAll(all + {y}, reach[y]);
      past, todo := past + {y}, todo - {y};
    }
    assert past == next;
  }

  // ----- pools -----

  lemma HeadHasNoParent(g: Graph, p: int)
    requires Valid(g)
    ensures !Edge(g, p, g.head)
  {
    if Edge(g, p, g.head) {
      assert FromHead(g, p);
      ReachesThenEdge(g, g.head, p, g.head);
    }
  }

  /** The assertion after the loop: only the head has no parent. */
  lemma OnlyHeadHasNoParent(g: Graph, s: Dfs, n: int)
    requires Inv(g, s) && Valid(g) && n in g.nodes && (forall x | x in g.nodes :: Black(s, x))
    ensures forall p :: p in s.parents[n] <==> Edge(g, p, n)
    ensures s.parents[n] == {} <==> n == g.head
  {
    if n != g.head {
      var p := LastStep(g, g.head, n);
      assert p in s.parents[n];
    } else {
      forall p ensures p !in s.parents[n] {
        HeadHasNoParent(g, p);
      }
    }
  }

  method SomeParentFollows(g: Graph, next: int, ps: set<int>) returns (pValid: bool, failed: bool)
    requires next in g.nodes && forall p | p in ps :: Edge(g, p, next)
    ensures !failed ==> (pValid <==> exists p :: p in ps && Follows(g, p, next))
    ensures failed ==> exists p :: p in ps && p in g.nodes && g.nodes[next].op.key !in g.nodes[p].pool
  {
    pValid, failed := false, false;
    var todo := ps;
    while todo != {}
      invariant todo <= ps && !pValid && !failed
      invariant forall p | p in ps - todo :: !Follows(g, p, next)
      decreases todo
    {
      NonEmpty(todo);
      var nId :| nId in todo;
      if g.nodes[next].op.key !in g.nodes[nId].pool {
        failed := true;
        return;
      }
      if g.nodes[next].pool == ApplyOpToPool(g.nodes[next].op, g.nodes[nId].pool) {
        pValid := true;
        assert Follows(g, nId, next);
        return;
      }
      todo := todo - {nId};
    }
  }

  /** The pool check over all nodes, in any order. */
  method CheckPools(g: Graph, ghost s: Dfs, parents: map<int, set<int>>) returns (ok: bool, failed: bool)
    requires Inv(g, s) && Valid(g) && (forall x | x in g.nodes :: Black(s, x)) && s.parents == parents
    ensures failed ==> !KeysInPools(g)
    ensures !failed ==> (ok <==> forall b | b in g.nodes && b != g.head :: Explained(g, b))
  {
    var todo := parents.Keys;
    while todo != {}
      invariant todo <= g.nodes.Keys
      invariant forall b | b in g.nodes.Keys - todo && b != g.head :: Explained(g, b)
      decreases todo
    {
      NonEmpty(todo);
      var next :| next in todo;
      todo := todo - {next};
      OnlyHeadHasNoParent(g, s, next);
      if parents[next] == {} {
        assert next == g.head;
      } else {
        var pValid, bad := SomeParentFollows(g, next, parents[next]);
        if bad {
          return false, true;
        }
        if !pValid {
          assert !Explained(g, next);
          return false, false;
        }
        var p :| p in parents[next] && Follows(g, p, next);
        assert Explained(g, next);
      }
    }
    return true, false;
  }

  // ----- convergence -----

  lemma FinalLevel(g: Graph, s: Dfs)
    requires Inv(g, s) && Valid(g) && (forall x | x in g.nodes :: Black(s, x))
    ensures s.level == if AtMostOneNext(g) then C_SO else C_CPO
    ensures ExactClosure(g, s.reach)
  {
    forall a, b | a in s.reach
      ensures b in s.reach[a] <==> Reaches(g, a, b)
    {
      assert NodeOk(g, s, a);
    }
    if !AtMostOneNext(g) {
      var x :| x in g.nodes && |g.nodes[x].next| > 1;
      assert Seen(s, x);
    }
  }

  /** While the loop runs: the invariant, and a bound when there is no shortcut. */
  ghost predicate Running(g: Graph, s: Dfs, iterations: nat) {
    && Inv(g, s)
    && (!HasShortcut(g) ==> Tidy(g, s) && Remaining(s) + iterations == 2 * |g.nodes|)
  }

  lemma RunningStep(g: Graph, s: Dfs, s': Dfs, iterations: nat)
    requires Running(g, s, iterations) && Iteration(g, s, Some(s'))
    ensures Running(g, s', iterations + 1)
  {
    IterationInv(g, s, Some(s'));
    if !HasShortcut(g) {
      IterationTidy(g, s, s');
    }
  }

  lemma TopIsCounted(g: Graph, s: Dfs)
    requires Inv(g, s) && Tidy(g, s) && s.stack != []
    ensures Remaining(s) > 0
  {
    var x := s.stack[|s.stack| - 1];
    assert !Black(s, x);
    assert x in Colored(s, s.color[x]);
  }

  lemma RunningEnds(g: Graph, s: Dfs, iterations: nat)
    requires Running(g, s, iterations) && !HasShortcut(g) && iterations >= 2 * |g.nodes|
    ensures s.stack == []
  {
    if s.stack != [] {
      TopIsCounted(g, s);
    }
  }

  /** One iteration of the while loop; `ok` is false when it returns C_INVALID. */
  method Iterate(g: Graph, s: Dfs, ghost iterations: nat) returns (ok: bool, s': Dfs)
    requires s.stack != [] && Running(g, s, iterations)
    ensures ok ==> Iteration(g, s, Some(s')) && Running(g, s', iterations + 1)
    ensures !ok ==> !Valid(g)
  {
    var stack, color, level := s.stack, s.color, s.level;
    var curr := stack[|stack| - 1];
    assert s.stack[|s.stack| - 1] in g.nodes;
    ok := true;
    if color[curr] == Unvisited {
      color := color[curr := InProgress];
      if level == C_SO && |g.nodes[curr].next| > 1 {
        level := C_CPO;
      }
      ghost var m := Mark(g, s, curr);
      var stack', parents';
      ghost var order;
      ok, stack', parents', order := PushSuccessors(g, m, curr, stack, color, s.parents);
      PushAllIs(g, m, curr, order);
      if !ok {
        ReturnsInvalid(g, s, order);
        return false, s;
      }
      s' := Dfs(level, stack', color, s.reach, parents', s.done);
      assert Some(s') == PushAll(g, m, curr, order);
    } else if color[curr] == InProgress {
      SuccessorsFinished(g, s);
      var all := GatherReach(g.nodes[curr].next, curr, color, s.reach);
      s' := Dfs(level, stack[..|stack| - 1], color[curr := Finished], s.reach[curr := all], s.parents, s.done + 1);
    } else {
      s' := s;
    }
    RunningStep(g, s, s', iterations);
  }

  /** ConvergenceConformity, for at most `budget` iterations of its loop. Whenever
      it returns a level, that level and the reachability table are exact; and it
      does return when no shortcut is reachable and the budget is two per node. */
  method ConvergenceConformity(g: Graph, budget: nat) returns (r: Option<Verdict>)
    ensures r.Some? && r.value.Classified? ==>
      r.value.level == Convergence(g) && (r.value.level != C_INVALID ==> ExactClosure(g, r.value.reach))
    ensures r.Some? && r.value.Classified? ==>
      (r.value.level == C_SO || r.value.level == C_CPO <==> Valid(g) && AllReplayed(g))
    ensures r.Some? && r.value.AssertionFailed? ==> g.head !in g.nodes || !KeysInPools(g)
    ensures !HasShortcut(g) && budget >= 2 * |g.nodes| ==> r.Some?
  {
    ConvergesIsReplayed(g);
    if g.head !in g.nodes {
      return Some(AssertionFailed);
    }
    var s := Init(g);
    InitInv(g);
    InitTidy(g);
    var iterations := 0;
    while |s.stack| > 0 && iterations < budget
      invariant Running(g, s, iterations) && iterations <= budget
      decreases budget - iterations
    {
      var ok;
      ok, s := Iterate(g, s, iterations);
      if !ok {
        return Some(Classified(C_INVALID, s.reach));
      }
      iterations := iterations + 1;
    }
    if |s.stack| > 0 {
      if !HasShortcut(g) && budget >= 2 * |g.nodes| {
        RunningEnds(g, s, iterations);
      }
      return None;
    }
    var v := FinalVerdict(g, s);
    return Some(v);
  }

  /** After the loop: all nodes visited, then the pools, then the level. */
  method FinalVerdict(g: Graph, s: Dfs) returns (v: Verdict)
    requires Inv(g, s) && s.stack == []
    ensures v.Classified? ==> v.level == Convergence(g) && (v.level != C_INVALID ==> ExactClosure(g, v.reach))
    ensures v.AssertionFailed? ==> !KeysInPools(g)
  {
    CountDecides(g, s);
    if s.done < |g.nodes| {
      return Classified(C_INVALID, s.reach);
    }
    FinalLevel(g, s);
    var ok, failed := CheckPools(g, s, s.parents);
    if failed {
      return AssertionFailed;
    }
    return Classified(if ok then s.level else C_NPO, s.reach);
  }

  // ----- relationship -----

  datatype RelationshipLevel = R_RT | R_CASL | R_FIFO | R_NONE

  predicate Earlier(g: Graph, a: int, b: int)
    requires a in g.nodes && b in g.nodes
  {
    g.nodes[a].tsResp < g.nodes[b].tsReq
  }

  /** The pairs each level requires to be ordered by the graph. */
  predicate Requires(g: Graph, level: RelationshipLevel, a: int, b: int)
    requires a in g.nodes && b in g.nodes
  {
    && a != b && Earlier(g, a, b)
    && match level
       case R_RT => true
       case R_CASL => g.nodes[a].cId == g.nodes[b].cId
       case R_FIFO =>
         && g.nodes[a].cId == g.nodes[b].cId
         && !(g.nodes[a].op.typ == OP_READ && g.nodes[b].op.typ == OP_WRITE)
       case R_NONE => false
  }

  ghost predicate PairHolds(g: Graph, reach: map<int, set<int>>, level: RelationshipLevel, a: int, b: int)
    requires a in g.nodes && b in g.nodes && a in reach
  {
    Requires(g, level, a, b) ==> b in reach[a]
  }

  ghost predicate LevelHolds(g: Graph, reach: map<int, set<int>>, level: RelationshipLevel)
    requires reach.Keys == g.nodes.Keys
  {
    forall a, b | a in g.nodes && b in g.nodes :: PairHolds(g, reach, level, a, b)
  }

  /** The strongest level that holds over all pairs. */
  ghost function Relationship(g: Graph, reach: map<int, set<int>>): RelationshipLevel
    requires reach.Keys == g.nodes.Keys
  {
    if LevelHolds(g, reach, R_RT) then R_RT
    else if LevelHolds(g, reach, R_CASL) then R_CASL
    else if LevelHolds(g, reach, R_FIFO) then R_FIFO
    else R_NONE
  }

  /** Every level stronger than `level` has been refuted. */
  ghost predicate Refuted(g: Graph, reach: map<int, set<int>>, level: RelationshipLevel)
    requires reach.Keys == g.nodes.Keys
  {
    && (level != R_RT ==> !LevelHolds(g, reach, R_RT))
    && (level == R_FIFO || level == R_NONE ==> !LevelHolds(g, reach, R_CASL))
    && (level == R_NONE ==> !LevelHolds(g, reach, R_FIFO))
  }

  /** The body of the pairwise loop: three checks that fall through as the level drops. */
  method ComparePair(g: Graph, reach: map<int, set<int>>, level0: RelationshipLevel, na: int, nb: int)
    returns (level: RelationshipLevel)
    requires reach.Keys == g.nodes.Keys && na in g.nodes && nb in g.nodes && level0 != R_NONE
    requires Refuted(g, reach, level0)
    ensures Refuted(g, reach, level)
    ensures PairHolds(g, reach, level, na, nb)
    ensures forall a, b | a in g.nodes && b in g.nodes && PairHolds(g, reach, level0, a, b) :: PairHolds(g, reach, level, a, b)
  {
    level := level0;
    if na == nb {
      return;
    }
    if level == R_RT && g.nodes[na].tsResp < g.nodes[nb].tsReq && nb !in reach[na] {
      assert !PairHolds(g, reach, R_RT, na, nb);
      level := R_CASL;
    }
    if level == R_CASL && g.nodes[na].cId == g.nodes[nb].cId
       && g.nodes[na].tsResp < g.nodes[nb].tsReq && nb !in reach[na] {
      assert !PairHolds(g, reach, R_CASL, na, nb);
      level := R_FIFO;
    }
    if level == R_FIFO && g.nodes[na].cId == g.nodes[nb].cId
       && g.nodes[na].tsResp < g.nodes[nb].tsReq
       && !(g.nodes[na].op.typ == OP_READ && g.nodes[nb].op.typ == OP_WRITE)
       && nb !in reach[na] {
      assert !PairHolds(g, reach, R_FIFO, na, nb);
      level := R_NONE;
    }
  }

  /** RelationshipConformity: the level dropped along the way is nevertheless the
      strongest that holds over all pairs, whatever the order of the keys. */
  method RelationshipConformity(g: Graph, reach: map<int, set<int>>) returns (level: RelationshipLevel)
    requires reach.Keys == g.nodes.Keys
    ensures level == Relationship(g, reach)
  {
    level := R_RT;
    var todoA := g.nodes.Keys;
    while todoA != {}
      invariant todoA <= g.nodes.Keys && level != R_NONE && Refuted(g, reach, level)
      invariant forall a, b | a in g.nodes.Keys - todoA && b in g.nodes :: PairHolds(g, reach, level, a, b)
      decreases todoA
    {
      NonEmpty(todoA);
      var na :| na in todoA;
      var todoB := g.nodes.Keys;
      while todoB != {}
        invariant todoB <= g.nodes.Keys && level != R_NONE && Refuted(g, reach, level)
        invariant forall a, b | a in g.nodes.Keys - todoA && b in g.nodes :: PairHolds(g, reach, level, a, b)
        invariant forall b | b in g.nodes.Keys - todoB :: PairHolds(g, reach, level, na, b)
        decreases todoB
      {
        NonEmpty(todoB);
        var nb :| nb in todoB;
        level := ComparePair(g, reach, level, na, nb);
        if level == R_NONE {
          return R_NONE;
        }
        todoB := todoB - {nb};
      }
      todoA := todoA - {na};
    }
    assert LevelHolds(g, reach, level);
  }

  // ----- both together -----

  datatype Constraints = Constraints(convergence: ConvergenceLevel, relationship: RelationshipLevel) | Failed

  ghost function ClosureOf(g: Graph): map<int, set<int>>
    requires Closed(g)
  {
    map a | a in g.nodes :: set b | b in g.nodes && Reaches(g, a, b)
  }

  lemma ClosureIs(g: Graph, reach: map<int, set<int>>)
    requires Closed(g) && ExactClosure(g, reach)
    ensures reach == ClosureOf(g)
  {
    forall a | a in reach ensures reach[a] == ClosureOf(g)[a] {
      forall b | b in reach[a] ensures b in g.nodes {
        var p := LastStep(g, a, b);
      }
    }
  }

  /** What SatisfiedConstraints should answer, from the graph alone. */
  ghost function Meaning(g: Graph): Constraints {
    if !Valid(g) then Constraints(C_INVALID, R_NONE)
    else Constraints(Convergence(g), Relationship(g, ClosureOf(g)))
  }

  method SatisfiedConstraints(g: Graph, budget: nat) returns (r: Option<Constraints>)
    ensures r.Some? && r.value.Constraints? ==> r.value == Meaning(g)
    ensures r.Some? && r.value.Failed? ==> g.head !in g.nodes || !KeysInPools(g)
    ensures !HasShortcut(g) && budget >= 2 * |g.nodes| ==> r.Some?
  {
    var dfs := ConvergenceConformity(g, budget);
    match dfs
    case None => r := None;
    case Some(AssertionFailed) => r := Some(Failed);
    case Some(Classified(convergence, reach)) =>
      if convergence == C_INVALID {
        return Some(Constraints(C_INVALID, R_NONE));
      }
      ClosureIs(g, reach);
      var relationship := RelationshipConformity(g, reach);
      r := Some(Constraints(convergence, relationship));
  }
}
