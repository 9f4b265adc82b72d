/** The fuzz loop itself, driving the checker object and the service object.
    Random choices are arbitrary; between two iterations the service may execute
    any of the calls it has received. */
module FuzzLoop {
  import opened Kv
  import opened Checker
  import opened FuzzRuns
  import opened NoFalseAlarms
  import opened Server

  function CountFlying(flying: seq<bool>): nat {
    if flying == [] then 0
    else CountFlying(flying[..|flying| - 1]) + (if flying[|flying| - 1] then 1 else 0)
  }

  lemma {:induction false} CountUpdate(flying: seq<bool>, c: nat, b: bool)
    requires c < |flying| && flying[c] != b
    ensures CountFlying(flying[c := b]) == CountFlying(flying) + (if b then 1 else -1)
  {
    var n := |flying| - 1;
    if c < n {
      CountUpdate(flying[..n], c, b);
      assert flying[c := b][..n] == flying[..n][c := b];
    } else {
      assert flying[c := b][..n] == flying[..n];
    }
  }

  lemma {:induction false} CountPositive(flying: seq<bool>)
    ensures CountFlying(flying) > 0 <==> exists c | 0 <= c < |flying| :: flying[c]
  {
    if flying != [] {
      CountPositive(flying[..|flying| - 1]);
    }
  }

  lemma {:induction false} CountNone(n: nat)
    ensures CountFlying(seq(n, _ => false)) == 0
  {
    if n > 0 {
      CountNone(n - 1);
      assert seq(n, _ => false)[..n - 1] == seq(n - 1, _ => false);
    }
  }

  method GenRandIndex(max: nat) returns (i: nat)
    requires max != 0
    ensures i < max
  {
    i :| 0 <= i < max;
  }

  /** Any client whose status is the wanted one; the caller must know there is one. */
  method GenRandClient(flying: seq<bool>, wantFlying: bool) returns (cidx: nat)
    requires exists c | 0 <= c < |flying| :: flying[c] == wantFlying
    ensures cidx < |flying| && flying[cidx] == wantFlying
  {
    cidx :| 0 <= cidx < |flying| && flying[cidx] == wantFlying;
  }

  /** Call or wait: whichever is chosen, some client can do it. */
  method GenCallVsWait(opsCalled: nat, numOps: nat, flying: seq<bool>) returns (call: bool)
    requires |flying| > 0 && opsCalled <= numOps
    requires opsCalled == numOps ==> exists c | 0 <= c < |flying| :: flying[c]
    ensures call ==> opsCalled < numOps
    ensures exists c | 0 <= c < |flying| :: flying[c] == !call
  {
    if opsCalled == numOps || (forall c | 0 <= c < |flying| :: flying[c]) {
      call := false;
      assert opsCalled != numOps ==> flying[0];
    } else if forall c | 0 <= c < |flying| :: !flying[c] {
      call := true;
      assert !flying[0];
    } else {
      call := *;
    }
  }

  method GenRandKvCall(keys: seq<Key>) returns (call: Call)
    requires keys != []
    ensures GoodCall(call, keys)
  {
    var kind := GenRandIndex(10);
    var kidx := GenRandIndex(|keys|);
    var value: Value := *;
    if kind <= 1 {
      call := Call.Put(keys[kidx], value);
    } else if kind <= 3 {
      call := Call.Swap(keys[kidx], value);
    } else if kind <= 6 {
      call := Call.Get(keys[kidx]);
    } else if kind <= 8 {
      var keidx := GenRandIndex(|keys|);
      var first, last := keys[kidx], keys[keidx];
      KeyLessTotal(first, last);
      if KeyLess(last, first) {
        first, last := last, first;
      }
      call := Call.Scan(first, last);
    } else {
      call := Call.Delete(keys[kidx]);
    }
  }

  ghost predicate SomeRun(s: Sys, keys: seq<seq<Key>>) {
    exists ss, evs :: SysRun(ss, evs, keys) && ss[|evs|] == s
  }

  lemma RunStarts(s: Sys, keys: seq<seq<Key>>)
    requires SysStart(s, keys)
    ensures SomeRun(s, keys)
  {
    assert SysRun([s], [], keys);
  }

  lemma RunExtends(s: Sys, ev: SysEvent, s': Sys, keys: seq<seq<Key>>)
    requires SomeRun(s, keys) && SysShaped(s, |keys|) && SysNext(s, ev, s', keys)
    ensures SomeRun(s', keys)
  {
    var ss, evs :| SysRun(ss, evs, keys) && ss[|evs|] == s;
    var ss', evs' := ss + [s'], evs + [ev];
    forall i | 0 <= i < |evs'|
      ensures SysShaped(ss'[i], |keys|) && SysNext(ss'[i], evs'[i], ss'[i + 1], keys)
    {
      if i < |evs| {
        assert SysShaped(ss[i], |keys|) && SysNext(ss[i], evs[i], ss[i + 1], keys);
      }
    }
    assert SysRun(ss', evs', keys);
  }

  /** What holds of a state that ends some run. */
  lemma RunFacts(s: Sys, keys: seq<seq<Key>>)
    requires |keys| > 0 && SomeRun(s, keys)
    ensures SysShaped(s, |keys|) && Inv(s.fuzz) && s.fuzz.outcome.Fine?
    ensures forall c | 0 <= c < |keys| && s.fuzz.flights[c].Flying? :: GoodCall(s.fuzz.flights[c].call, keys[c])
    ensures forall c | 0 <= c < |keys| && s.replies[c].Some? :: s.fuzz.flights[c].Flying? && !s.replies[c].value.StopResp?
  {
    var ss, evs :| SysRun(ss, evs, keys) && ss[|evs|] == s;
    var a := RunLinked(ss, evs, keys, |evs|);
    forall c | 0 <= c < |keys| && s.replies[c].Some?
      ensures s.fuzz.flights[c].Flying? && !s.replies[c].value.StopResp?
    {
      assert FlightSeen(a.full, s.replies, c, a.flying[c]);
    }
  }

  /** The loop's variables describe client `c` of the modelled state. */
  ghost predicate ClientShown(fl: Flight, isFlying: bool, memo: Memo, sent: Call) {
    match fl
    case Idle => !isFlying
    case Flying(tsCall, call) => isFlying && memo == (tsCall, UpdateInfo(call)) && sent == call
  }

  ghost predicate Shown(s: Sys, flying: seq<bool>, memo: seq<Memo>, sent: seq<Call>) {
    && |flying| == |memo| == |sent| == |s.fuzz.flights|
    && forall c | 0 <= c < |flying| :: ClientShown(s.fuzz.flights[c], flying[c], memo[c], sent[c])
  }

  /** The service executes one received call, if the chosen client has one waiting. */
  method ServerStep(ghost s: Sys, ghost keys: seq<seq<Key>>, service: KvStoreService, cidx: nat, flying: seq<bool>,
                    ghost memo: seq<Memo>, sent: seq<Call>, replies: seq<Option<Resp>>)
    returns (replies': seq<Option<Resp>>, ghost s': Sys)
    requires |keys| > 0 && SomeRun(s, keys) && Shown(s, flying, memo, sent) && s.replies == replies && s.store == service.store
    requires cidx < |flying| && cidx < |replies| && flying[cidx] && replies[cidx].None?
    modifies service
    ensures SomeRun(s', keys) && s'.fuzz == s.fuzz && s'.replies == replies' && s'.store == service.store
    ensures |replies'| == |replies| && replies'[cidx].Some?
  {
    RunFacts(s, keys);
    assert ClientShown(s.fuzz.flights[cidx], flying[cidx], memo[cidx], sent[cidx]);
    assert GoodCall(s.fuzz.flights[cidx].call, keys[cidx]);
    var resp := service.Handle(sent[cidx]);
    replies' := replies[cidx := Some(resp)];
    s' := Sys(s.fuzz, service.store, replies');
    RunExtends(s, Execute(cidx), s', keys);
  }

  type Memo = (nat, Option<(Key, Option<Value>)>)

  lemma ShowCall(s: Sys, s': Sys, flying: seq<bool>, memo: seq<Memo>, sent: seq<Call>, c: nat, call: Call)
    requires Shown(s, flying, memo, sent) && c < |flying|
    requires s'.fuzz.flights == s.fuzz.flights[c := Flying(s.fuzz.now + 1, call)]
    ensures Shown(s', flying[c := true], memo[c := (s.fuzz.now + 1, UpdateInfo(call))], sent[c := call])
  {
    forall b | 0 <= b < |flying|
      ensures ClientShown(s'.fuzz.flights[b], flying[c := true][b],
                          memo[c := (s.fuzz.now + 1, UpdateInfo(call))][b], sent[c := call][b])
    {
      assert ClientShown(s.fuzz.flights[b], flying[b], memo[b], sent[b]);
    }
  }

  lemma ShowHarvest(s: Sys, s': Sys, flying: seq<bool>, memo: seq<Memo>, sent: seq<Call>, c: nat)
    requires Shown(s, flying, memo, sent) && c < |flying|
    requires s'.fuzz.flights == s.fuzz.flights[c := Idle]
    ensures Shown(s', flying[c := false], memo[c := (0, None)], sent)
  {
    forall b | 0 <= b < |flying|
      ensures ClientShown(s'.fuzz.flights[b], flying[c := false][b], memo[c := (0, None)][b], sent[b])
    {
      assert ClientShown(s.fuzz.flights[b], flying[b], memo[b], sent[b]);
    }
  }

  /** What the harvest branch needs of the state: the debug assertions of the checker. */
  lemma HarvestReady(s: Sys, keys: seq<seq<Key>>, c: nat)
    requires |keys| > 0 && SomeRun(s, keys) && c < |keys|
    ensures SysShaped(s, |keys|) && Shaped(s.fuzz.hist, |s.fuzz.hist.maxtr|) && |s.fuzz.hist.maxtr| == |keys|
    ensures s.fuzz.flights[c].Flying? ==>
      && s.fuzz.flights[c].tsCall <= s.fuzz.now
      && (forall i | 0 <= i < |s.fuzz.hist.queue| :: s.fuzz.hist.queue[i].tsResp <= s.fuzz.now)
      && (forall k, i | k in s.fuzz.hist.spans && 0 <= i < |s.fuzz.hist.spans[k][c]| ::
            s.fuzz.hist.spans[k][c][i].tsResp < s.fuzz.flights[c].tsCall)
  {
    RunFacts(s, keys);
    if s.fuzz.flights[c].Flying? {
      assert FlightOk(s.fuzz.flights[c], s.fuzz.hist.maxtr[c], s.fuzz.now);
      forall k, i | k in s.fuzz.hist.spans && 0 <= i < |s.fuzz.hist.spans[k][c]|
        ensures s.fuzz.hist.spans[k][c][i].tsResp < s.fuzz.flights[c].tsCall
      {
        assert DequeOk(s.fuzz.hist.spans[k][c], s.fuzz.hist.maxtr[c]);
      }
    }
  }

  lemma CollectRuns(s: Sys, keys: seq<seq<Key>>, c: nat) returns (s': Sys)
    requires |keys| > 0 && SomeRun(s, keys) && c < |keys| && c < |s.replies| && s.replies[c].Some?
    ensures SysShaped(s, |keys|) && s.fuzz.flights[c].Flying? && !s.replies[c].value.StopResp?
    ensures s' == s.(fuzz := Harvest(s.fuzz, c, s.replies[c].value, true), replies := s.replies[c := None])
    ensures SomeRun(s', keys) && s'.fuzz.outcome.Fine?
  {
    RunFacts(s, keys);
    s' := s.(fuzz := Harvest(s.fuzz, c, s.replies[c].value, true), replies := s.replies[c := None]);
    RunExtends(s, Collect(c), s', keys);
    RunFacts(s', keys);
  }

  /** Queue the response and record the update: the checker object takes the harvest step. */
  method HandIn(ghost f: Fuzz, history: History, cidx: nat, memo: Memo, timestamp: nat, resp: Resp) returns (out: Outcome)
    requires history.State() == f.hist && Shaped(f.hist, |f.flights|) && timestamp == f.now + 1
    requires cidx < |f.flights| && f.flights[cidx].Flying?
    requires ClientShown(f.flights[cidx], true, memo, f.flights[cidx].call)
    requires f.flights[cidx].tsCall <= f.now && forall i | 0 <= i < |f.hist.queue| :: f.hist.queue[i].tsResp <= f.now
    requires forall k, i | k in f.hist.spans && 0 <= i < |f.hist.spans[k][cidx]| ::
      f.hist.spans[k][cidx][i].tsResp < f.flights[cidx].tsCall
    modifies history
    ensures history.State() == Harvest(f, cidx, resp, true).hist && out == Harvest(f, cidx, resp, true).outcome
  {
    var (tsCall, updateInfo) := memo;
    history.AddToQueue(tsCall, timestamp, resp);
    assert history.State() == Enqueue(f.hist, Entry(tsCall, timestamp, resp));
    out := Fine;
    if updateInfo.Some? {
      var (key, value) := updateInfo.value;
      out := history.ApplyUpdate(cidx, tsCall, timestamp, key, value);
    }
  }

  /** The harvest branch: never an alarm. */
  method HarvestResp(ghost s: Sys, ghost keys: seq<seq<Key>>, history: History, cidx: nat, memo: Memo,
                     timestamp: nat, resp: Resp) returns (out: Outcome, ghost s': Sys)
    requires |keys| > 0 && SomeRun(s, keys) && cidx < |keys| && cidx < |s.replies| && s.replies[cidx] == Some(resp)
    requires history.State() == s.fuzz.hist && timestamp == s.fuzz.now + 1
    requires cidx < |s.fuzz.flights| && s.fuzz.flights[cidx].Flying?
    requires ClientShown(s.fuzz.flights[cidx], true, memo, s.fuzz.flights[cidx].call)
    modifies history
    ensures out.Fine? && SomeRun(s', keys) && s'.fuzz.hist == history.State() && s'.fuzz.now == timestamp
    ensures s'.fuzz.flights == s.fuzz.flights[cidx := Idle] && |s'.fuzz.answers| == |s.fuzz.answers| + 1
    ensures s'.store == s.store && s'.replies == s.replies[cidx := None]
  {
    s' := CollectRuns(s, keys, cidx);
    HarvestReady(s, keys, cidx);
    out := HandIn(s.fuzz, history, cidx, memo, timestamp, resp);
  }

  lemma IssueRuns(s: Sys, keys: seq<seq<Key>>, c: nat, call: Call) returns (s': Sys)
    requires |keys| > 0 && SomeRun(s, keys) && c < |keys| && GoodCall(call, keys[c])
    requires c < |s.fuzz.flights| && s.fuzz.flights[c].Idle?
    ensures s' == s.(fuzz := s.fuzz.(now := s.fuzz.now + 1, flights := s.fuzz.flights[c := Flying(s.fuzz.now + 1, call)]))
    ensures SomeRun(s', keys)
  {
    RunFacts(s, keys);
    s' := s.(fuzz := Step(s.fuzz, Called(c, call), true));
    RunExtends(s, Issue(c, call), s', keys);
  }

  /** Any number of received calls get executed, in any order. */
  method ServerRuns(ghost s: Sys, ghost keys: seq<seq<Key>>, service: KvStoreService, flying: seq<bool>,
                    ghost memo: seq<Memo>, sent: seq<Call>, replies: seq<Option<Resp>>)
    returns (replies': seq<Option<Resp>>, ghost s': Sys)
    requires |keys| > 0 && SomeRun(s, keys) && Shown(s, flying, memo, sent) && s.replies == replies && s.store == service.store
    requires 0 < |flying| == |replies|
    modifies service
    ensures SomeRun(s', keys) && s'.fuzz == s.fuzz && s'.replies == replies' && s'.store == service.store
    ensures |replies'| == |replies|
  {
    replies', s' := replies, s;
    var budget: nat :| true;
    for i := 0 to budget
      invariant SomeRun(s', keys) && s'.fuzz == s.fuzz && s'.replies == replies' && s'.store == service.store
      invariant |replies'| == |replies|
    {
      var cidx := GenRandIndex(|flying|);
      if flying[cidx] && replies'[cidx].None? {
        replies', s' := ServerStep(s', keys, service, cidx, flying, memo, sent, replies');
      }
    }
  }

  /** The calling branch of the loop. */
  method CallBranch(ghost s: Sys, keys: seq<seq<Key>>, cidx: nat, timestamp: nat, flying: seq<bool>,
                    memo: seq<Memo>, sent: seq<Call>)
    returns (flying': seq<bool>, memo': seq<Memo>, sent': seq<Call>, ghost s': Sys)
    requires |keys| > 0 && SomeRun(s, keys) && Shown(s, flying, memo, sent) && |flying| == |keys|
    requires cidx < |keys| && !flying[cidx] && keys[cidx] != [] && timestamp == s.fuzz.now + 1
    ensures SomeRun(s', keys) && Shown(s', flying', memo', sent') && |flying'| == |keys|
    ensures s' == s.(fuzz := s'.fuzz) && s'.fuzz == s.fuzz.(now := timestamp, flights := s'.fuzz.flights)
    ensures CountFlying(flying') == CountFlying(flying) + 1
  {
    var call := GenRandKvCall(keys[cidx]);
    assert ClientShown(s.fuzz.flights[cidx], flying[cidx], memo[cidx], sent[cidx]);
    s' := IssueRuns(s, keys, cidx, call);
    ShowCall(s, s', flying, memo, sent, cidx, call);
    CountUpdate(flying, cidx, true);
    memo' := memo[cidx := (timestamp, UpdateInfo(call))];
    sent' := sent[cidx := call];
    flying' := flying[cidx := true];
  }

  /** The harvesting branch: wait until the call has been executed, then hand in its response. */
  method WaitBranch(ghost s: Sys, ghost keys: seq<seq<Key>>, history: History, service: KvStoreService, cidx: nat,
                    timestamp: nat, flying: seq<bool>, memo: seq<Memo>, sent: seq<Call>, replies: seq<Option<Resp>>)
    returns (flying': seq<bool>, memo': seq<Memo>, replies': seq<Option<Resp>>, out: Outcome, ghost s': Sys)
    requires |keys| > 0 && SomeRun(s, keys) && Shown(s, flying, memo, sent) && |flying| == |keys| == |replies|
    requires history.State() == s.fuzz.hist && service.store == s.store && replies == s.replies
    requires cidx < |keys| && flying[cidx] && timestamp == s.fuzz.now + 1
    modifies history, service
    ensures out.Fine?
    ensures SomeRun(s', keys) && Shown(s', flying', memo', sent) && |flying'| == |keys| == |replies'|
    ensures history.State() == s'.fuzz.hist && service.store == s'.store && replies' == s'.replies
    ensures s'.fuzz.now == timestamp && |s'.fuzz.answers| == |s.fuzz.answers| + 1
    ensures CountFlying(flying') == CountFlying(flying) - 1
  {
    replies', s' := replies, s;
    if replies[cidx].None? {
      replies', s' := ServerStep(s, keys, service, cidx, flying, memo, sent, replies);
    }
    ghost var s1 := s';
    assert ClientShown(s.fuzz.flights[cidx], flying[cidx], memo[cidx], sent[cidx]);
    out, s' := HarvestResp(s1, keys, history, cidx, memo[cidx], timestamp, replies'[cidx].value);
    ShowHarvest(s1, s', flying, memo, sent, cidx);
    CountUpdate(flying, cidx, false);
    memo' := memo[cidx := (0, None)];
    replies' := replies'[cidx := None];
    flying' := flying[cidx := false];
  }

  /** The invariant of the loop: the variables show the last state of a run, and
      the number of flying clients is the number of calls not yet waited for. */
  ghost predicate LoopInv(s: Sys, keys: seq<seq<Key>>, flying: seq<bool>, memo: seq<Memo>, sent: seq<Call>,
                          replies: seq<Option<Resp>>, timestamp: nat, opsCalled: nat, opsWaited: nat, totalOps: nat) {
    && SomeRun(s, keys) && Shown(s, flying, memo, sent) && |flying| == |keys| == |replies| && replies == s.replies
    && timestamp == s.fuzz.now == opsCalled + opsWaited && |s.fuzz.answers| == opsWaited
    && opsWaited <= opsCalled <= totalOps && CountFlying(flying) == opsCalled - opsWaited
  }

  /** One iteration: some client can always take the chosen branch, and no alarm is raised. */
  method Turn(ghost s: Sys, keys: seq<seq<Key>>, history: History, service: KvStoreService, flying: seq<bool>,
              memo: seq<Memo>, sent: seq<Call>, replies: seq<Option<Resp>>, timestamp: nat, opsCalled: nat,
              opsWaited: nat, totalOps: nat)
    returns (flying': seq<bool>, memo': seq<Memo>, sent': seq<Call>, replies': seq<Option<Resp>>, called: bool,
             out: Outcome, ghost s': Sys)
    requires |keys| > 0 && (forall c | 0 <= c < |keys| :: keys[c] != []) && opsWaited < totalOps
    requires LoopInv(s, keys, flying, memo, sent, replies, timestamp, opsCalled, opsWaited, totalOps)
    requires history.State() == s.fuzz.hist && service.store == s.store
    modifies history, service
    ensures out.Fine? && (called ==> opsCalled < totalOps)
    ensures history.State() == s'.fuzz.hist && service.store == s'.store
    ensures LoopInv(s', keys, flying', memo', sent', replies', timestamp + 1,
                    if called then opsCalled + 1 else opsCalled, if called then opsWaited else opsWaited + 1, totalOps)
  {
    flying', memo', sent', out := flying, memo, sent, Fine;
    replies', s' := ServerRuns(s, keys, service, flying, memo, sent, replies);
    CountPositive(flying);
    called := GenCallVsWait(opsCalled, totalOps, flying);
    var cidx := GenRandClient(flying, !called);
    if called {
      flying', memo', sent', s' := CallBranch(s', keys, cidx, timestamp + 1, flying, memo, sent);
    } else {
      flying', memo', replies', out, s' :=
        WaitBranch(s', keys, history, service, cidx, timestamp + 1, flying, memo, sent, replies');
    }
  }

  lemma AllIdle(s: Sys, flying: seq<bool>, memo: seq<Memo>, sent: seq<Call>)
    requires Shown(s, flying, memo, sent) && CountFlying(flying) == 0
    ensures forall c | 0 <= c < |flying| :: s.fuzz.flights[c].Idle?
  {
    CountPositive(flying);
    forall c | 0 <= c < |flying| ensures s.fuzz.flights[c].Idle? {
      assert ClientShown(s.fuzz.flights[c], flying[c], memo[c], sent[c]);
    }
  }

  lemma ShowStart(s: Sys, keys: seq<seq<Key>>)
    requires SysStart(s, keys)
    ensures Shown(s, seq(|keys|, _ => false), seq(|keys|, _ => (0, None)), seq(|keys|, _ => Call.Stop))
    ensures CountFlying(seq(|keys|, _ => false)) == 0
  {
    CountNone(|keys|);
  }

  /** fuzz_test against the service: it never fails, and it stops after exactly two
      iterations per operation with every response collected. The returned state
      ends a run of the modelled system, and its queue length is the result. */
  method FuzzTest(keys: seq<seq<Key>>, numOps: nat) returns (remaining: Option<nat>, ghost s: Sys)
    requires |keys| > 0 && (forall c | 0 <= c < |keys| :: keys[c] != []) && numOps >= 1000
    ensures remaining.Some?
    ensures SomeRun(s, keys) && remaining.value == |s.fuzz.hist.queue|
    ensures s.fuzz.now == 2 * (numOps * |keys|) && |s.fuzz.answers| == numOps * |keys|
    ensures |s.fuzz.flights| == |keys| && forall c | 0 <= c < |keys| :: s.fuzz.flights[c].Idle?
  {
    var n := |keys|;
    var flying := seq(n, _ => false);
    var timestamp := 0;
    var memo: seq<Memo> := seq(n, _ => (0, None));
    var history := new History(n, keys);
    var service := new KvStoreService();
    var sent: seq<Call> := seq(n, _ => Call.Stop);
    var replies: seq<Option<Resp>> := seq(n, _ => None);
    s := Sys(Start(n, keys), map[], replies);
    RunStarts(s, keys);
    ShowStart(s, keys);

    var totalOps := numOps * n;
    var opsCalled, opsWaited := 0, 0;
    var passed := true;
    while opsWaited < totalOps
      invariant LoopInv(s, keys, flying, memo, sent, replies, timestamp, opsCalled, opsWaited, totalOps)
      invariant history.State() == s.fuzz.hist && service.store == s.store
      invariant passed
      decreases 2 * totalOps - opsCalled - opsWaited
    {
      var called, out;
      flying, memo, sent, replies, called, out, s :=
        Turn(s, keys, history, service, flying, memo, sent, replies, timestamp, opsCalled, opsWaited, totalOps);
      timestamp := timestamp + 1;
      if !out.Fine? {
        passed := false;
        break;
      }
      if called {
        opsCalled := opsCalled + 1;
      } else {
        opsWaited := opsWaited + 1;
      }
    }
    AllIdle(s, flying, memo, sent);
    if passed {
      var len := history.QueueLen();
      remaining := Some(len);
    } else {
      remaining := None;
    }
  }
}
