/** Trimming the history changes no verdict: the fuzzer that trims and the one that
    keeps everything stay in step on the same events. */
module Trimming {
  import opened Kv
  import opened Checker
  import opened FuzzRuns

  /** No response still to be checked was called before `ts`. */
  ghost predicate Cleared(ts: nat, f: Fuzz) {
    && ts <= f.now
    && (forall i | 0 <= i < |f.hist.queue| :: ts < f.hist.queue[i].tsCall)
    && (forall c | 0 <= c < |f.flights| && f.flights[c].Flying? :: ts < f.flights[c].tsCall)
  }

  /** `td` is what trimming left of `fd`. */
  ghost predicate SafeCut(td: seq<Span>, fd: seq<Span>, f: Fuzz) {
    && 0 < |td| <= |fd|
    && td == fd[|fd| - |td|..]
    && (|td| == |fd| || Cleared(td[0].tsResp, f))
  }

  ghost predicate SameKeys(t: Spans, u: Spans, n: nat) {
    t.Keys == u.Keys && forall k | k in t :: |t[k]| == |u[k]| == n
  }

  ghost predicate Twins(t: Fuzz, u: Fuzz) {
    && t.now == u.now && t.flights == u.flights && t.answers == u.answers && t.outcome == u.outcome
    && t.hist.queue == u.hist.queue && t.hist.maxtr == u.hist.maxtr
    && SameKeys(t.hist.spans, u.hist.spans, |t.flights|)
  }

  ghost predicate Sim(t: Fuzz, u: Fuzz) {
    && Inv(t) && Inv(u) && Twins(t, u)
    && forall k, c | k in t.hist.spans && 0 <= c < |t.flights| :: SafeCut(t.hist.spans[k][c], u.hist.spans[k][c], t)
  }

  /** A response that has not been checked yet: queued, in flight or still to be called. */
  ghost predicate Pending(f: Fuzz, e: Entry) {
    || e in f.hist.queue
    || (exists c | 0 <= c < |f.flights| && f.flights[c].Flying? :: e.tsCall == f.flights[c].tsCall)
    || f.now < e.tsCall
  }

  lemma CutExplains(td: seq<Span>, fd: seq<Span>, tsCall: nat, tsResp: nat, want: Want)
    requires 0 < |td| <= |fd| && td == fd[|fd| - |td|..]
    requires |td| == |fd| || td[0].tsResp < tsCall
    ensures Explained(td, tsCall, tsResp, want) == Explained(fd, tsCall, tsResp, want)
  {
    var m := |fd| - |td|;
    if i :| 0 <= i < |td| && Hits(td, i, tsCall, tsResp, want) {
      assert forall j | i + m < j < |fd| :: fd[j] == td[j - m];
      assert Hits(fd, i + m, tsCall, tsResp, want);
    }
    if i :| 0 <= i < |fd| && Hits(fd, i, tsCall, tsResp, want) {
      assert fd[m] == td[0];
      assert m <= i;
      assert forall j | i - m < j < |td| :: td[j] == fd[j + m];
      assert Hits(td, i - m, tsCall, tsResp, want);
    }
  }

  /** A verdict depends only on which keys are tracked and how each key is explained. */
  lemma SameExplanations(a: Spans, b: Spans, e: Entry)
    requires a.Keys == b.Keys
    requires forall k, want | k in a ::
      KeyExplained(a[k], e.tsCall, e.tsResp, want) == KeyExplained(b[k], e.tsCall, e.tsResp, want)
    ensures Passes(a, e) == Passes(b, e)
  {
    if e.resp.ScanResp? {
      assert forall k | k in a :: ScanKeyPasses(a, k, e) == ScanKeyPasses(b, k, e);
    }
  }

  /** Trimmed and full histories give the same verdict on every response still to come. */
  lemma TrimmedVerdict(t: Fuzz, u: Fuzz, e: Entry)
    requires Sim(t, u) && Pending(t, e)
    ensures Passes(t.hist.spans, e) == Passes(u.hist.spans, e)
  {
    var a, b := t.hist.spans, u.hist.spans;
    forall k, want | k in a
      ensures KeyExplained(a[k], e.tsCall, e.tsResp, want) == KeyExplained(b[k], e.tsCall, e.tsResp, want)
    {
      forall c | 0 <= c < |a[k]|
        ensures Explained(a[k][c], e.tsCall, e.tsResp, want) == Explained(b[k][c], e.tsCall, e.tsResp, want)
      {
        assert SafeCut(a[k][c], b[k][c], t);
        CutExplains(a[k][c], b[k][c], e.tsCall, e.tsResp, want);
      }
    }
    SameExplanations(a, b, e);
  }

  lemma {:induction false} DrainAgrees(a: Hist, b: Hist, bound: nat)
    requires a.queue == b.queue
    requires forall i | 0 <= i < |a.queue| :: Passes(a.spans, a.queue[i]) == Passes(b.spans, a.queue[i])
    ensures Drain(a, bound).1 == Drain(b, bound).1
    ensures Drain(a, bound).0.queue == Drain(b, bound).0.queue
    decreases |a.queue|
  {
    if a.queue == [] || bound <= a.queue[0].tsResp {
    } else {
      DrainAgrees(a.(queue := a.queue[1..]), b.(queue := a.queue[1..]), bound);
    }
  }

  ghost predicate SamePending(f: Fuzz, f': Fuzz) {
    f'.now == f.now && f'.flights == f.flights && f'.hist.queue == f.hist.queue
  }

  lemma ExtendCut(td: seq<Span>, fd: seq<Span>, s: Span, f: Fuzz, f': Fuzz)
    requires SafeCut(td, fd, f) && SamePending(f, f')
    ensures SafeCut(td + [s], fd + [s], f')
  {
    assert td + [s] == (fd + [s])[|fd| - |td|..];
  }

  lemma SameCut(td: seq<Span>, fd: seq<Span>, f: Fuzz, f': Fuzz)
    requires SafeCut(td, fd, f) && SamePending(f, f')
    ensures SafeCut(td, fd, f')
  {
  }

  lemma ShorterCut(td: seq<Span>, fd: seq<Span>, f: Fuzz, f': Fuzz)
    requires Inv(f) && SafeCut(td, fd, f) && SamePending(f, f') && |td| > 0 && Sequential(td)
    ensures SafeCut(Trim(td, MinOf(f.hist.maxtr), MinQueued(f.hist.queue)), fd, f')
  {
    var m := TrimCuts(td, MinOf(f.hist.maxtr), MinQueued(f.hist.queue));
    if m > 0 {
      OldIsCleared(f, td[m]);
      assert Cleared(td[m..][0].tsResp, f');
    } else {
      assert td[m..] == td;
      SameCut(td, fd, f, f');
    }
  }

  lemma RecordCut(t: Fuzz, u: Fuzz, c: nat, k: Key, s: Span) returns (t': Fuzz, u': Fuzz)
    requires Sim(t, u) && c < |t.flights| && k in t.hist.spans
    requires t.hist.maxtr[c] < s.tsCall <= s.tsResp == t.now && t.flights[c].Idle?
    ensures t' == t.(hist := Record(t.hist, c, k, s)) && u' == u.(hist := Record(u.hist, c, k, s))
    ensures Sim(t', u')
  {
    t' := t.(hist := Record(t.hist, c, k, s));
    u' := u.(hist := Record(u.hist, c, k, s));
    RecordOk(t.hist, t.now, c, k, s);
    RecordOk(u.hist, u.now, c, k, s);
    forall x, i | x in t'.hist.spans && 0 <= i < |t.flights|
      ensures SafeCut(t'.hist.spans[x][i], u'.hist.spans[x][i], t')
    {
      var td, fd := t.hist.spans[x][i], u.hist.spans[x][i];
      assert SafeCut(td, fd, t);
      if x == k && i == c {
        ExtendCut(td, fd, s, t, t');
      } else {
        SameCut(td, fd, t, t');
      }
    }
  }

  /** A span older than both trimming bounds is older than everything pending. */
  lemma OldIsCleared(f: Fuzz, s: Span)
    requires Inv(f) && Old(s, MinOf(f.hist.maxtr), MinQueued(f.hist.queue))
    ensures Cleared(s.tsResp, f)
  {
    forall c | 0 <= c < |f.flights| && f.flights[c].Flying?
      ensures s.tsResp < f.flights[c].tsCall
    {
      assert FlightOk(f.flights[c], f.hist.maxtr[c], f.now);
    }
    assert f.hist.maxtr[0] <= f.now;
  }

  lemma TrimInv(f: Fuzz, k: Key)
    requires Inv(f) && k in f.hist.spans
    ensures Inv(f.(hist := TrimKey(f.hist, k)))
  {
    TrimOk(f.hist, f.now, k);
  }

  lemma TrimKeepsCuts(t: Fuzz, u: Fuzz, k: Key, t': Fuzz)
    requires Sim(t, u) && k in t.hist.spans && t' == t.(hist := TrimKey(t.hist, k))
    ensures forall x, c | x in t'.hist.spans && 0 <= c < |t.flights| ::
      SafeCut(t'.hist.spans[x][c], u.hist.spans[x][c], t')
  {
    forall x, c | x in t'.hist.spans && 0 <= c < |t.flights|
      ensures SafeCut(t'.hist.spans[x][c], u.hist.spans[x][c], t')
    {
      if x == k {
        assert DequeOk(t.hist.spans[k][c], t.hist.maxtr[c]);
        ShorterCut(t.hist.spans[k][c], u.hist.spans[k][c], t, t');
      } else {
        SameCut(t.hist.spans[x][c], u.hist.spans[x][c], t, t');
      }
    }
  }

  lemma TrimKeepsSim(t: Fuzz, u: Fuzz, k: Key)
    requires Sim(t, u) && k in t.hist.spans
    ensures Sim(t.(hist := TrimKey(t.hist, k)), u)
  {
    var t' := t.(hist := TrimKey(t.hist, k));
    assert Inv(t') by {
      TrimInv(t, k);
    }
    assert Twins(t', u);
    TrimKeepsCuts(t, u, k, t');
  }

  lemma DrainKeepsSim(t: Fuzz, u: Fuzz, bound: nat)
    requires Sim(t, u) && t.outcome.Fine?
    ensures Sim(t.(hist := Drain(t.hist, bound).0, outcome := Drain(t.hist, bound).1),
                u.(hist := Drain(u.hist, bound).0, outcome := Drain(u.hist, bound).1))
  {
    forall i | 0 <= i < |t.hist.queue|
      ensures Passes(t.hist.spans, t.hist.queue[i]) == Passes(u.hist.spans, t.hist.queue[i])
    {
      TrimmedVerdict(t, u, t.hist.queue[i]);
    }
    DrainAgrees(t.hist, u.hist, bound);
    DrainOk(t.hist, t.now, bound);
    DrainOk(u.hist, u.now, bound);
    var m := DrainPops(t.hist, bound);
    var t' := t.(hist := Drain(t.hist, bound).0, outcome := Drain(t.hist, bound).1);
    forall k, c | k in t.hist.spans && 0 <= c < |t.flights|
      ensures SafeCut(t'.hist.spans[k][c], u.hist.spans[k][c], t')
    {
      assert SafeCut(t.hist.spans[k][c], u.hist.spans[k][c], t);
    }
  }

  lemma HandedSim(t: Fuzz, u: Fuzz, c: nat, resp: Resp)
    requires Sim(t, u) && c < |t.flights| && t.flights[c].Flying?
    ensures Sim(Handed(t, c, resp), Handed(u, c, resp))
  {
    HandedInv(t, c, resp);
    HandedInv(u, c, resp);
    forall k, i | k in t.hist.spans && 0 <= i < |t.flights|
      ensures SafeCut(t.hist.spans[k][i], u.hist.spans[k][i], Handed(t, c, resp))
    {
    }
  }

  lemma ApplySim(t: Fuzz, u: Fuzz, c: nat, k: Key, s: Span)
    requires Sim(t, u) && t.outcome.Fine? && c < |t.flights| && t.flights[c].Idle?
    requires t.hist.maxtr[c] < s.tsCall <= s.tsResp == t.now
    ensures var (ht, ot) := Apply(t.hist, c, k, s, true);
            var (hu, ou) := Apply(u.hist, c, k, s, false);
            Sim(t.(hist := ht, outcome := ot), u.(hist := hu, outcome := ou))
  {
    if k in t.hist.spans {
      var t1, u1 := RecordCut(t, u, c, k, s);
      TrimKeepsSim(t1, u1, k);
      var t2 := t1.(hist := TrimKey(t1.hist, k));
      DrainKeepsSim(t2, u1, MinOf(t2.hist.maxtr));
    } else {
      SimIgnoresOutcome(t, u, UnknownKey);
    }
  }

  lemma SimIgnoresOutcome(t: Fuzz, u: Fuzz, out: Outcome)
    requires Sim(t, u)
    ensures Sim(t.(outcome := out), u.(outcome := out))
  {
    var t' := t.(outcome := out);
    forall k, c | k in t.hist.spans && 0 <= c < |t.flights|
      ensures SafeCut(t'.hist.spans[k][c], u.hist.spans[k][c], t')
    {
      assert SafeCut(t.hist.spans[k][c], u.hist.spans[k][c], t);
    }
  }

  lemma ClockSim(t: Fuzz, u: Fuzz, t': Fuzz, u': Fuzz)
    requires Sim(t, u) && Inv(t') && Inv(u') && Twins(t', u')
    requires t'.hist == t.hist && u'.hist == u.hist && t'.now == t.now + 1 && |t'.flights| == |t.flights|
    requires forall c | 0 <= c < |t.flights| && t'.flights[c].Flying? ::
      t'.flights[c] == t.flights[c] || t.now < t'.flights[c].tsCall
    ensures Sim(t', u')
  {
    forall k, c | k in t'.hist.spans && 0 <= c < |t'.flights|
      ensures SafeCut(t'.hist.spans[k][c], u'.hist.spans[k][c], t')
    {
      assert SafeCut(t.hist.spans[k][c], u.hist.spans[k][c], t);
    }
  }

  lemma HarvestSim(t: Fuzz, u: Fuzz, c: nat, resp: Resp)
    requires Sim(t, u) && t.outcome.Fine? && c < |t.flights| && t.flights[c].Flying?
    ensures Sim(Harvest(t, c, resp, true), Harvest(u, c, resp, false))
  {
    HandedSim(t, u, c, resp);
    var t', u' := Handed(t, c, resp), Handed(u, c, resp);
    match UpdateInfo(t.flights[c].call) {
      case None =>
      case Some((k, v)) =>
        assert FlightOk(t.flights[c], t.hist.maxtr[c], t.now);
        ApplySim(t', u', c, k, Span(t.flights[c].tsCall, t.now + 1, v));
    }
  }

  /** One event keeps the trimmed and the untrimmed fuzzer in step. */
  lemma StepSim(t: Fuzz, u: Fuzz, ev: Event)
    requires Sim(t, u) && Enabled(t, ev)
    ensures Sim(Step(t, ev, true), Step(u, ev, false))
  {
    if ev.Harvested? && !ev.resp.StopResp? {
      HarvestSim(t, u, ev.c, ev.resp);
    } else {
      StepInv(t, ev, true);
      StepInv(u, ev, false);
      ClockSim(t, u, Step(t, ev, true), Step(u, ev, false));
    }
  }

  lemma {:induction false} RunSim(t: Fuzz, u: Fuzz, evs: seq<Event>)
    requires Sim(t, u)
    ensures ValidRun(t, evs, true) <==> ValidRun(u, evs, false)
    ensures ValidRun(t, evs, true) ==> Sim(Run(t, evs, true), Run(u, evs, false))
    decreases |evs|
  {
    if evs != [] && Enabled(t, evs[0]) {
      StepSim(t, u, evs[0]);
      RunSim(Step(t, evs[0], true), Step(u, evs[0], false), evs[1..]);
    }
  }

  lemma StartSim(n: nat, keys: seq<seq<Key>>)
    requires n > 0
    ensures Sim(Start(n, keys), Start(n, keys))
  {
    StartInv(n, keys);
  }

  /** Trimming refines no trimming: on the same events, whatever the server
      answers, the two checkers raise the same alarm at the same moment, hold the
      same queue, and agree on every response still to be checked. */
  lemma TrimmingRefinesKeepingAll(n: nat, keys: seq<seq<Key>>, evs: seq<Event>)
    requires n > 0
    ensures var s := Start(n, keys);
      && (ValidRun(s, evs, true) <==> ValidRun(s, evs, false))
      && (ValidRun(s, evs, true) ==>
            var t, u := Run(s, evs, true), Run(s, evs, false);
            && Twins(t, u)
            && forall e | Pending(t, e) :: Passes(t.hist.spans, e) == Passes(u.hist.spans, e))
  {
    var s := Start(n, keys);
    StartSim(n, keys);
    RunSim(s, s, evs);
    if ValidRun(s, evs, true) {
      var t, u := Run(s, evs, true), Run(s, evs, false);
      forall e | Pending(t, e)
        ensures Passes(t.hist.spans, e) == Passes(u.hist.spans, e)
      {
        TrimmedVerdict(t, u, e);
      }
    }
  }
}
