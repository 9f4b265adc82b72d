/** What the verdicts of the online checker mean: they are final when taken,
    they are those of an offline check against the complete update history, and
    with a single client they are exact. */
module Verdicts {
  import opened Kv
  import opened Checker
  import opened FuzzRuns
  import opened Trimming

  // ----- verdicts are final -----

  /** `d'` extends `d` by spans called after `ts`. */
  ghost predicate Extends(d: seq<Span>, d': seq<Span>, ts: nat) {
    && |d| <= |d'| && d == d'[..|d|]
    && forall i | |d| <= i < |d'| :: ts < d'[i].tsCall && ts < d'[i].tsResp
  }

  ghost predicate Grown(a: Spans, b: Spans, n: nat, ts: nat) {
    SameKeys(a, b, n) && forall k, c | k in a && 0 <= c < n :: Extends(a[k][c], b[k][c], ts)
  }

  lemma ExtendExplains(d: seq<Span>, d': seq<Span>, ts: nat, tsCall: nat, tsResp: nat, want: Want)
    requires Extends(d, d', ts) && tsCall <= tsResp <= ts
    ensures Explained(d, tsCall, tsResp, want) == Explained(d', tsCall, tsResp, want)
  {
    if i :| 0 <= i < |d| && Hits(d, i, tsCall, tsResp, want) {
      assert forall j | i < j < |d| :: d'[j] == d[j];
      assert Hits(d', i, tsCall, tsResp, want);
    }
    if i :| 0 <= i < |d'| && Hits(d', i, tsCall, tsResp, want) {
      assert i < |d|;
      assert forall j | i < j < |d| :: d[j] == d'[j];
      assert Hits(d, i, tsCall, tsResp, want);
    }
  }

  lemma GrownVerdict(a: Spans, b: Spans, n: nat, ts: nat, e: Entry)
    requires Grown(a, b, n, ts) && e.tsCall <= e.tsResp <= ts
    ensures Passes(a, e) == Passes(b, e)
  {
    forall k, want | k in a
      ensures KeyExplained(a[k], e.tsCall, e.tsResp, want) == KeyExplained(b[k], e.tsCall, e.tsResp, want)
    {
      forall c | 0 <= c < |a[k]|
        ensures Explained(a[k][c], e.tsCall, e.tsResp, want) == Explained(b[k][c], e.tsCall, e.tsResp, want)
      {
        ExtendExplains(a[k][c], b[k][c], ts, e.tsCall, e.tsResp, want);
      }
    }
    SameExplanations(a, b, e);
  }

  lemma GrownTwice(a: Spans, b: Spans, c: Spans, n: nat, ts: nat, ts': nat)
    requires Grown(a, b, n, ts) && Grown(b, c, n, ts') && ts <= ts'
    ensures Grown(a, c, n, ts)
  {
    forall k, i | k in a && 0 <= i < n
      ensures Extends(a[k][i], c[k][i], ts)
    {
      assert Extends(a[k][i], b[k][i], ts) && Extends(b[k][i], c[k][i], ts');
    }
  }

  lemma RecordGrows(h: Hist, n: nat, c: nat, k: Key, s: Span, ts: nat)
    requires Shaped(h, n) && c < n && k in h.spans && ts < s.tsCall && ts < s.tsResp
    ensures Grown(h.spans, Record(h, c, k, s).spans, n, ts)
  {
  }

  /** The responses every client has moved past. */
  ghost predicate Decided(h: Hist, e: Entry)
    requires |h.maxtr| > 0
  {
    e.tsCall <= e.tsResp < MinOf(h.maxtr)
  }

  lemma MinGrows(s: seq<nat>, c: nat, v: nat)
    requires c < |s| && s[c] <= v
    ensures MinOf(s) <= MinOf(s[c := v])
  {
    var t := s[c := v];
    var i :| 0 <= i < |t| && t[i] == MinOf(t);
    assert MinOf(s) <= s[i];
  }

  /** What a harvest of an update of a tracked key does when nothing is trimmed. */
  lemma HarvestIs(f: Fuzz, c: nat, resp: Resp, k: Key, v: Option<Value>)
    requires Shaped(f.hist, |f.flights|) && c < |f.flights|
    requires f.flights[c].Flying? && UpdateInfo(f.flights[c].call) == Some((k, v))
    ensures var f1 := Handed(f, c, resp);
      if k in f.hist.spans then
        var h := Record(f1.hist, c, k, Span(f.flights[c].tsCall, f.now + 1, v));
        var (h', out) := Drain(h, MinOf(h.maxtr));
        Harvest(f, c, resp, false) == f1.(hist := h', outcome := out)
      else
        Harvest(f, c, resp, false) == f1.(outcome := UnknownKey)
  {
  }

  lemma HarvestGrows(f: Fuzz, c: nat, resp: Resp, k: Key, v: Option<Value>)
    requires Inv(f) && c < |f.flights| && f.flights[c].Flying? && UpdateInfo(f.flights[c].call) == Some((k, v))
    requires k in f.hist.spans
    ensures var f' := Harvest(f, c, resp, false);
      && Grown(f.hist.spans, f'.hist.spans, |f.flights|, MinOf(f.hist.maxtr))
      && MinOf(f.hist.maxtr) <= MinOf(f'.hist.maxtr)
  {
    assert FlightOk(f.flights[c], f.hist.maxtr[c], f.now);
    HarvestIs(f, c, resp, k, v);
    RecordGrows(Handed(f, c, resp).hist, |f.flights|, c, k, Span(f.flights[c].tsCall, f.now + 1, v), MinOf(f.hist.maxtr));
    MinGrows(f.hist.maxtr, c, f.now + 1);
  }

  lemma StepGrows(f: Fuzz, ev: Event)
    requires Inv(f) && Enabled(f, ev)
    ensures var f' := Step(f, ev, false);
      && Grown(f.hist.spans, f'.hist.spans, |f.flights|, MinOf(f.hist.maxtr))
      && MinOf(f.hist.maxtr) <= MinOf(f'.hist.maxtr)
  {
    if ev.Harvested? && !ev.resp.StopResp? {
      match UpdateInfo(f.flights[ev.c].call) {
        case None =>
        case Some((k, v)) =>
          if k in f.hist.spans {
            HarvestGrows(f, ev.c, ev.resp, k, v);
          } else {
            HarvestIs(f, ev.c, ev.resp, k, v);
          }
      }
    }
  }

  lemma {:induction false} RunGrows(f: Fuzz, evs: seq<Event>)
    requires Inv(f) && ValidRun(f, evs, false)
    ensures Grown(f.hist.spans, Run(f, evs, false).hist.spans, |f.flights|, MinOf(f.hist.maxtr))
    decreases |evs|
  {
    if evs != [] {
      var f1 := Step(f, evs[0], false);
      StepInv(f, evs[0], false);
      StepGrows(f, evs[0]);
      RunGrows(f1, evs[1..]);
      GrownTwice(f.hist.spans, f1.hist.spans, Run(f, evs, false).hist.spans, |f.flights|,
                 MinOf(f.hist.maxtr), MinOf(f1.hist.maxtr));
    }
  }

  /** Once every client has moved past a response, no continuation of the run
      changes its verdict on the complete history. */
  lemma VerdictIsFinal(n: nat, keys: seq<seq<Key>>, evs: seq<Event>, more: seq<Event>, e: Entry)
    requires n > 0 && ValidRun(Start(n, keys), evs, false)
    requires ValidRun(Run(Start(n, keys), evs, false), more, false)
    requires Decided(Run(Start(n, keys), evs, false).hist, e)
    ensures var f := Run(Start(n, keys), evs, false);
      Passes(f.hist.spans, e) == Passes(Run(f, more, false).hist.spans, e)
  {
    var f := Run(Start(n, keys), evs, false);
    StartInv(n, keys);
    RunInv(Start(n, keys), evs, false);
    RunGrows(f, more);
    GrownVerdict(f.hist.spans, Run(f, more, false).hist.spans, n, MinOf(f.hist.maxtr), e);
  }

  // ----- online verdicts are the offline ones -----

  ghost predicate Checked(f: Fuzz, d: nat)
    requires |f.hist.maxtr| > 0
  {
    && d <= |f.answers|
    && forall i | 0 <= i < d :: Decided(f.hist, f.answers[i].entry) && Passes(f.hist.spans, f.answers[i].entry)
  }

  ghost predicate QueuedFrom(f: Fuzz, d: nat) {
    && |f.answers| == d + |f.hist.queue|
    && forall i | d <= i < |f.answers| :: f.answers[i].entry == f.hist.queue[i - d]
  }

  ghost predicate NoneDecided(f: Fuzz)
    requires |f.hist.maxtr| > 0
  {
    forall i | 0 <= i < |f.hist.queue| :: MinOf(f.hist.maxtr) <= f.hist.queue[i].tsResp
  }

  /** The first `d` responses were checked and pass on the complete history. The
      rest are queued in order and undecided, unless the run ended in a violation:
      then response `d` is decided, fails on the complete history and was reported. */
  ghost predicate SettledAt(f: Fuzz, d: nat)
    requires |f.hist.maxtr| > 0
  {
    && Checked(f, d)
    && if f.outcome.Violation? then
         && d < |f.answers|
         && QueuedFrom(f, d + 1)
         && Decided(f.hist, f.answers[d].entry)
         && f.outcome.resp == f.answers[d].entry.resp
         && !Passes(f.hist.spans, f.answers[d].entry)
       else
         QueuedFrom(f, d) && NoneDecided(f)
  }

  lemma HandedSettled(f: Fuzz, c: nat, resp: Resp, d: nat)
    requires Inv(f) && f.outcome.Fine? && SettledAt(f, d) && c < |f.flights| && f.flights[c].Flying?
    ensures SettledAt(Handed(f, c, resp), d)
  {
    assert f.hist.maxtr[0] <= f.now;
  }

  lemma RecordKeepsChecked(f: Fuzz, c: nat, k: Key, s: Span, d: nat)
    requires Inv(f) && Checked(f, d) && c < |f.flights| && k in f.hist.spans
    requires f.hist.maxtr[c] < s.tsCall <= s.tsResp
    ensures Checked(f.(hist := Record(f.hist, c, k, s)), d)
  {
    var f' := f.(hist := Record(f.hist, c, k, s));
    RecordGrows(f.hist, |f.flights|, c, k, s, MinOf(f.hist.maxtr));
    MinGrows(f.hist.maxtr, c, s.tsResp);
    forall i | 0 <= i < d
      ensures Decided(f'.hist, f.answers[i].entry) && Passes(f'.hist.spans, f.answers[i].entry)
    {
      assert Decided(f.hist, f.answers[i].entry);
      GrownVerdict(f.hist.spans, f'.hist.spans, |f.flights|, MinOf(f.hist.maxtr), f.answers[i].entry);
    }
  }

  lemma MoreChecked(f: Fuzz, d: nat, m: nat)
    requires QueueOk(f.hist.queue, f.now) && |f.hist.maxtr| > 0 && Checked(f, d) && QueuedFrom(f, d) && m <= |f.hist.queue|
    requires forall i | 0 <= i < m :: f.hist.queue[i].tsResp < MinOf(f.hist.maxtr) && Passes(f.hist.spans, f.hist.queue[i])
    ensures Checked(f, d + m)
  {
    forall i | d <= i < d + m
      ensures Decided(f.hist, f.answers[i].entry) && Passes(f.hist.spans, f.answers[i].entry)
    {
      assert f.answers[i].entry == f.hist.queue[i - d];
    }
  }

  lemma PoppedQueue(f: Fuzz, h: Hist, out: Outcome, d: nat, m: nat)
    requires QueuedFrom(f, d) && m <= |f.hist.queue| && h.queue == f.hist.queue[m..]
    ensures QueuedFrom(f.(hist := h, outcome := out), d + m)
  {
  }

  lemma LateQueue(q: seq<Entry>, now: nat, m: nat, bound: nat)
    requires QueueOk(q, now) && m <= |q| && (m < |q| ==> bound <= q[m].tsResp)
    ensures forall i | m <= i < |q| :: bound <= q[i].tsResp
  {
  }

  lemma PopChecked(f: Fuzz, d: nat, h: Hist, out: Outcome, good: nat)
    requires QueueOk(f.hist.queue, f.now) && |f.hist.maxtr| > 0 && Checked(f, d) && QueuedFrom(f, d)
    requires good <= |f.hist.queue| && h.spans == f.hist.spans && h.maxtr == f.hist.maxtr
    requires forall i | 0 <= i < good :: f.hist.queue[i].tsResp < MinOf(f.hist.maxtr) && Passes(f.hist.spans, f.hist.queue[i])
    ensures Checked(f.(hist := h, outcome := out), d + good)
  {
    MoreChecked(f, d, good);
  }

  lemma AllPopsPass(f: Fuzz, d: nat, h: Hist, out: Outcome, m: nat) returns (d': nat)
    requires QueueOk(f.hist.queue, f.now) && |f.hist.maxtr| > 0 && Checked(f, d) && QueuedFrom(f, d)
    requires Popped(f.hist, MinOf(f.hist.maxtr), h, out, m) && out.Fine?
    ensures |h.maxtr| > 0 && SettledAt(f.(hist := h, outcome := out), d')
  {
    d' := d + m;
    PoppedQueue(f, h, out, d, m);
    PopChecked(f, d, h, out, m);
    LateQueue(f.hist.queue, f.now, m, MinOf(f.hist.maxtr));
  }

  lemma LastPopFails(f: Fuzz, d: nat, h: Hist, out: Outcome, m: nat) returns (d': nat)
    requires QueueOk(f.hist.queue, f.now) && |f.hist.maxtr| > 0 && Checked(f, d) && QueuedFrom(f, d)
    requires Popped(f.hist, MinOf(f.hist.maxtr), h, out, m) && !out.Fine?
    ensures |h.maxtr| > 0 && SettledAt(f.(hist := h, outcome := out), d')
  {
    d' := d + m - 1;
    PoppedQueue(f, h, out, d, m);
    PopChecked(f, d, h, out, m - 1);
    assert f.answers[d + m - 1].entry == f.hist.queue[m - 1];
  }

  lemma PopSettles(f: Fuzz, d: nat, h: Hist, out: Outcome, m: nat) returns (d': nat)
    requires QueueOk(f.hist.queue, f.now) && |f.hist.maxtr| > 0 && Checked(f, d) && QueuedFrom(f, d)
    requires Popped(f.hist, MinOf(f.hist.maxtr), h, out, m)
    ensures |h.maxtr| > 0 && SettledAt(f.(hist := h, outcome := out), d')
  {
    if out.Fine? {
      d' := AllPopsPass(f, d, h, out, m);
    } else {
      d' := LastPopFails(f, d, h, out, m);
    }
  }

  lemma DrainSettles(f: Fuzz, d: nat) returns (d': nat)
    requires QueueOk(f.hist.queue, f.now) && |f.hist.maxtr| > 0 && Checked(f, d) && QueuedFrom(f, d)
    ensures var r := Drain(f.hist, MinOf(f.hist.maxtr)); SettledAt(f.(hist := r.0, outcome := r.1), d')
  {
    var m := DrainPops(f.hist, MinOf(f.hist.maxtr));
    var r := Drain(f.hist, MinOf(f.hist.maxtr));
    d' := PopSettles(f, d, r.0, r.1, m);
  }

  lemma HarvestSettles(f: Fuzz, c: nat, resp: Resp, k: Key, v: Option<Value>, d: nat) returns (d': nat)
    requires Inv(f) && SettledAt(f, d) && f.outcome.Fine?
    requires c < |f.flights| && f.flights[c].Flying? && UpdateInfo(f.flights[c].call) == Some((k, v))
    ensures SettledAt(Harvest(f, c, resp, false), d')
  {
    var f1 := Handed(f, c, resp);
    HandedSettled(f, c, resp, d);
    HandedInv(f, c, resp);
    HarvestIs(f, c, resp, k, v);
    assert FlightOk(f.flights[c], f.hist.maxtr[c], f.now);
    d' := d;
    if k in f1.hist.spans {
      var s := Span(f.flights[c].tsCall, f.now + 1, v);
      var f2 := f1.(hist := Record(f1.hist, c, k, s));
      RecordKeepsChecked(f1, c, k, s, d);
      RecordInv(f1, c, k, s);
      d' := DrainSettles(f2, d);
    }
  }

  lemma RecordInv(f: Fuzz, c: nat, k: Key, s: Span)
    requires Inv(f) && c < |f.flights| && f.flights[c].Idle? && k in f.hist.spans
    requires f.hist.maxtr[c] < s.tsCall <= s.tsResp == f.now
    ensures Inv(f.(hist := Record(f.hist, c, k, s)))
  {
    RecordOk(f.hist, f.now, c, k, s);
  }

  lemma StepSettles(f: Fuzz, ev: Event, d: nat) returns (d': nat)
    requires Inv(f) && SettledAt(f, d) && Enabled(f, ev)
    ensures SettledAt(Step(f, ev, false), d')
  {
    d' := d;
    if ev.Harvested? && !ev.resp.StopResp? {
      match UpdateInfo(f.flights[ev.c].call) {
        case None => HandedSettled(f, ev.c, ev.resp, d);
        case Some((k, v)) => d' := HarvestSettles(f, ev.c, ev.resp, k, v, d);
      }
    }
  }

  lemma {:induction false} RunSettles(f: Fuzz, evs: seq<Event>, d: nat) returns (d': nat)
    requires Inv(f) && SettledAt(f, d) && ValidRun(f, evs, false)
    ensures SettledAt(Run(f, evs, false), d')
    decreases |evs|
  {
    d' := d;
    if evs != [] {
      var d1 := StepSettles(f, evs[0], d);
      StepInv(f, evs[0], false);
      d' := RunSettles(Step(f, evs[0], false), evs[1..], d1);
    }
  }

  /** Online equals offline. For every run of the trimming fuzzer against any
      server: it reports a violation exactly when some response every client has
      moved past fails against the complete, untrimmed update history; it then
      reports the first such response; all earlier responses were checked once
      and pass, and what is still queued is, in order, everything undecided. */
  lemma OnlineEqualsOffline(n: nat, keys: seq<seq<Key>>, evs: seq<Event>) returns (d: nat)
    requires n > 0 && ValidRun(Start(n, keys), evs, true)
    ensures ValidRun(Start(n, keys), evs, false)
    ensures var t, u := Run(Start(n, keys), evs, true), Run(Start(n, keys), evs, false);
      && Twins(t, u)
      && SettledAt(u, d)
      && (t.outcome.Violation? <==>
            exists i | 0 <= i < |u.answers| ::
              Decided(u.hist, u.answers[i].entry) && !Passes(u.hist.spans, u.answers[i].entry))
  {
    var s := Start(n, keys);
    TrimmingRefinesKeepingAll(n, keys, evs);
    StartInv(n, keys);
    d := RunSettles(s, evs, 0);
    var u := Run(s, evs, false);
    if !u.outcome.Violation? {
      forall i | 0 <= i < |u.answers| && Decided(u.hist, u.answers[i].entry)
        ensures Passes(u.hist.spans, u.answers[i].entry)
      {
      }
    }
  }

  // ----- one client: exact verdicts -----

  /** The call writes `v` to key `k`. */
  predicate Writes(call: Call, k: Key, v: Option<Value>) {
    UpdateInfo(call) == Some((k, v))
  }

  /** The span of key `k` does not overlap the operation, unless it is that operation. */
  ghost predicate Apart(s: Span, k: Key, a: Answer) {
    || s.tsResp < a.entry.tsCall
    || a.entry.tsResp < s.tsCall
    || (s.tsCall == a.entry.tsCall && s.tsResp == a.entry.tsResp && Writes(a.call, k, s.value))
  }

  ghost predicate DequeApart(d: seq<Span>, k: Key, a: Answer) {
    forall i | 0 <= i < |d| :: Apart(d[i], k, a)
  }

  ghost predicate AnswerOk(f: Fuzz, a: Answer) {
    && a.client < |f.flights|
    && 0 < a.entry.tsCall < a.entry.tsResp <= f.now
    && (f.flights[a.client].Flying? ==> a.entry.tsResp < f.flights[a.client].tsCall)
    && forall k | k in f.hist.spans && a.client < |f.hist.spans[k]| :: DequeApart(f.hist.spans[k][a.client], k, a)
  }

  /** Each client's operations follow one another. */
  ghost predicate Sessions(f: Fuzz) {
    forall i | 0 <= i < |f.answers| :: AnswerOk(f, f.answers[i])
  }

  lemma HandedSessions(f: Fuzz, c: nat, resp: Resp)
    requires Inv(f) && Sessions(f) && c < |f.flights| && f.flights[c].Flying?
    ensures Sessions(Handed(f, c, resp))
  {
    var f' := Handed(f, c, resp);
    assert FlightOk(f.flights[c], f.hist.maxtr[c], f.now);
    forall i | 0 <= i < |f'.answers|
      ensures AnswerOk(f', f'.answers[i])
    {
      if i < |f.answers| {
        assert AnswerOk(f, f.answers[i]);
      } else {
        forall k | k in f.hist.spans
          ensures DequeApart(f.hist.spans[k][c], k, f'.answers[i])
        {
          assert DequeOk(f.hist.spans[k][c], f.hist.maxtr[c]);
        }
      }
    }
  }

  lemma RecordSessions(f: Fuzz, c: nat, k: Key, s: Span, a: Answer)
    requires Shaped(f.hist, |f.flights|) && c < |f.flights| && k in f.hist.spans
    requires AnswerOk(f, a) && (a.client == c ==> Apart(s, k, a))
    ensures AnswerOk(f.(hist := Record(f.hist, c, k, s)), a)
  {
    var f' := f.(hist := Record(f.hist, c, k, s));
    forall x | x in f'.hist.spans
      ensures DequeApart(f'.hist.spans[x][a.client], x, a)
    {
      assert DequeApart(f.hist.spans[x][a.client], x, a);
    }
  }

  lemma HarvestSessions(f: Fuzz, c: nat, resp: Resp, k: Key, v: Option<Value>)
    requires Inv(f) && Sessions(f) && c < |f.flights| && f.flights[c].Flying? && k in f.hist.spans
    requires UpdateInfo(f.flights[c].call) == Some((k, v))
    ensures Sessions(Harvest(f, c, resp, false))
  {
    var f1, s := Handed(f, c, resp), Span(f.flights[c].tsCall, f.now + 1, v);
    HandedSessions(f, c, resp);
    HarvestIs(f, c, resp, k, v);
    forall i | 0 <= i < |f1.answers|
      ensures AnswerOk(f1.(hist := Record(f1.hist, c, k, s)), f1.answers[i])
    {
      assert i < |f.answers| ==> AnswerOk(f, f.answers[i]);
      RecordSessions(f1, c, k, s, f1.answers[i]);
    }
  }

  lemma StepSessions(f: Fuzz, ev: Event)
    requires Inv(f) && Sessions(f) && Enabled(f, ev)
    ensures Sessions(Step(f, ev, false))
  {
    if ev.Called? || ev.resp.StopResp? {
      assert forall i | 0 <= i < |f.answers| :: AnswerOk(f, f.answers[i]);
    } else {
      HandedSessions(f, ev.c, ev.resp);
      match UpdateInfo(f.flights[ev.c].call) {
        case None =>
        case Some((k, v)) =>
          if k in f.hist.spans {
            HarvestSessions(f, ev.c, ev.resp, k, v);
          }
      }
    }
  }

  /** Every update handed in is in the history of its client. */
  ghost predicate Kept(spans: Spans, a: Answer) {
    forall k, v | k in spans && Writes(a.call, k, v) ::
      a.client < |spans[k]| && Span(a.entry.tsCall, a.entry.tsResp, v) in spans[k][a.client]
  }

  ghost predicate AllKept(f: Fuzz) {
    forall i | 0 <= i < |f.answers| :: Kept(f.hist.spans, f.answers[i])
  }

  lemma GrownKept(a: Spans, b: Spans, n: nat, ts: nat, x: Answer)
    requires Grown(a, b, n, ts) && Kept(a, x)
    ensures Kept(b, x)
  {
    forall k, v | k in b && Writes(x.call, k, v)
      ensures x.client < |b[k]| && Span(x.entry.tsCall, x.entry.tsResp, v) in b[k][x.client]
    {
      assert Extends(a[k][x.client], b[k][x.client], ts);
      var i :| 0 <= i < |a[k][x.client]| && a[k][x.client][i] == Span(x.entry.tsCall, x.entry.tsResp, v);
      assert b[k][x.client][i] == a[k][x.client][i];
    }
  }

  lemma NewKept(f: Fuzz, c: nat, resp: Resp)
    requires Shaped(f.hist, |f.flights|) && c < |f.flights| && f.flights[c].Flying?
    ensures var f' := Harvest(f, c, resp, false);
      f'.answers == f.answers + [Answer(Entry(f.flights[c].tsCall, f.now + 1, resp), c, f.flights[c].call)]
      && Kept(f'.hist.spans, f'.answers[|f.answers|])
  {
    match UpdateInfo(f.flights[c].call) {
      case None =>
      case Some((k, v)) =>
        HarvestIs(f, c, resp, k, v);
        if k in f.hist.spans {
          var d := f.hist.spans[k][c];
          var s := Span(f.flights[c].tsCall, f.now + 1, v);
          assert (d + [s])[|d|] == s;
        }
    }
  }

  lemma StepKept(f: Fuzz, ev: Event)
    requires Inv(f) && AllKept(f) && Enabled(f, ev)
    ensures AllKept(Step(f, ev, false))
  {
    var f' := Step(f, ev, false);
    StepGrows(f, ev);
    if ev.Harvested? && !ev.resp.StopResp? {
      NewKept(f, ev.c, ev.resp);
    }
    forall i | 0 <= i < |f'.answers|
      ensures Kept(f'.hist.spans, f'.answers[i])
    {
      if i < |f.answers| {
        GrownKept(f.hist.spans, f'.hist.spans, |f.flights|, MinOf(f.hist.maxtr), f.answers[i]);
      }
    }
  }

  ghost predicate HasDummies(f: Fuzz) {
    forall k, c | k in f.hist.spans && 0 <= c < |f.hist.spans[k]| :: |f.hist.spans[k][c]| > 0 && f.hist.spans[k][c][0].tsResp == 0
  }

  lemma StepDummies(f: Fuzz, ev: Event)
    requires Inv(f) && HasDummies(f) && Enabled(f, ev)
    ensures HasDummies(Step(f, ev, false))
  {
    var f' := Step(f, ev, false);
    StepGrows(f, ev);
    forall k, c | k in f'.hist.spans && 0 <= c < |f'.hist.spans[k]|
      ensures |f'.hist.spans[k][c]| > 0 && f'.hist.spans[k][c][0].tsResp == 0
    {
      assert Extends(f.hist.spans[k][c], f'.hist.spans[k][c], MinOf(f.hist.maxtr));
      assert f.hist.spans[k][c][0] == f'.hist.spans[k][c][0];
    }
  }

  lemma {:induction false} RunSessions(f: Fuzz, evs: seq<Event>)
    requires Inv(f) && Sessions(f) && AllKept(f) && HasDummies(f) && ValidRun(f, evs, false)
    ensures var f' := Run(f, evs, false); Inv(f') && Sessions(f') && AllKept(f') && HasDummies(f')
    decreases |evs|
  {
    if evs != [] {
      StepSessions(f, evs[0]);
      StepKept(f, evs[0]);
      StepDummies(f, evs[0]);
      StepInv(f, evs[0], false);
      RunSessions(Step(f, evs[0], false), evs[1..]);
    }
  }

  /** An update whose response claims exactly what the update itself wrote is
      always accepted: for any number of clients, at any later moment. */
  lemma OwnWriteAlwaysPasses(n: nat, keys: seq<seq<Key>>, evs: seq<Event>, a: Answer, k: Key, v: Option<Value>, want: Want)
    requires n > 0 && ValidRun(Start(n, keys), evs, false)
    requires var f := Run(Start(n, keys), evs, false); a in f.answers && k in f.hist.spans
    requires Writes(a.call, k, v) && Matches(v, want)
    ensures KeyExplained(Run(Start(n, keys), evs, false).hist.spans[k], a.entry.tsCall, a.entry.tsResp, want)
  {
    StartInv(n, keys);
    RunSessions(Start(n, keys), evs);
    var f := Run(Start(n, keys), evs, false);
    assert AnswerOk(f, a) && Kept(f.hist.spans, a);
    var d := f.hist.spans[k][a.client];
    assert DequeOk(d, f.hist.maxtr[a.client]);
    var i :| 0 <= i < |d| && d[i] == Span(a.entry.tsCall, a.entry.tsResp, v);
    assert Hits(d, i, a.entry.tsCall, a.entry.tsResp, want);
    assert Explained(d, a.entry.tsCall, a.entry.tsResp, want);
  }

  /** The value a key had just before `ts` in a sequential history. */
  function ValueBefore(d: seq<Span>, ts: nat): Option<Value> {
    if d == [] then None
    else if d[|d| - 1].tsResp < ts then d[|d| - 1].value
    else ValueBefore(d[..|d| - 1], ts)
  }

  lemma {:induction false} ValueBeforeIs(d: seq<Span>, ts: nat, m: nat)
    requires m < |d| && d[m].tsResp < ts && forall i | m < i < |d| :: ts <= d[i].tsResp
    ensures ValueBefore(d, ts) == d[m].value
  {
    if m < |d| - 1 {
      ValueBeforeIs(d[..|d| - 1], ts, m);
    }
  }

  /** Spans up to `m` ended before the call, later ones began after the response. */
  lemma SequentialExact(d: seq<Span>, m: nat, tsCall: nat, tsResp: nat, want: Want)
    requires Sequential(d) && m < |d| && tsCall <= tsResp
    requires d[m].tsResp < tsCall && forall i | m < i < |d| :: tsResp < d[i].tsCall
    ensures Explained(d, tsCall, tsResp, want) <==> Matches(ValueBefore(d, tsCall), want)
  {
    ValueBeforeIs(d, tsCall, m);
    if Matches(d[m].value, want) {
      assert Hits(d, m, tsCall, tsResp, want);
    }
    forall i | 0 <= i < |d| && Hits(d, i, tsCall, tsResp, want)
      ensures i == m
    {
    }
  }

  /** Span `m + 1` is the operation itself. */
  lemma OwnSpanExact(d: seq<Span>, m: nat, tsCall: nat, tsResp: nat, want: Want)
    requires Sequential(d) && m + 1 < |d| && d[m + 1].tsCall == tsCall < tsResp == d[m + 1].tsResp
    ensures Explained(d, tsCall, tsResp, want) <==>
            Matches(ValueBefore(d, tsCall), want) || Matches(d[m + 1].value, want)
  {
    ValueBeforeIs(d, tsCall, m);
    if Matches(d[m].value, want) {
      assert Hits(d, m, tsCall, tsResp, want);
    }
    if Matches(d[m + 1].value, want) {
      assert Hits(d, m + 1, tsCall, tsResp, want);
    }
    forall i | 0 <= i < |d| && Hits(d, i, tsCall, tsResp, want)
      ensures i == m || i == m + 1
    {
    }
  }

  /** What a single client may be told about a key: its value before the call, or
      what the call itself writes to it. */
  ghost predicate Plausible(d: seq<Span>, a: Answer, k: Key, want: Want) {
    || Matches(ValueBefore(d, a.entry.tsCall), want)
    || exists v :: Writes(a.call, k, v) && Matches(v, want)
  }

  lemma {:induction false} LastBefore(d: seq<Span>, k: Key, a: Answer, n: nat) returns (m: nat)
    requires 0 < n <= |d| && d[0].tsResp < a.entry.tsCall
    requires forall i | n <= i < |d| :: a.entry.tsCall <= d[i].tsResp
    ensures m < |d| && d[m].tsResp < a.entry.tsCall && forall i | m < i < |d| :: a.entry.tsCall <= d[i].tsResp
  {
    m := n - 1;
    if a.entry.tsCall <= d[m].tsResp {
      m := LastBefore(d, k, a, n - 1);
    }
  }

  lemma OwnIsNext(d: seq<Span>, m: nat, i: nat)
    requires Sequential(d) && m < |d| && i < |d| && d[m].tsResp < d[i].tsCall
    requires forall j | m < j < |d| :: d[i].tsCall <= d[j].tsResp
    ensures i == m + 1
  {
    assert m < i;
    var next := d[m + 1];
  }

  lemma SoloDeque(d: seq<Span>, k: Key, a: Answer, want: Want)
    requires Sequential(d) && DequeApart(d, k, a) && |d| > 0 && d[0].tsResp < a.entry.tsCall < a.entry.tsResp
    requires forall v | Writes(a.call, k, v) :: Span(a.entry.tsCall, a.entry.tsResp, v) in d
    ensures Explained(d, a.entry.tsCall, a.entry.tsResp, want) <==> Plausible(d, a, k, want)
  {
    var m := LastBefore(d, k, a, |d|);
    if v :| Writes(a.call, k, v) {
      var i :| 0 <= i < |d| && d[i] == Span(a.entry.tsCall, a.entry.tsResp, v);
      OwnIsNext(d, m, i);
      OwnSpanExact(d, m, a.entry.tsCall, a.entry.tsResp, want);
    } else {
      forall i | m < i < |d| ensures a.entry.tsResp < d[i].tsCall {
        assert Apart(d[i], k, a);
      }
      SequentialExact(d, m, a.entry.tsCall, a.entry.tsResp, want);
    }
  }

  lemma SoloKey(f: Fuzz, a: Answer, k: Key, want: Want)
    requires Inv(f) && |f.flights| == 1 && AnswerOk(f, a) && Kept(f.hist.spans, a) && HasDummies(f) && k in f.hist.spans
    ensures KeyExplained(f.hist.spans[k], a.entry.tsCall, a.entry.tsResp, want)
            <==> Plausible(f.hist.spans[k][0], a, k, want)
  {
    var d := f.hist.spans[k][0];
    assert DequeOk(d, f.hist.maxtr[0]) && DequeApart(d, k, a);
    SoloDeque(d, k, a, want);
  }

  ghost predicate SoloPlausible(spans: Spans, a: Answer, k: Key, want: Want) {
    k in spans && |spans[k]| == 1 && Plausible(spans[k][0], a, k, want)
  }

  /** With one client the verdicts are exact up to the operation's own write. A Get
      passes when it returned the value of the last preceding update of its key. A
      Put, Swap or Delete passes when it reports that value, or what it wrote itself.
      A Scan passes when its entries are distinct, in range and agree with the
      sequential state on every tracked key in range. */
  lemma SingleClientExact(keys: seq<seq<Key>>, evs: seq<Event>, a: Answer)
    requires ValidRun(Start(1, keys), evs, false) && a in Run(Start(1, keys), evs, false).answers
    ensures var spans := Run(Start(1, keys), evs, false).hist.spans;
      match a.entry.resp
      case PutResp(k, found) => Passes(spans, a.entry) <==> SoloPlausible(spans, a, k, Presence(found))
      case SwapResp(k, v) => Passes(spans, a.entry) <==> SoloPlausible(spans, a, k, Exactly(v))
      case GetResp(k, v) => Passes(spans, a.entry) <==> SoloPlausible(spans, a, k, Exactly(v))
      case DeleteResp(k, found) => Passes(spans, a.entry) <==> SoloPlausible(spans, a, k, Presence(found))
      case ScanResp(first, last, entries) =>
        Passes(spans, a.entry) <==>
          && AllInRange(entries, first, last) && NoDuplicates(entries)
          && forall k | k in spans && InScan(k, first, last) ::
               SoloPlausible(spans, a, k, Exactly(Lookup(EntriesMap(entries), k)))
      case StopResp => !Passes(spans, a.entry)
    ensures var spans := Run(Start(1, keys), evs, false).hist.spans;
      UpdateInfo(a.call).None? ==>
        forall k, v | k in spans :: SoloPlausible(spans, a, k, Exactly(v)) <==> v == ValueBefore(spans[k][0], a.entry.tsCall)
  {
    var s := Start(1, keys);
    StartInv(1, keys);
    RunSessions(s, evs);
    var f := Run(s, evs, false);
    forall k, want | k in f.hist.spans
      ensures KeyExplained(f.hist.spans[k], a.entry.tsCall, a.entry.tsResp, want) <==> SoloPlausible(f.hist.spans, a, k, want)
    {
      SoloKey(f, a, k, want);
    }
    if a.entry.resp.ScanResp? {
      assert forall k | k in f.hist.spans :: ScanKeyPasses(f.hist.spans, k, a.entry) <==>
        (InScan(k, a.entry.resp.first, a.entry.resp.last) ==>
           SoloPlausible(f.hist.spans, a, k, Exactly(Lookup(EntriesMap(a.entry.resp.entries), k))));
    }
  }

  /** With one client, a Put on its own key passes when it reports `found` or the key
      was absent, a Delete when it reports `not_found` or the key was present, a Swap
      when it reports its own value or the one before. */
  lemma SingleClientUpdates(keys: seq<seq<Key>>, evs: seq<Event>, a: Answer)
    requires ValidRun(Start(1, keys), evs, false) && a in Run(Start(1, keys), evs, false).answers
    ensures var spans := Run(Start(1, keys), evs, false).hist.spans;
      match (a.call, a.entry.resp)
      case (Put(k, _), PutResp(k', found)) =>
        k == k' ==> (Passes(spans, a.entry) <==>
                       k in spans && (found || ValueBefore(spans[k][0], a.entry.tsCall).None?))
      case (Delete(k), DeleteResp(k', found)) =>
        k == k' ==> (Passes(spans, a.entry) <==>
                       k in spans && (!found || ValueBefore(spans[k][0], a.entry.tsCall).Some?))
      case (Swap(k, v), SwapResp(k', previous)) =>
        k == k' ==> (Passes(spans, a.entry) <==>
                       k in spans && (previous == Some(v) || previous == ValueBefore(spans[k][0], a.entry.tsCall)))
      case _ => true
  {
    SingleClientExact(keys, evs, a);
    match a.call
    case Put(k, v) => assert Writes(a.call, k, Some(v));
    case Swap(k, v) => assert Writes(a.call, k, Some(v));
    case Delete(k) => assert Writes(a.call, k, None);
    case _ =>
  }

  /** With one client, a scan that misreports or omits a tracked key of its range fails. */
  lemma SingleClientScans(keys: seq<seq<Key>>, evs: seq<Event>, a: Answer, first: Key, last: Key,
                          entries: seq<(Key, Value)>, k: Key)
    requires ValidRun(Start(1, keys), evs, false) && a in Run(Start(1, keys), evs, false).answers
    requires a.call == Scan(first, last) && a.entry.resp == ScanResp(first, last, entries)
    requires k in Run(Start(1, keys), evs, false).hist.spans && KeyLeq(first, k) && KeyLeq(k, last)
    ensures var spans := Run(Start(1, keys), evs, false).hist.spans;
      Passes(spans, a.entry) ==>
        forall v :: (k, v) in entries <==> ValueBefore(spans[k][0], a.entry.tsCall) == Some(v)
  {
    SingleClientExact(keys, evs, a);
    LeqNotLess(first, k);
    LeqNotLess(k, last);
    if NoDuplicates(entries) {
      EntriesMapIs(entries);
    }
  }
}
