/** Every run of the fuzz loop against an arbitrary server. Clients issue calls
    and hand in responses; each such event advances the timestamp by one. The
    same events drive the checker that trims and the one that keeps everything. */
module FuzzRuns {
  import opened Kv
  import opened Checker

  datatype Flight = Idle | Flying(tsCall: nat, call: Call)

  /** A response handed in so far, with the client and call it answers. */
  datatype Answer = Answer(entry: Entry, client: nat, call: Call)

  datatype Fuzz = Fuzz(now: nat, flights: seq<Flight>, hist: Hist, answers: seq<Answer>, outcome: Outcome)

  datatype Event = Called(c: nat, call: Call) | Harvested(c: nat, resp: Resp)

  function Start(n: nat, keys: seq<seq<Key>>): Fuzz {
    Fuzz(0, seq(n, _ => Idle), NewHist(n, keys), [], Fine)
  }

  predicate Enabled(f: Fuzz, ev: Event) {
    && f.outcome.Fine?
    && ev.c < |f.flights|
    && (ev.Called? <==> f.flights[ev.c].Idle?)
  }

  function Harvest(f: Fuzz, c: nat, resp: Resp, trim: bool): (f': Fuzz)
    requires Shaped(f.hist, |f.flights|) && c < |f.flights| && f.flights[c].Flying?
    ensures |f'.flights| == |f.flights| && Shaped(f'.hist, |f.flights|)
  {
    var now := f.now + 1;
    var Flying(tsCall, call) := f.flights[c];
    var e := Entry(tsCall, now, resp);
    var h := Enqueue(f.hist, e);
    var (h', out) :=
      match UpdateInfo(call)
      case None => (h, Fine)
      case Some((k, v)) => Apply(h, c, k, Span(tsCall, now, v), trim);
    Fuzz(now, f.flights[c := Idle], h', f.answers + [Answer(e, c, call)], out)
  }

  function Step(f: Fuzz, ev: Event, trim: bool): (f': Fuzz)
    requires Shaped(f.hist, |f.flights|) && Enabled(f, ev)
    ensures |f'.flights| == |f.flights| && Shaped(f'.hist, |f.flights|)
  {
    match ev
    case Called(c, call) => f.(now := f.now + 1, flights := f.flights[c := Flying(f.now + 1, call)])
    case Harvested(c, resp) =>
      if resp.StopResp? then f.(now := f.now + 1, outcome := UnexpectedStop)
      else Harvest(f, c, resp, trim)
  }

  predicate ValidRun(f: Fuzz, evs: seq<Event>, trim: bool)
    requires Shaped(f.hist, |f.flights|)
    decreases |evs|
  {
    evs == [] || (Enabled(f, evs[0]) && ValidRun(Step(f, evs[0], trim), evs[1..], trim))
  }

  function Run(f: Fuzz, evs: seq<Event>, trim: bool): (f': Fuzz)
    requires Shaped(f.hist, |f.flights|) && ValidRun(f, evs, trim)
    ensures |f'.flights| == |f.flights| && Shaped(f'.hist, |f.flights|)
    decreases |evs|
  {
    if evs == [] then f else Run(Step(f, evs[0], trim), evs[1..], trim)
  }

  // ----- invariant of every run -----

  ghost predicate Sequential(d: seq<Span>) {
    && (forall i | 0 <= i < |d| :: d[i].tsCall <= d[i].tsResp)
    && (forall i, j | 0 <= i < j < |d| :: d[i].tsResp < d[j].tsCall)
  }

  ghost predicate DequeOk(d: seq<Span>, top: nat) {
    |d| > 0 && Sequential(d) && forall i | 0 <= i < |d| :: d[i].tsResp <= top
  }

  ghost predicate QueueOk(q: seq<Entry>, now: nat) {
    && (forall i | 0 <= i < |q| :: q[i].tsCall < q[i].tsResp <= now)
    && (forall i, j | 0 <= i < j < |q| :: q[i].tsResp < q[j].tsResp)
  }

  ghost predicate HistOk(h: Hist, now: nat) {
    && Shaped(h, |h.maxtr|)
    && (forall c | 0 <= c < |h.maxtr| :: h.maxtr[c] <= now)
    && (forall k, c | k in h.spans && 0 <= c < |h.maxtr| :: DequeOk(h.spans[k][c], h.maxtr[c]))
    && QueueOk(h.queue, now)
  }

  ghost predicate FlightOk(fl: Flight, top: nat, now: nat) {
    fl.Flying? ==> top < fl.tsCall <= now
  }

  ghost predicate Inv(f: Fuzz) {
    && Shaped(f.hist, |f.flights|)
    && HistOk(f.hist, f.now)
    && forall c | 0 <= c < |f.flights| :: FlightOk(f.flights[c], f.hist.maxtr[c], f.now)
  }

  lemma StartInv(n: nat, keys: seq<seq<Key>>)
    requires n > 0
    ensures Inv(Start(n, keys))
  {
  }

  /** `m` queued responses were popped, all older than the bound. All of them
      passed, except the last one when it is reported as a violation. */
  ghost predicate Popped(h: Hist, bound: nat, h': Hist, out: Outcome, m: nat) {
    && m <= |h.queue|
    && h' == h.(queue := h.queue[m..])
    && (forall i | 0 <= i < m :: h.queue[i].tsResp < bound)
    && (forall i | 0 <= i < m - 1 :: Passes(h.spans, h.queue[i]))
    && (out.Fine? || (out.Violation? && m > 0 && out.resp == h.queue[m - 1].resp))
    && (m > 0 ==> (out.Fine? <==> Passes(h.spans, h.queue[m - 1])))
    && (out.Fine? && m < |h.queue| ==> bound <= h.queue[m].tsResp)
  }

  lemma {:induction false} DrainPops(h: Hist, bound: nat) returns (m: nat)
    ensures Popped(h, bound, Drain(h, bound).0, Drain(h, bound).1, m)
    decreases |h.queue|
  {
    if h.queue == [] || bound <= h.queue[0].tsResp {
      m := 0;
    } else if !Passes(h.spans, h.queue[0]) {
      m := 1;
    } else {
      var h' := h.(queue := h.queue[1..]);
      var n := DrainPops(h', bound);
      m := n + 1;
      assert forall i | 0 <= i < n :: h'.queue[i] == h.queue[i + 1];
      assert forall i | 1 <= i < m :: h.queue[i] == h'.queue[i - 1];
      assert h'.queue[n..] == h.queue[m..];
    }
  }

  lemma {:induction false} DropsPrefix(d: seq<Span>, m: nat, keepTs: nat)
    requires m < |d|
    requires forall i | 0 <= i < m :: d[i].tsResp < keepTs
    requires keepTs <= d[m].tsResp
    ensures DropOlder(d, keepTs) == d[m..]
    decreases m
  {
    if m > 0 {
      DropsPrefix(d[1..], m - 1, keepTs);
      assert d[1..][m - 1..] == d[m..];
    }
  }

  lemma {:induction false} KeepTsIs(d: seq<Span>, a: nat, b: nat) returns (m: nat)
    ensures m <= |d|
    ensures forall i | m <= i < |d| :: !Old(d[i], a, b)
    ensures m == 0 ==> KeepTs(d, a, b) == 0
    ensures m > 0 ==> Old(d[m - 1], a, b) && KeepTs(d, a, b) == d[m - 1].tsCall
  {
    if d == [] {
      m := 0;
    } else if Old(d[|d| - 1], a, b) {
      m := |d|;
    } else {
      m := KeepTsIs(d[..|d| - 1], a, b);
    }
  }

  /** Trimming cuts a prefix. What remains starts with an old span whenever
      anything was cut, and holds no other span older than both bounds. */
  lemma TrimCuts(d: seq<Span>, a: nat, b: nat) returns (m: nat)
    requires |d| > 0 && Sequential(d)
    ensures m < |d| && Trim(d, a, b) == d[m..]
    ensures m > 0 ==> d[m].tsResp < a && d[m].tsResp < b
    ensures forall i | m < i < |d| :: a <= d[i].tsResp || b <= d[i].tsResp
  {
    var j := KeepTsIs(d, a, b);
    m := if j == 0 then 0 else j - 1;
    DropsPrefix(d, m, KeepTs(d, a, b));
  }

  lemma RecordOk(h: Hist, now: nat, c: nat, k: Key, s: Span)
    requires HistOk(h, now) && k in h.spans && c < |h.maxtr|
    requires h.maxtr[c] < s.tsCall <= s.tsResp == now
    ensures HistOk(Record(h, c, k, s), now)
  {
  }

  lemma TrimOk(h: Hist, now: nat, k: Key)
    requires HistOk(h, now) && k in h.spans
    ensures HistOk(TrimKey(h, k), now)
  {
    forall c | 0 <= c < |h.maxtr|
      ensures DequeOk(TrimKey(h, k).spans[k][c], h.maxtr[c])
    {
      assert DequeOk(h.spans[k][c], h.maxtr[c]);
      var m := TrimCuts(h.spans[k][c], MinOf(h.maxtr), MinQueued(h.queue));
    }
  }

  lemma DrainOk(h: Hist, now: nat, bound: nat)
    requires HistOk(h, now)
    ensures HistOk(Drain(h, bound).0, now)
  {
    var m := DrainPops(h, bound);
  }

  lemma ApplyOk(h: Hist, now: nat, c: nat, k: Key, s: Span, trim: bool)
    requires HistOk(h, now) && c < |h.maxtr|
    requires h.maxtr[c] < s.tsCall <= s.tsResp == now
    ensures HistOk(Apply(h, c, k, s, trim).0, now)
    ensures Apply(h, c, k, s, trim).0.maxtr == if k in h.spans then h.maxtr[c := now] else h.maxtr
  {
    if k in h.spans {
      RecordOk(h, now, c, k, s);
      var h1 := Record(h, c, k, s);
      var h2 := if trim then TrimKey(h1, k) else h1;
      if trim {
        TrimOk(h1, now, k);
      }
      DrainOk(h2, now, MinOf(h2.maxtr));
    }
  }

  /** The part of a harvest that precedes `apply_update`. */
  function Handed(f: Fuzz, c: nat, resp: Resp): Fuzz
    requires c < |f.flights| && f.flights[c].Flying?
  {
    var Flying(tsCall, call) := f.flights[c];
    var e := Entry(tsCall, f.now + 1, resp);
    Fuzz(f.now + 1, f.flights[c := Idle], Enqueue(f.hist, e), f.answers + [Answer(e, c, call)], f.outcome)
  }

  lemma HandedInv(f: Fuzz, c: nat, resp: Resp)
    requires Inv(f) && c < |f.flights| && f.flights[c].Flying?
    ensures Inv(Handed(f, c, resp))
  {
  }

  lemma ApplyInv(f: Fuzz, c: nat, k: Key, s: Span, trim: bool)
    requires Inv(f) && c < |f.flights| && f.flights[c].Idle? && f.hist.maxtr[c] < s.tsCall <= s.tsResp == f.now
    ensures var (h, out) := Apply(f.hist, c, k, s, trim); Inv(f.(hist := h, outcome := out))
  {
    ApplyOk(f.hist, f.now, c, k, s, trim);
  }

  lemma HarvestInv(f: Fuzz, c: nat, resp: Resp, trim: bool)
    requires Inv(f) && f.outcome.Fine? && c < |f.flights| && f.flights[c].Flying?
    ensures Inv(Harvest(f, c, resp, trim))
  {
    var f1 := Handed(f, c, resp);
    assert Inv(f1) && f1.hist.maxtr[c] < f.flights[c].tsCall <= f1.now by {
      HandedInv(f, c, resp);
      assert FlightOk(f.flights[c], f.hist.maxtr[c], f.now);
    }
    match UpdateInfo(f.flights[c].call) {
      case None => assert Harvest(f, c, resp, trim) == f1;
      case Some((k, v)) => ApplyInv(f1, c, k, Span(f.flights[c].tsCall, f.now + 1, v), trim);
    }
  }

  lemma StepInv(f: Fuzz, ev: Event, trim: bool)
    requires Inv(f) && Enabled(f, ev)
    ensures Inv(Step(f, ev, trim))
  {
    if ev.Harvested? && !ev.resp.StopResp? {
      HarvestInv(f, ev.c, ev.resp, trim);
    }
  }

  lemma {:induction false} RunInv(f: Fuzz, evs: seq<Event>, trim: bool)
    requires Inv(f) && ValidRun(f, evs, trim)
    ensures Inv(Run(f, evs, trim))
    decreases |evs|
  {
    if evs != [] {
      StepInv(f, evs[0], trim);
      RunInv(Step(f, evs[0], trim), evs[1..], trim);
    }
  }
}
