/** The fuzz loop composed with a server that executes each call atomically, at
    any moment between its issue and the collection of its response. Such a
    server never causes an alarm. */
module NoFalseAlarms {
  import opened Kv
  import opened Checker
  import opened FuzzRuns
  import opened Trimming
  import opened Verdicts

  datatype Sys = Sys(fuzz: Fuzz, store: Store, replies: seq<Option<Resp>>)

  datatype SysEvent = Issue(c: nat, call: Call) | Execute(c: nat) | Collect(c: nat)

  /** The calls the generator makes for a client that owns `keys`. */
  predicate GoodCall(call: Call, keys: seq<Key>) {
    match call
    case Scan(a, b) => a in keys && b in keys && KeyLeq(a, b)
    case Stop => false
    case _ => call.key in keys
  }

  ghost predicate SysStart(s: Sys, keys: seq<seq<Key>>) {
    s == Sys(Start(|keys|, keys), map[], seq(|keys|, _ => None))
  }

  ghost predicate SysNext(s: Sys, ev: SysEvent, s': Sys, keys: seq<seq<Key>>)
    requires Shaped(s.fuzz.hist, |s.fuzz.flights|) && |s.fuzz.flights| == |s.replies| == |keys|
  {
    && ev.c < |keys|
    && match ev
       case Issue(c, call) =>
         && GoodCall(call, keys[c]) && Enabled(s.fuzz, Called(c, call))
         && s' == s.(fuzz := Step(s.fuzz, Called(c, call), true))
       case Execute(c) =>
         && s.fuzz.flights[c].Flying? && s.replies[c].None?
         && s'.fuzz == s.fuzz && |s'.replies| == |s.replies| && s'.replies[c].Some?
         && s'.replies == s.replies[c := s'.replies[c]]
         && Serves(s.store, s.fuzz.flights[c].call, s'.store, s'.replies[c].value)
       case Collect(c) =>
         && s.replies[c].Some? && Enabled(s.fuzz, Harvested(c, s.replies[c].value))
         && s' == s.(fuzz := Step(s.fuzz, Harvested(c, s.replies[c].value), true), replies := s.replies[c := None])
  }

  ghost predicate SysShaped(s: Sys, n: nat) {
    Shaped(s.fuzz.hist, |s.fuzz.flights|) && |s.fuzz.flights| == |s.replies| == n
  }

  ghost predicate SysRun(ss: seq<Sys>, evs: seq<SysEvent>, keys: seq<seq<Key>>) {
    && |ss| == |evs| + 1
    && SysStart(ss[0], keys)
    && forall i | 0 <= i < |evs| :: SysShaped(ss[i], |keys|) && SysNext(ss[i], evs[i], ss[i + 1], keys)
  }

  // ----- where the value of each key was last written -----

  /** The `index`-th update of a key by a client; the next free index stands for
      an update that was executed and not yet collected. */
  datatype Loc = Loc(client: nat, index: nat)

  /** What the server looked like when it executed a call. */
  datatype Snapshot = Snapshot(store: Store, last: map<Key, Loc>)

  /** Auxiliary state: the untrimmed twin, the last writer of each key, and the
      snapshot taken for each executed call, in flight or queued. */
  datatype Aux = Aux(full: Fuzz, last: map<Key, Loc>, flying: seq<Snapshot>, queued: seq<Snapshot>)

  ghost predicate InFlightWrite(f: Fuzz, replies: seq<Option<Resp>>, c: nat, k: Key, v: Option<Value>)
    requires c < |f.flights| == |replies|
  {
    UpdateOf(f.flights[c]) == Some((k, v)) && replies[c].Some?
  }

  ghost predicate Writing(f: Fuzz, replies: seq<Option<Resp>>, c: nat, k: Key)
    requires c < |f.flights| == |replies|
  {
    UpdateOf(f.flights[c]).Some? && replies[c].Some? && UpdateOf(f.flights[c]).value.0 == k
  }

  function UpdateOf(fl: Flight): Option<(Key, Option<Value>)> {
    if fl.Flying? then UpdateInfo(fl.call) else None
  }

  ghost predicate Dims(f: Fuzz, replies: seq<Option<Resp>>) {
    Shaped(f.hist, |f.flights|) && |f.flights| == |replies|
  }

  /** Location `l` of key `k` holds `v`, by an update called no later than `ts`. */
  ghost predicate Holds(f: Fuzz, replies: seq<Option<Resp>>, k: Key, l: Loc, v: Option<Value>, ts: nat)
    requires Dims(f, replies) && k in f.hist.spans
  {
    && l.client < |f.flights|
    && var d := f.hist.spans[k][l.client];
       && l.index <= |d|
       && if l.index < |d| then d[l.index].value == v && d[l.index].tsCall <= ts
          else InFlightWrite(f, replies, l.client, k, v) && f.flights[l.client].tsCall <= ts
  }

  /** Every later update by the same client ended after `ts`. */
  ghost predicate LaterEndAfter(d: seq<Span>, i: nat, ts: nat) {
    forall j | i < j < |d| :: ts < d[j].tsResp
  }

  ghost predicate KeySeen(f: Fuzz, replies: seq<Option<Resp>>, snap: Snapshot, k: Key, tsCall: nat, ts: nat)
    requires Dims(f, replies) && k in f.hist.spans
  {
    && k in snap.last
    && Holds(f, replies, k, snap.last[k], Lookup(snap.store, k), ts)
    && LaterEndAfter(f.hist.spans[k][snap.last[k].client], snap.last[k].index, tsCall)
  }

  ghost predicate Seen(f: Fuzz, replies: seq<Option<Resp>>, snap: Snapshot, tsCall: nat, ts: nat)
    requires Dims(f, replies)
  {
    && snap.store.Keys <= f.hist.spans.Keys
    && forall k | k in f.hist.spans :: KeySeen(f, replies, snap, k, tsCall, ts)
  }

  /** The response is the one an atomic server gives on `store`. */
  ghost predicate Fits(resp: Resp, store: Store, pool: set<Key>) {
    match resp
    case PutResp(k, found) => k in pool && found == (k in store)
    case SwapResp(k, v) => k in pool && v == Lookup(store, k)
    case GetResp(k, v) => k in pool && v == Lookup(store, k)
    case DeleteResp(k, found) => k in pool && found == (k in store)
    case ScanResp(a, b, entries) => IsRange(store, a, b, entries)
    case StopResp => false
  }

  ghost predicate CurrentKey(f: Fuzz, replies: seq<Option<Resp>>, store: Store, last: map<Key, Loc>, k: Key)
    requires Dims(f, replies) && k in f.hist.spans
  {
    && k in last
    && Holds(f, replies, k, last[k], Lookup(store, k), f.now)
    && |f.hist.spans[k][last[k].client]| <= last[k].index + 1
    && (Writing(f, replies, last[k].client, k) ==> last[k].index == |f.hist.spans[k][last[k].client]|)
  }

  ghost predicate Current(f: Fuzz, replies: seq<Option<Resp>>, store: Store, last: map<Key, Loc>)
    requires Dims(f, replies)
  {
    && store.Keys <= f.hist.spans.Keys
    && forall k | k in f.hist.spans :: CurrentKey(f, replies, store, last, k)
  }

  ghost predicate FlightSeen(f: Fuzz, replies: seq<Option<Resp>>, c: nat, snap: Snapshot)
    requires Dims(f, replies) && c < |f.flights|
  {
    replies[c].Some? ==>
      && f.flights[c].Flying?
      && Seen(f, replies, snap, f.flights[c].tsCall, f.now)
      && Fits(replies[c].value, snap.store, f.hist.spans.Keys)
  }

  ghost predicate QueueSeen(f: Fuzz, replies: seq<Option<Resp>>, e: Entry, snap: Snapshot)
    requires Dims(f, replies)
  {
    && e.tsResp > 0
    && Seen(f, replies, snap, e.tsCall, e.tsResp - 1)
    && Fits(e.resp, snap.store, f.hist.spans.Keys)
  }

  ghost predicate CallsGood(f: Fuzz, keys: seq<seq<Key>>) {
    && |f.flights| == |keys| && f.hist.spans.Keys == PoolKeys(keys)
    && forall c | 0 <= c < |keys| && f.flights[c].Flying? :: GoodCall(f.flights[c].call, keys[c])
  }

  ghost predicate Linked(f: Fuzz, replies: seq<Option<Resp>>, store: Store, a: Aux)
    requires Dims(f, replies)
  {
    && Current(f, replies, store, a.last)
    && |a.flying| == |f.flights|
    && (forall c | 0 <= c < |f.flights| :: FlightSeen(f, replies, c, a.flying[c]))
    && |a.queued| == |f.hist.queue|
    && (forall i | 0 <= i < |a.queued| :: QueueSeen(f, replies, f.hist.queue[i], a.queued[i]))
  }

  ghost predicate SysInv(s: Sys, keys: seq<seq<Key>>, a: Aux) {
    && Sim(s.fuzz, a.full)
    && s.fuzz.outcome.Fine?
    && Dims(a.full, s.replies)
    && CallsGood(a.full, keys)
    && Linked(a.full, s.replies, s.store, a)
  }

  // ----- a snapshot explains the response -----

  /** Once every client has moved past the response, the update its value comes
      from is in the history and inside the scanned window. */
  lemma SeenExplains(f: Fuzz, replies: seq<Option<Resp>>, e: Entry, snap: Snapshot, k: Key, want: Want)
    requires Inv(f) && Dims(f, replies) && QueueSeen(f, replies, e, snap) && e.tsResp < MinOf(f.hist.maxtr)
    requires k in f.hist.spans && Matches(Lookup(snap.store, k), want)
    ensures KeyExplained(f.hist.spans[k], e.tsCall, e.tsResp, want)
  {
    assert KeySeen(f, replies, snap, k, e.tsCall, e.tsResp - 1);
    var l := snap.last[k];
    assert FlightOk(f.flights[l.client], f.hist.maxtr[l.client], f.now);
    assert Hits(f.hist.spans[k][l.client], l.index, e.tsCall, e.tsResp, want);
    assert Explained(f.hist.spans[k][l.client], e.tsCall, e.tsResp, want);
  }

  lemma RangeWellFormed(store: Store, a: Key, b: Key, entries: seq<(Key, Value)>)
    requires IsRange(store, a, b, entries)
    ensures AllInRange(entries, a, b) && NoDuplicates(entries)
  {
    forall i | 0 <= i < |entries|
      ensures !KeyLess(entries[i].0, a) && !KeyLess(b, entries[i].0)
    {
      LeqNotLess(a, entries[i].0);
      LeqNotLess(entries[i].0, b);
    }
    forall i, j | 0 <= i < j < |entries|
      ensures entries[i].0 != entries[j].0
    {
      KeyLessIrreflexive(entries[i].0);
    }
  }

  lemma RangeLookup(store: Store, a: Key, b: Key, entries: seq<(Key, Value)>, k: Key)
    requires IsRange(store, a, b, entries) && InScan(k, a, b)
    ensures Lookup(EntriesMap(entries), k) == Lookup(store, k)
  {
    RangeWellFormed(store, a, b, entries);
    EntriesMapIs(entries);
    NotLessLeq(a, k);
    NotLessLeq(k, b);
    if k in store {
      assert (k, store[k]) in entries;
    } else {
      assert forall v :: (k, v) !in entries;
    }
  }

  lemma SeenPasses(f: Fuzz, replies: seq<Option<Resp>>, e: Entry, snap: Snapshot)
    requires Inv(f) && Dims(f, replies) && QueueSeen(f, replies, e, snap) && e.tsResp < MinOf(f.hist.maxtr)
    ensures Passes(f.hist.spans, e)
  {
    match e.resp
    case PutResp(k, found) => SeenExplains(f, replies, e, snap, k, Presence(found));
    case SwapResp(k, v) => SeenExplains(f, replies, e, snap, k, Exactly(v));
    case GetResp(k, v) => SeenExplains(f, replies, e, snap, k, Exactly(v));
    case DeleteResp(k, found) => SeenExplains(f, replies, e, snap, k, Presence(found));
    case ScanResp(a, b, entries) =>
      RangeWellFormed(snap.store, a, b, entries);
      forall k | k in f.hist.spans
        ensures ScanKeyPasses(f.hist.spans, k, e)
      {
        if InScan(k, a, b) {
          RangeLookup(snap.store, a, b, entries, k);
          SeenExplains(f, replies, e, snap, k, Exactly(Lookup(snap.store, k)));
        }
      }
  }

  // ----- the three steps -----

  /** From `f` to `f'`, every location keeps what it holds and nothing later ends early. */
  ghost predicate KeepsLocs(f: Fuzz, replies: seq<Option<Resp>>, f': Fuzz, replies': seq<Option<Resp>>)
    requires Dims(f, replies) && Dims(f', replies')
  {
    && f'.hist.spans.Keys == f.hist.spans.Keys
    && f.now <= f'.now
    && (forall k, l, v, ts: nat | k in f.hist.spans && Holds(f, replies, k, l, v, ts) :: Holds(f', replies', k, l, v, ts))
    && (forall k, c, i: nat, ts: nat | k in f.hist.spans && 0 <= c < |f.flights| && ts <= f.now
                             && LaterEndAfter(f.hist.spans[k][c], i, ts)
          :: c < |f'.flights| && LaterEndAfter(f'.hist.spans[k][c], i, ts))
  }

  lemma KeepsSeen(f: Fuzz, replies: seq<Option<Resp>>, f': Fuzz, replies': seq<Option<Resp>>,
                  snap: Snapshot, tsCall: nat, ts: nat, ts': nat)
    requires Dims(f, replies) && Dims(f', replies') && KeepsLocs(f, replies, f', replies')
    requires Seen(f, replies, snap, tsCall, ts) && tsCall <= f.now && ts <= ts'
    ensures Seen(f', replies', snap, tsCall, ts')
  {
    forall k | k in f'.hist.spans
      ensures KeySeen(f', replies', snap, k, tsCall, ts')
    {
      assert KeySeen(f, replies, snap, k, tsCall, ts);
      assert Holds(f', replies', k, snap.last[k], Lookup(snap.store, k), ts);
    }
  }

  lemma IssueKeepsLocs(f: Fuzz, replies: seq<Option<Resp>>, c: nat, call: Call)
    requires Dims(f, replies) && Enabled(f, Called(c, call))
    ensures KeepsLocs(f, replies, Step(f, Called(c, call), false), replies)
  {
  }

  lemma ExecuteKeepsLocs(f: Fuzz, replies: seq<Option<Resp>>, c: nat, resp: Resp)
    requires Dims(f, replies) && c < |replies| && replies[c].None?
    ensures KeepsLocs(f, replies, f, replies[c := Some(resp)])
  {
  }

  /** A collection before the queue is drained. */
  function Collected(f: Fuzz, c: nat, resp: Resp): (f': Fuzz)
    requires Shaped(f.hist, |f.flights|) && c < |f.flights| && f.flights[c].Flying?
    ensures Shaped(f'.hist, |f'.flights|) && |f'.flights| == |f.flights|
  {
    var f1 := Handed(f, c, resp);
    match UpdateInfo(f.flights[c].call)
    case Some((k, v)) =>
      if k in f1.hist.spans
      then f1.(hist := Record(f1.hist, c, k, Span(f.flights[c].tsCall, f1.now, v)))
      else f1
    case None => f1
  }

  lemma CollectKeepsLocs(f: Fuzz, replies: seq<Option<Resp>>, c: nat)
    requires Dims(f, replies) && c < |replies| && replies[c].Some? && f.flights[c].Flying?
    ensures KeepsLocs(f, replies, Collected(f, c, replies[c].value), replies[c := None])
  {
    var f' := Collected(f, c, replies[c].value);
    forall k, l, v, ts: nat | k in f.hist.spans && Holds(f, replies, k, l, v, ts)
      ensures Holds(f', replies[c := None], k, l, v, ts)
    {
    }
    forall k, b, i: nat, ts: nat | k in f.hist.spans && 0 <= b < |f.flights| && ts <= f.now && LaterEndAfter(f.hist.spans[k][b], i, ts)
      ensures LaterEndAfter(f'.hist.spans[k][b], i, ts)
    {
    }
  }

  lemma KeepsQueue(f: Fuzz, replies: seq<Option<Resp>>, f': Fuzz, replies': seq<Option<Resp>>, e: Entry, snap: Snapshot)
    requires Dims(f, replies) && Dims(f', replies') && KeepsLocs(f, replies, f', replies')
    requires QueueSeen(f, replies, e, snap) && e.tsCall <= f.now
    ensures QueueSeen(f', replies', e, snap)
  {
    KeepsSeen(f, replies, f', replies', snap, e.tsCall, e.tsResp - 1, e.tsResp - 1);
  }

  lemma KeepsFlight(f: Fuzz, replies: seq<Option<Resp>>, f': Fuzz, replies': seq<Option<Resp>>, c: nat, snap: Snapshot)
    requires Inv(f) && Dims(f, replies) && Dims(f', replies') && KeepsLocs(f, replies, f', replies')
    requires c < |f.flights| == |f'.flights| && f'.flights[c] == f.flights[c] && replies'[c] == replies[c]
    requires FlightSeen(f, replies, c, snap)
    ensures FlightSeen(f', replies', c, snap)
  {
    if replies[c].Some? {
      assert FlightOk(f.flights[c], f.hist.maxtr[c], f.now);
      KeepsSeen(f, replies, f', replies', snap, f.flights[c].tsCall, f.now, f'.now);
    }
  }

  lemma IssueLinked(f: Fuzz, replies: seq<Option<Resp>>, store: Store, a: Aux, c: nat, call: Call)
    requires Inv(f) && Dims(f, replies) && Enabled(f, Called(c, call)) && Linked(f, replies, store, a)
    ensures Linked(Step(f, Called(c, call), false), replies, store, a)
  {
    var f' := Step(f, Called(c, call), false);
    IssueKeepsLocs(f, replies, c, call);
    assert FlightSeen(f, replies, c, a.flying[c]);
    forall k | k in f'.hist.spans
      ensures CurrentKey(f', replies, store, a.last, k)
    {
      assert CurrentKey(f, replies, store, a.last, k);
    }
    forall b | 0 <= b < |f.flights|
      ensures FlightSeen(f', replies, b, a.flying[b])
    {
      if b != c {
        KeepsFlight(f, replies, f', replies, b, a.flying[b]);
      }
    }
    forall i | 0 <= i < |a.queued|
      ensures QueueSeen(f', replies, f'.hist.queue[i], a.queued[i])
    {
      KeepsQueue(f, replies, f', replies, f.hist.queue[i], a.queued[i]);
    }
  }

  /** The last writers after executing `call` for client `c`. */
  function LastAfter(f: Fuzz, c: nat, call: Call, last: map<Key, Loc>): map<Key, Loc>
    requires Shaped(f.hist, |f.flights|) && c < |f.flights|
  {
    match UpdateInfo(call)
    case Some((k, _)) => if k in f.hist.spans then last[k := Loc(c, |f.hist.spans[k][c]|)] else last
    case None => last
  }

  lemma ExecuteCurrent(f: Fuzz, replies: seq<Option<Resp>>, store: Store, last: map<Key, Loc>, c: nat,
                       store': Store, resp: Resp, k: Key)
    requires Dims(f, replies) && c < |replies| && replies[c].None?
    requires f.flights[c].Flying? && f.flights[c].tsCall <= f.now && Serves(store, f.flights[c].call, store', resp)
    requires k in f.hist.spans && CurrentKey(f, replies, store, last, k)
    ensures CurrentKey(f, replies[c := Some(resp)], store', LastAfter(f, c, f.flights[c].call, last), k)
  {
  }

  lemma InPool(keys: seq<seq<Key>>, c: nat, k: Key)
    requires c < |keys| && k in keys[c]
    ensures k in PoolKeys(keys)
  {
    var j :| 0 <= j < |keys[c]| && keys[c][j] == k;
  }

  lemma CallInPool(keys: seq<seq<Key>>, c: nat, call: Call)
    requires c < |keys| && GoodCall(call, keys[c])
    ensures !call.Stop? && (!call.Scan? ==> call.key in PoolKeys(keys))
  {
    if !call.Scan? {
      InPool(keys, c, call.key);
    }
  }

  lemma ExecuteStoreKeys(f: Fuzz, store: Store, c: nat, store': Store, resp: Resp, keys: seq<seq<Key>>)
    requires CallsGood(f, keys) && c < |f.flights| && f.flights[c].Flying?
    requires store.Keys <= f.hist.spans.Keys && Serves(store, f.flights[c].call, store', resp)
    ensures store'.Keys <= f.hist.spans.Keys
    ensures Fits(resp, store, f.hist.spans.Keys)
  {
    CallInPool(keys, c, f.flights[c].call);
  }

  /** The snapshot of an executed call: nothing was written after the last writer. */
  lemma SnapshotSeen(f: Fuzz, replies: seq<Option<Resp>>, store: Store, last: map<Key, Loc>, tsCall: nat)
    requires Dims(f, replies) && Current(f, replies, store, last)
    ensures Seen(f, replies, Snapshot(store, last), tsCall, f.now)
  {
    forall k | k in f.hist.spans
      ensures KeySeen(f, replies, Snapshot(store, last), k, tsCall, f.now)
    {
      assert CurrentKey(f, replies, store, last, k);
    }
  }

  lemma ExecuteLinked(f: Fuzz, replies: seq<Option<Resp>>, store: Store, a: Aux, c: nat,
                      store': Store, resp: Resp, keys: seq<seq<Key>>) returns (a': Aux)
    requires Inv(f) && Dims(f, replies) && CallsGood(f, keys) && c < |replies| && replies[c].None?
    requires f.flights[c].Flying? && Serves(store, f.flights[c].call, store', resp) && Linked(f, replies, store, a)
    ensures a'.full == a.full && Linked(f, replies[c := Some(resp)], store', a')
  {
    var replies' := replies[c := Some(resp)];
    var snap := Snapshot(store, a.last);
    a' := a.(last := LastAfter(f, c, f.flights[c].call, a.last), flying := a.flying[c := snap]);
    ExecuteKeepsLocs(f, replies, c, resp);
    ExecuteStoreKeys(f, store, c, store', resp, keys);
    assert FlightOk(f.flights[c], f.hist.maxtr[c], f.now);
    forall k | k in f.hist.spans
      ensures CurrentKey(f, replies', store', a'.last, k)
    {
      ExecuteCurrent(f, replies, store, a.last, c, store', resp, k);
    }
    forall b | 0 <= b < |f.flights|
      ensures FlightSeen(f, replies', b, a'.flying[b])
    {
      if b == c {
        SnapshotSeen(f, replies, store, a.last, f.flights[c].tsCall);
        KeepsSeen(f, replies, f, replies', snap, f.flights[c].tsCall, f.now, f.now);
      } else {
        KeepsFlight(f, replies, f, replies', b, a.flying[b]);
      }
    }
    forall i | 0 <= i < |a.queued|
      ensures QueueSeen(f, replies', f.hist.queue[i], a'.queued[i])
    {
      KeepsQueue(f, replies, f, replies', f.hist.queue[i], a.queued[i]);
    }
  }

  lemma CollectCurrent(f: Fuzz, replies: seq<Option<Resp>>, store: Store, last: map<Key, Loc>, c: nat, k: Key)
    requires Dims(f, replies) && c < |replies| && replies[c].Some? && f.flights[c].Flying?
    requires k in f.hist.spans && CurrentKey(f, replies, store, last, k)
    ensures CurrentKey(Collected(f, c, replies[c].value), replies[c := None], store, last, k)
  {
  }

  lemma CollectLinked(f: Fuzz, replies: seq<Option<Resp>>, store: Store, a: Aux, c: nat) returns (a': Aux)
    requires Inv(f) && Dims(f, replies) && c < |replies| && replies[c].Some? && f.flights[c].Flying?
    requires Linked(f, replies, store, a)
    ensures a'.full == a.full && Linked(Collected(f, c, replies[c].value), replies[c := None], store, a')
  {
    var f', replies' := Collected(f, c, replies[c].value), replies[c := None];
    a' := a.(queued := a.queued + [a.flying[c]]);
    CollectKeepsLocs(f, replies, c);
    forall k | k in f'.hist.spans
      ensures CurrentKey(f', replies', store, a'.last, k)
    {
      CollectCurrent(f, replies, store, a.last, c, k);
    }
    forall b | 0 <= b < |f.flights|
      ensures FlightSeen(f', replies', b, a'.flying[b])
    {
      if b != c {
        KeepsFlight(f, replies, f', replies', b, a.flying[b]);
      }
    }
    forall i | 0 <= i < |a'.queued|
      ensures QueueSeen(f', replies', f'.hist.queue[i], a'.queued[i])
    {
      if i < |a.queued| {
        KeepsQueue(f, replies, f', replies', f.hist.queue[i], a.queued[i]);
      } else {
        assert FlightSeen(f, replies, c, a.flying[c]) && FlightOk(f.flights[c], f.hist.maxtr[c], f.now);
        KeepsSeen(f, replies, f', replies', a.flying[c], f.flights[c].tsCall, f.now, f.now);
      }
    }
  }

  lemma PopLinked(f: Fuzz, replies: seq<Option<Resp>>, store: Store, a: Aux, h: Hist, out: Outcome, m: nat)
    returns (a': Aux)
    requires Inv(f) && Dims(f, replies) && Linked(f, replies, store, a)
    requires Popped(f.hist, MinOf(f.hist.maxtr), h, out, m)
    ensures out.Fine? && a'.full == a.full && Linked(f.(hist := h, outcome := Fine), replies, store, a')
  {
    if m > 0 {
      SeenPasses(f, replies, f.hist.queue[m - 1], a.queued[m - 1]);
    }
    a' := a.(queued := a.queued[m..]);
    var f' := f.(hist := h, outcome := Fine);
    DrainKeepsLocs(f, replies, f');
    forall k | k in f.hist.spans
      ensures CurrentKey(f', replies, store, a.last, k)
    {
      assert CurrentKey(f, replies, store, a.last, k);
    }
    forall c | 0 <= c < |f.flights|
      ensures FlightSeen(f', replies, c, a.flying[c])
    {
      KeepsFlight(f, replies, f', replies, c, a.flying[c]);
    }
    forall i | 0 <= i < |a'.queued|
      ensures QueueSeen(f', replies, f'.hist.queue[i], a'.queued[i])
    {
      KeepsQueue(f, replies, f', replies, f.hist.queue[m + i], a.queued[m + i]);
    }
  }

  lemma DrainLinked(f: Fuzz, replies: seq<Option<Resp>>, store: Store, a: Aux) returns (a': Aux)
    requires Inv(f) && Dims(f, replies) && Linked(f, replies, store, a)
    ensures var (h, out) := Drain(f.hist, MinOf(f.hist.maxtr));
      && out.Fine?
      && a'.full == a.full
      && Linked(f.(hist := h, outcome := Fine), replies, store, a')
  {
    var m := DrainPops(f.hist, MinOf(f.hist.maxtr));
    var (h, out) := Drain(f.hist, MinOf(f.hist.maxtr));
    a' := PopLinked(f, replies, store, a, h, out, m);
  }

  lemma DrainKeepsLocs(f: Fuzz, replies: seq<Option<Resp>>, f': Fuzz)
    requires Dims(f, replies) && Dims(f', replies)
    requires f'.hist.spans == f.hist.spans && f'.flights == f.flights && f'.now == f.now
    ensures KeepsLocs(f, replies, f', replies)
  {
  }

  lemma CollectedInv(f: Fuzz, c: nat, resp: Resp)
    requires Inv(f) && c < |f.flights| && f.flights[c].Flying?
    ensures Inv(Collected(f, c, resp))
  {
    HandedInv(f, c, resp);
    assert FlightOk(f.flights[c], f.hist.maxtr[c], f.now);
    match UpdateInfo(f.flights[c].call) {
      case None =>
      case Some((k, v)) =>
        if k in f.hist.spans {
          RecordInv(Handed(f, c, resp), c, k, Span(f.flights[c].tsCall, f.now + 1, v));
        }
    }
  }

  lemma HarvestReads(f: Fuzz, c: nat, resp: Resp)
    requires Shaped(f.hist, |f.flights|) && f.outcome.Fine? && c < |f.flights| && f.flights[c].Flying?
    requires UpdateInfo(f.flights[c].call).None?
    ensures Harvest(f, c, resp, false) == Collected(f, c, resp)
  {
  }

  lemma HarvestWrites(f: Fuzz, c: nat, resp: Resp)
    requires Shaped(f.hist, |f.flights|) && c < |f.flights| && f.flights[c].Flying?
    requires UpdateInfo(f.flights[c].call).Some? && UpdateInfo(f.flights[c].call).value.0 in f.hist.spans
    ensures var f1 := Collected(f, c, resp);
      var (h, out) := Drain(f1.hist, MinOf(f1.hist.maxtr));
      Harvest(f, c, resp, false) == f1.(hist := h, outcome := out)
  {
    var (k, v) := UpdateInfo(f.flights[c].call).value;
    HarvestIs(f, c, resp, k, v);
  }

  /** A collection of an atomic server's response, drained: no alarm. */
  lemma HarvestLinked(f: Fuzz, replies: seq<Option<Resp>>, store: Store, a: Aux, c: nat, keys: seq<seq<Key>>)
    returns (a': Aux)
    requires Inv(f) && f.outcome.Fine? && Dims(f, replies) && CallsGood(f, keys) && Linked(f, replies, store, a)
    requires c < |replies| && replies[c].Some? && f.flights[c].Flying?
    ensures var f' := Harvest(f, c, replies[c].value, false);
      && f'.outcome.Fine?
      && Dims(f', replies[c := None])
      && f'.hist.spans.Keys == f.hist.spans.Keys
      && Linked(f', replies[c := None], store, a')
  {
    var resp := replies[c].value;
    var f1 := Collected(f, c, resp);
    var b := CollectLinked(f, replies, store, a, c);
    CallInPool(keys, c, f.flights[c].call);
    if UpdateInfo(f.flights[c].call).None? {
      HarvestReads(f, c, resp);
      a' := b;
    } else {
      HarvestWrites(f, c, resp);
      CollectedInv(f, c, resp);
      a' := DrainLinked(f1, replies[c := None], store, b);
    }
  }

  lemma IssueInv(s: Sys, c: nat, call: Call, s': Sys, keys: seq<seq<Key>>, a: Aux) returns (a': Aux)
    requires |keys| > 0 && SysInv(s, keys, a) && SysShaped(s, |keys|) && SysNext(s, Issue(c, call), s', keys)
    ensures SysShaped(s', |keys|) && SysInv(s', keys, a')
  {
    StepSim(s.fuzz, a.full, Called(c, call));
    IssueLinked(a.full, s.replies, s.store, a, c, call);
    a' := a.(full := Step(a.full, Called(c, call), false));
  }

  lemma CollectInv(s: Sys, c: nat, s': Sys, keys: seq<seq<Key>>, a: Aux) returns (a': Aux)
    requires |keys| > 0 && SysInv(s, keys, a) && SysShaped(s, |keys|) && SysNext(s, Collect(c), s', keys)
    ensures SysShaped(s', |keys|) && SysInv(s', keys, a')
  {
    var resp := s.replies[c].value;
    assert FlightSeen(a.full, s.replies, c, a.flying[c]);
    StepSim(s.fuzz, a.full, Harvested(c, resp));
    var b := HarvestLinked(a.full, s.replies, s.store, a, c, keys);
    a' := b.(full := Harvest(a.full, c, resp, false));
  }

  lemma StepLinked(s: Sys, ev: SysEvent, s': Sys, keys: seq<seq<Key>>, a: Aux) returns (a': Aux)
    requires |keys| > 0 && SysInv(s, keys, a) && SysShaped(s, |keys|) && SysNext(s, ev, s', keys)
    ensures SysShaped(s', |keys|) && SysInv(s', keys, a')
  {
    match ev
    case Issue(c, call) => a' := IssueInv(s, c, call, s', keys, a);
    case Execute(c) =>
      a' := ExecuteLinked(a.full, s.replies, s.store, a, c, s'.store, s'.replies[c].value, keys);
    case Collect(c) => a' := CollectInv(s, c, s', keys, a);
  }

  lemma StartLinked(s: Sys, keys: seq<seq<Key>>) returns (a: Aux)
    requires |keys| > 0 && SysStart(s, keys)
    ensures SysShaped(s, |keys|) && SysInv(s, keys, a)
  {
    var last := map k | k in PoolKeys(keys) :: Loc(0, 0);
    a := Aux(s.fuzz, last, seq(|keys|, _ => Snapshot(map[], last)), []);
    StartSim(|keys|, keys);
    forall k | k in s.fuzz.hist.spans
      ensures CurrentKey(s.fuzz, s.replies, s.store, last, k)
    {
    }
  }

  lemma {:induction false} RunLinked(ss: seq<Sys>, evs: seq<SysEvent>, keys: seq<seq<Key>>, i: nat) returns (a: Aux)
    requires |keys| > 0 && SysRun(ss, evs, keys) && i < |ss|
    ensures SysShaped(ss[i], |keys|) && SysInv(ss[i], keys, a)
    decreases i
  {
    if i == 0 {
      a := StartLinked(ss[0], keys);
    } else {
      var b := RunLinked(ss, evs, keys, i - 1);
      a := StepLinked(ss[i - 1], evs[i - 1], ss[i], keys, b);
    }
  }

  /** No false alarms: for every number of clients, key pools and interleaving of
      issue, atomic execution and collection from an empty store, no state of the
      run carries an alarm of any kind. */
  lemma NoAlarmEver(ss: seq<Sys>, evs: seq<SysEvent>, keys: seq<seq<Key>>)
    requires |keys| > 0 && SysRun(ss, evs, keys)
    ensures forall i | 0 <= i < |ss| :: ss[i].fuzz.outcome.Fine?
  {
    forall i | 0 <= i < |ss|
      ensures ss[i].fuzz.outcome.Fine?
    {
      var a := RunLinked(ss, evs, keys, i);
    }
  }
}
