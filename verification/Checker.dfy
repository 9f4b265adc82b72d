/** The fuzzer's online consistency checker (`History`). The class works on its
    three fields in place; the functions above it give the value each method
    computes, and `Passes` says declaratively what a check decides. */
module Checker {
  import opened Kv

  /** An acknowledged update of one key by one client. */
  datatype Span = Span(tsCall: nat, tsResp: nat, value: Option<Value>)

  /** A response waiting in the check queue. */
  datatype Entry = Entry(tsCall: nat, tsResp: nat, resp: Resp)

  /** What a response reports about a key: only presence, or the exact value. */
  datatype Want = Presence(found: bool) | Exactly(value: Option<Value>)

  type Deques = seq<seq<Span>>
  type Spans = map<Key, Deques>

  datatype Hist = Hist(queue: seq<Entry>, spans: Spans, maxtr: seq<nat>)

  datatype Outcome = Fine | UnexpectedStop | UnknownKey | Violation(resp: Resp)

  // ----- what a check decides -----

  predicate Matches(v: Option<Value>, want: Want) {
    match want
    case Presence(found) => v.Some? == found
    case Exactly(value) => v == value
  }

  /** Span `i` carries the wanted value, was called before the response, and no
      later span of the same client had already finished when the call was made. */
  predicate Hits(d: seq<Span>, i: nat, tsCall: nat, tsResp: nat, want: Want)
    requires i < |d|
  {
    && d[i].tsCall < tsResp
    && Matches(d[i].value, want)
    && forall j | i < j < |d| :: tsCall <= d[j].tsResp
  }

  predicate Explained(d: seq<Span>, tsCall: nat, tsResp: nat, want: Want) {
    exists i | 0 <= i < |d| :: Hits(d, i, tsCall, tsResp, want)
  }

  predicate KeyExplained(ds: Deques, tsCall: nat, tsResp: nat, want: Want) {
    exists c | 0 <= c < |ds| :: Explained(ds[c], tsCall, tsResp, want)
  }

  /** The presence checks written out, for any number of clients. */
  lemma PresenceExplained(ds: Deques, tsCall: nat, tsResp: nat, found: bool)
    ensures KeyExplained(ds, tsCall, tsResp, Presence(found)) <==>
      exists c, i | 0 <= c < |ds| && 0 <= i < |ds[c]| ::
        && ds[c][i].tsCall < tsResp
        && (if found then ds[c][i].value.Some? else ds[c][i].value.None?)
        && forall j | i < j < |ds[c]| :: tsCall <= ds[c][j].tsResp
  {
    if c :| 0 <= c < |ds| && Explained(ds[c], tsCall, tsResp, Presence(found)) {
      var i :| 0 <= i < |ds[c]| && Hits(ds[c], i, tsCall, tsResp, Presence(found));
      assert ds[c][i].tsCall < tsResp;
    }
    forall c, i | 0 <= c < |ds| && 0 <= i < |ds[c]|
      ensures
        && ds[c][i].tsCall < tsResp
        && (if found then ds[c][i].value.Some? else ds[c][i].value.None?)
        && (forall j | i < j < |ds[c]| :: tsCall <= ds[c][j].tsResp)
        ==> KeyExplained(ds, tsCall, tsResp, Presence(found))
    {
      if Hits(ds[c], i, tsCall, tsResp, Presence(found)) {
        assert Explained(ds[c], tsCall, tsResp, Presence(found));
      }
    }
  }

  predicate NoDuplicates(entries: seq<(Key, Value)>) {
    forall i, j | 0 <= i < j < |entries| :: entries[i].0 != entries[j].0
  }

  predicate AllInRange(entries: seq<(Key, Value)>, first: Key, last: Key) {
    forall i | 0 <= i < |entries| :: !KeyLess(entries[i].0, first) && !KeyLess(last, entries[i].0)
  }

  function EntriesMap(entries: seq<(Key, Value)>): map<Key, Value> {
    if entries == [] then map[]
    else EntriesMap(entries[..|entries| - 1])[entries[|entries| - 1].0 := entries[|entries| - 1].1]
  }

  lemma {:induction false} EntriesMapIs(entries: seq<(Key, Value)>)
    requires NoDuplicates(entries)
    ensures forall k, v :: Lookup(EntriesMap(entries), k) == Some(v) <==> (k, v) in entries
  {
    if entries != [] {
      var n := |entries| - 1;
      EntriesMapIs(entries[..n]);
      assert entries == entries[..n] + [entries[n]];
      forall k, v | (k, v) in entries[..n]
        ensures k != entries[n].0
      {
        var i :| 0 <= i < n && entries[i] == (k, v);
      }
    }
  }

  predicate InScan(k: Key, first: Key, last: Key) {
    !KeyLess(k, first) && !KeyLess(last, k)
  }

  predicate ScanKeyPasses(spans: Spans, k: Key, e: Entry)
    requires e.resp.ScanResp? && k in spans
  {
    InScan(k, e.resp.first, e.resp.last) ==>
      KeyExplained(spans[k], e.tsCall, e.tsResp, Exactly(Lookup(EntriesMap(e.resp.entries), k)))
  }

  predicate KeyPasses(spans: Spans, k: Key, e: Entry, want: Want) {
    k in spans && KeyExplained(spans[k], e.tsCall, e.tsResp, want)
  }

  /** The verdict on a response, given an update history. */
  predicate Passes(spans: Spans, e: Entry) {
    match e.resp
    case PutResp(k, found) => KeyPasses(spans, k, e, Presence(found))
    case SwapResp(k, oldValue) => KeyPasses(spans, k, e, Exactly(oldValue))
    case GetResp(k, value) => KeyPasses(spans, k, e, Exactly(value))
    case DeleteResp(k, found) => KeyPasses(spans, k, e, Presence(found))
    case ScanResp(first, last, entries) =>
      && AllInRange(entries, first, last)
      && NoDuplicates(entries)
      && forall k | k in spans :: ScanKeyPasses(spans, k, e)
    case StopResp => false
  }

  // ----- what an update does to the checker -----

  function MinOf(s: seq<nat>): (m: nat)
    requires |s| > 0
    ensures m in s && forall i | 0 <= i < |s| :: m <= s[i]
  {
    if |s| == 1 then s[0]
    else
      var m := MinOf(s[..|s| - 1]);
      if s[|s| - 1] < m then s[|s| - 1] else m
  }

  /** The least call timestamp queued; the largest 64-bit number stands for none. */
  function MinQueued(queue: seq<Entry>): (m: nat)
    ensures forall i | 0 <= i < |queue| :: m <= queue[i].tsCall
    ensures queue == [] ==> m == 0xFFFF_FFFF_FFFF_FFFF
    ensures queue != [] ==> exists i | 0 <= i < |queue| :: m == queue[i].tsCall
  {
    if queue == [] then 0xFFFF_FFFF_FFFF_FFFF
    else
      var last := queue[|queue| - 1].tsCall;
      if |queue| == 1 then last
      else
        var m := MinQueued(queue[..|queue| - 1]);
        if last < m then last else m
  }

  predicate Old(s: Span, minComing: nat, minQueued: nat) {
    s.tsResp < minComing && s.tsResp < minQueued
  }

  /** Call timestamp of the latest span older than both bounds, 0 if there is none. */
  function KeepTs(d: seq<Span>, minComing: nat, minQueued: nat): nat {
    if d == [] then 0
    else if Old(d[|d| - 1], minComing, minQueued) then d[|d| - 1].tsCall
    else KeepTs(d[..|d| - 1], minComing, minQueued)
  }

  function DropOlder(d: seq<Span>, keepTs: nat): seq<Span> {
    if |d| > 1 && d[0].tsResp < keepTs then DropOlder(d[1..], keepTs) else d
  }

  function Trim(d: seq<Span>, minComing: nat, minQueued: nat): seq<Span> {
    DropOlder(d, KeepTs(d, minComing, minQueued))
  }

  function TrimAll(ds: Deques, minComing: nat, minQueued: nat): Deques {
    seq(|ds|, c requires 0 <= c < |ds| => Trim(ds[c], minComing, minQueued))
  }

  predicate Shaped(h: Hist, n: nat) {
    && |h.maxtr| == n > 0
    && forall k | k in h.spans :: |h.spans[k]| == n
  }

  function NewDeques(n: nat): Deques {
    seq(n, _ => [Span(0, 0, None)])
  }

  function PoolKeys(keys: seq<seq<Key>>): set<Key> {
    set i, j | 0 <= i < |keys| && 0 <= j < |keys[i]| :: keys[i][j]
  }

  function NewHist(n: nat, keys: seq<seq<Key>>): Hist {
    Hist([], map k | k in PoolKeys(keys) :: NewDeques(n), seq(n, _ => 0))
  }

  function Enqueue(h: Hist, e: Entry): Hist {
    h.(queue := h.queue + [e])
  }

  function Record(h: Hist, c: nat, k: Key, s: Span): Hist
    requires k in h.spans && c < |h.spans[k]| && c < |h.maxtr|
  {
    var ds := h.spans[k];
    h.(spans := h.spans[k := ds[c := ds[c] + [s]]], maxtr := h.maxtr[c := s.tsResp])
  }

  function TrimKey(h: Hist, k: Key): Hist
    requires k in h.spans && |h.maxtr| > 0
  {
    h.(spans := h.spans[k := TrimAll(h.spans[k], MinOf(h.maxtr), MinQueued(h.queue))])
  }

  /** Pops and checks queued responses older than `bound`, stopping at the first that fails. */
  function Drain(h: Hist, bound: nat): (r: (Hist, Outcome))
    ensures r.0.spans == h.spans && r.0.maxtr == h.maxtr
    decreases |h.queue|
  {
    if h.queue == [] || bound <= h.queue[0].tsResp then (h, Fine)
    else
      var h' := h.(queue := h.queue[1..]);
      if Passes(h.spans, h.queue[0]) then Drain(h', bound) else (h', Violation(h.queue[0].resp))
  }

  /** The whole of `apply_update`; `trim` false gives the checker that never discards a span. */
  function Apply(h: Hist, c: nat, k: Key, s: Span, trim: bool): (r: (Hist, Outcome))
    requires Shaped(h, |h.maxtr|) && c < |h.maxtr|
    ensures Shaped(r.0, |h.maxtr|)
  {
    if k !in h.spans then (h, UnknownKey)
    else
      var h1 := Record(h, c, k, s);
      var h2 := if trim then TrimKey(h1, k) else h1;
      Drain(h2, MinOf(h2.maxtr))
  }

  // ----- the class -----

  class History {
    var queue: seq<Entry>
    var spans: Spans
    var maxtr: seq<nat>

    function State(): Hist
      reads this
    {
      Hist(queue, spans, maxtr)
    }

    constructor (numClis: nat, keys: seq<seq<Key>>)
      ensures State() == NewHist(numClis, keys)
      ensures forall k :: k in spans <==> exists i, j | 0 <= i < |keys| && 0 <= j < |keys[i]| :: keys[i][j] == k
      ensures forall k, c | k in spans && 0 <= c < numClis :: |spans[k]| == numClis && spans[k][c] == [Span(0, 0, None)]
      ensures queue == [] && |maxtr| == numClis && forall c | 0 <= c < numClis :: maxtr[c] == 0
    {
      var m: Spans := map[];
      for i := 0 to |keys|
        invariant m == map k | k in PoolKeys(keys[..i]) :: NewDeques(numClis)
      {
        assert PoolKeys(keys[..i] + [keys[i][..0]]) == PoolKeys(keys[..i]) by {
          PoolNoGrowth(keys[..i]);
        }
        for j := 0 to |keys[i]|
          invariant m == map k | k in PoolKeys(keys[..i] + [keys[i][..j]]) :: NewDeques(numClis)
        {
          assert PoolKeys(keys[..i] + [keys[i][..j + 1]]) == PoolKeys(keys[..i] + [keys[i][..j]]) + {keys[i][j]} by {
            PoolGrows(keys, i, j);
          }
          if keys[i][j] !in m {
            m := m[keys[i][j] := NewDeques(numClis)];
          }
        }
        assert keys[i][..|keys[i]|] == keys[i];
        assert keys[..i] + [keys[i]] == keys[..i + 1];
      }
      assert keys[..|keys|] == keys;
      queue := [];
      spans := m;
      maxtr := seq(numClis, _ => 0);
    }

    method AddToQueue(tsCall: nat, tsResp: nat, resp: Resp)
      requires tsCall < tsResp
      requires queue != [] ==> queue[|queue| - 1].tsResp < tsResp
      modifies this
      ensures State() == Enqueue(old(State()), Entry(tsCall, tsResp, resp))
    {
      queue := queue + [Entry(tsCall, tsResp, resp)];
    }

    method QueueLen() returns (n: nat)
      ensures n == |queue|
    {
      n := |queue|;
    }

    method ApplyUpdate(cidx: nat, tsCall: nat, tsResp: nat, key: Key, value: Option<Value>) returns (out: Outcome)
      requires Shaped(State(), |maxtr|) && cidx < |maxtr|
      requires key in spans ==> spans[key][cidx] == [] || spans[key][cidx][|spans[key][cidx]| - 1].tsResp < tsCall
      modifies this
      ensures (State(), out) == Apply(old(State()), cidx, key, Span(tsCall, tsResp, value), true)
    {
      if key !in spans {
        return UnknownKey;
      }
      var keySpans := spans[key];
      keySpans := keySpans[cidx := keySpans[cidx] + [Span(tsCall, tsResp, value)]];
      maxtr := maxtr[cidx := tsResp];
      var minComing := MinOf(maxtr);
      var minQueued := MinQueued(queue);
      ghost var pushed := keySpans;

      for c := 0 to |keySpans|
        invariant queue == old(queue) && spans == old(spans) && maxtr == old(maxtr)[cidx := tsResp]
        invariant |keySpans| == |pushed|
        invariant forall i | 0 <= i < c :: keySpans[i] == Trim(pushed[i], minComing, minQueued)
        invariant forall i | c <= i < |pushed| :: keySpans[i] == pushed[i]
      {
        var d := TrimLoop(keySpans[c], minComing, minQueued);
        keySpans := keySpans[c := d];
      }
      assert keySpans == TrimAll(pushed, minComing, minQueued);
      spans := spans[key := keySpans];

      ghost var start := State();
      assert spans == old(spans)[key := pushed][key := keySpans];
      assert start == TrimKey(Record(old(State()), cidx, key, Span(tsCall, tsResp, value)), key);
      while queue != [] && queue[0].tsResp < minComing
        invariant spans == start.spans && maxtr == start.maxtr
        invariant Drain(State(), minComing) == Drain(start, minComing)
        decreases |queue|
      {
        var entry := queue[0];
        queue := queue[1..];
        var ok := CheckCall(entry);
        if !ok {
          return Violation(entry.resp);
        }
      }
      return Fine;
    }

    method CheckCall(e: Entry) returns (ok: bool)
      ensures ok == Passes(spans, e)
    {
      match e.resp
      case PutResp(k, found) => ok := CheckKey(k, e, Presence(found));
      case SwapResp(k, oldValue) => ok := CheckKey(k, e, Exactly(oldValue));
      case GetResp(k, value) => ok := CheckKey(k, e, Exactly(value));
      case DeleteResp(k, found) => ok := CheckKey(k, e, Presence(found));
      case ScanResp(_, _, _) => ok := CheckScan(spans, e);
      case StopResp => ok := false;
    }

    method CheckKey(k: Key, e: Entry, want: Want) returns (ok: bool)
      ensures ok == KeyPasses(spans, k, e, want)
    {
      if k in spans {
        ok := CheckSpans(spans[k], e.tsCall, e.tsResp, want);
      } else {
        ok := false;
      }
    }
  }

  lemma PoolNoGrowth(keys: seq<seq<Key>>)
    ensures PoolKeys(keys + [[]]) == PoolKeys(keys)
  {
    var b := keys + [[]];
    forall k | k in PoolKeys(keys)
      ensures k in PoolKeys(b)
    {
      var x, y :| 0 <= x < |keys| && 0 <= y < |keys[x]| && keys[x][y] == k;
      assert b[x][y] == k;
    }
  }

  lemma PoolGrows(keys: seq<seq<Key>>, i: nat, j: nat)
    requires i < |keys| && j < |keys[i]|
    ensures PoolKeys(keys[..i] + [keys[i][..j + 1]]) == PoolKeys(keys[..i] + [keys[i][..j]]) + {keys[i][j]}
  {
    var a, b := keys[..i] + [keys[i][..j]], keys[..i] + [keys[i][..j + 1]];
    forall k | k in PoolKeys(b)
      ensures k in PoolKeys(a) + {keys[i][j]}
    {
      var x, y :| 0 <= x < |b| && 0 <= y < |b[x]| && b[x][y] == k;
      if x == i && y == j {
      } else {
        assert a[x][y] == k;
      }
    }
    forall k | k in PoolKeys(a) + {keys[i][j]}
      ensures k in PoolKeys(b)
    {
      if k == keys[i][j] {
        assert b[i][j] == k;
      } else {
        var x, y :| 0 <= x < |a| && 0 <= y < |a[x]| && a[x][y] == k;
        assert b[x][y] == k;
      }
    }
  }

  /** The trimming of one client's deque: find the latest old span, then pop from the front. */
  method TrimLoop(d: seq<Span>, minComing: nat, minQueued: nat) returns (r: seq<Span>)
    ensures r == Trim(d, minComing, minQueued)
  {
    var keepTs := 0;
    var i := |d|;
    assert d[..|d|] == d;
    while i > 0
      invariant 0 <= i <= |d|
      invariant keepTs == 0
      invariant KeepTs(d, minComing, minQueued) == KeepTs(d[..i], minComing, minQueued)
    {
      if Old(d[i - 1], minComing, minQueued) {
        keepTs := d[i - 1].tsCall;
        break;
      }
      assert d[..i][..i - 1] == d[..i - 1];
      i := i - 1;
    }
    r := d;
    while |r| > 1 && r[0].tsResp < keepTs
      invariant DropOlder(r, keepTs) == DropOlder(d, keepTs)
      decreases |r|
    {
      r := r[1..];
    }
  }

  /** check_put, check_swap, check_get and check_delete: newest span first in each
      client's deque, giving up on a deque at a span that ended before the call. */
  method CheckSpans(keySpans: Deques, tsCall: nat, tsResp: nat, want: Want) returns (ok: bool)
    ensures ok == KeyExplained(keySpans, tsCall, tsResp, want)
  {
    for c := 0 to |keySpans|
      invariant forall b | 0 <= b < c :: !Explained(keySpans[b], tsCall, tsResp, want)
    {
      var d := keySpans[c];
      var i := |d|;
      while i > 0
        invariant 0 <= i <= |d|
        invariant forall j | i <= j < |d| :: !Hits(d, j, tsCall, tsResp, want) && tsCall <= d[j].tsResp
      {
        i := i - 1;
        if d[i].tsCall < tsResp && Matches(d[i].value, want) {
          assert Hits(d, i, tsCall, tsResp, want);
          assert Explained(keySpans[c], tsCall, tsResp, want);
          return true;
        }
        if d[i].tsResp < tsCall {
          break;
        }
      }
      assert !Explained(keySpans[c], tsCall, tsResp, want);
    }
    return false;
  }

  /** The first half of check_scan: index the entries, refusing strays and duplicates. */
  method IndexEntries(entries: seq<(Key, Value)>, first: Key, last: Key) returns (ok: bool, entriesMap: map<Key, Value>)
    ensures ok <==> AllInRange(entries, first, last) && NoDuplicates(entries)
    ensures ok ==> entriesMap == EntriesMap(entries)
  {
    entriesMap := map[];
    for i := 0 to |entries|
      invariant entriesMap == EntriesMap(entries[..i])
      invariant forall k :: k in entriesMap <==> exists j | 0 <= j < i :: entries[j].0 == k
      invariant AllInRange(entries[..i], first, last) && NoDuplicates(entries[..i])
    {
      if KeyLess(entries[i].0, first) || KeyLess(last, entries[i].0) {
        return false, entriesMap;
      }
      if entries[i].0 in entriesMap {
        return false, entriesMap;
      }
      entriesMap := entriesMap[entries[i].0 := entries[i].1];
      assert entries[..i + 1][..i] == entries[..i];
    }
    assert entries[..|entries|] == entries;
    ok := true;
  }

  /** check_scan: the reported entries are in range and distinct, and every pool
      key in range, in whatever order the table yields them, has an explanation. */
  method CheckScan(spans: Spans, e: Entry) returns (ok: bool)
    requires e.resp.ScanResp?
    ensures ok == Passes(spans, e)
  {
    var first, last := e.resp.first, e.resp.last;
    var indexed, entriesMap := IndexEntries(e.resp.entries, first, last);
    if !indexed {
      return false;
    }
    var todo := spans.Keys;
    while todo != {}
      invariant todo <= spans.Keys
      invariant forall k | k in spans.Keys - todo :: ScanKeyPasses(spans, k, e)
      decreases todo
    {
      var k :| k in todo;
      if !KeyLess(k, first) && !KeyLess(last, k) {
        var passed := CheckSpans(spans[k], e.tsCall, e.tsResp, Exactly(Lookup(entriesMap, k)));
        if !passed {
          assert !ScanKeyPasses(spans, k, e);
          return false;
        }
      }
      todo := todo - {k};
    }
    return true;
  }
}
