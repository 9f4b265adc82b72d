/** The service under concurrent requests. Each request runs its handler in small
    steps on its own thread, inside one mutex; any number of them interleave in
    any way. Every history of invocations and returns is linearizable. */
module LockedServer {
  import opened Kv
  import opened Server

  /** Where a request is in its handler. */
  datatype Pc =
    | Waiting                                                             // before lock_guard
    | Entered                                                             // lock taken
    | Found(hit: Option<Value>)                                           // after find
    | Written(hit: Option<Value>)                                         // after the map was changed
    | Answered(hit: Option<Value>)                                        // Swap: reply set, map not yet changed
    | Scanning(acc: seq<(Key, Value)>, it: Option<Key>, end: Option<Key>) // in the scan loop
    | Ready(resp: Resp)                                                   // handler done, lock still held
    | Left(resp: Resp)                                                    // lock released
    | Returned(resp: Resp)

  datatype Request = Request(call: Call, pc: Pc)

  datatype Event = Invoke(id: nat, call: Call) | Return(id: nat, resp: Resp)

  datatype State = State(store: Store, owner: Option<nat>, reqs: map<nat, Request>, trace: seq<Event>)

  const INIT: State := State(map[], None, map[], [])

  predicate Servable(call: Call) {
    !call.Stop? && (call.Scan? ==> KeyLeq(call.first, call.last))
  }

  /** One step of a handler that holds the lock. */
  ghost predicate SectionStep(store: Store, call: Call, pc: Pc, store': Store, pc': Pc) {
    match pc
    case Entered =>
      && store' == store
      && if call.Scan? then
           && pc'.Scanning? && pc'.acc == []
           && IsBound(store, call.first, false, pc'.it) && IsBound(store, call.last, true, pc'.end)
         else !call.Stop? && pc' == Found(Lookup(store, call.key))
    case Found(hit) =>
      (match call
       case Put(k, v) => store' == store[k := v] && pc' == Written(hit)
       case Swap(k, v) => store' == store && pc' == Answered(hit)
       case Get(k) => store' == store && pc' == Ready(GetResp(k, hit))
       case Delete(k) =>
         if hit.Some? then store' == store - {k} && pc' == Written(hit)
         else store' == store && pc' == Ready(DeleteResp(k, false))
       case _ => false)
    case Written(hit) =>
      && store' == store
      && (match call
          case Put(k, v) => pc' == Ready(PutResp(k, hit.Some?))
          case Delete(k) => pc' == Ready(DeleteResp(k, true))
          case _ => false)
    case Answered(hit) => call.Swap? && store' == store[call.key := call.value] && pc' == Ready(SwapResp(call.key, hit))
    case Scanning(acc, it, end) =>
      && store' == store && call.Scan?
      && if it == end then pc' == Ready(ScanResp(call.first, call.last, acc))
         else
           && it.Some? && it.value in store
           && pc'.Scanning? && pc'.acc == acc + [(it.value, store[it.value])] && pc'.end == end
           && IsBound(store, it.value, true, pc'.it)
    case _ => false
  }

  ghost predicate Next(s: State, id: nat, s': State) {
    if id !in s.reqs then
      s'.trace != [] && var ev := s'.trace[|s'.trace| - 1];
      && ev.Invoke? && ev.id == id && Servable(ev.call)
      && s' == s.(reqs := s.reqs[id := Request(ev.call, Waiting)], trace := s.trace + [ev])
    else
      var Request(call, pc) := s.reqs[id];
      match pc
      case Waiting => s.owner == None && s' == s.(owner := Some(id), reqs := s.reqs[id := Request(call, Entered)])
      case Ready(resp) => s.owner == Some(id) && s' == s.(owner := None, reqs := s.reqs[id := Request(call, Left(resp))])
      case Left(resp) =>
        s' == s.(reqs := s.reqs[id := Request(call, Returned(resp))], trace := s.trace + [Return(id, resp)])
      case Returned(_) => false
      case _ =>
        && s.owner == Some(id) && id in s'.reqs
        && SectionStep(s.store, call, pc, s'.store, s'.reqs[id].pc)
        && s' == s.(store := s'.store, reqs := s.reqs[id := Request(call, s'.reqs[id].pc)])
  }

  ghost predicate Run(ss: seq<State>, ids: seq<nat>) {
    && |ss| == |ids| + 1 && ss[0] == INIT
    && forall i | 0 <= i < |ids| :: Next(ss[i], ids[i], ss[i + 1])
  }

  // ----- linearizability -----

  datatype Done = Done(id: nat, call: Call, resp: Resp)

  /** Executing `lin` one after the other from the empty store gives exactly these responses. */
  ghost predicate Legal(lin: seq<Done>, stores: seq<Store>) {
    && |stores| == |lin| + 1 && stores[0] == map[]
    && forall i | 0 <= i < |lin| :: Serves(stores[i], lin[i].call, stores[i + 1], lin[i].resp)
  }

  ghost predicate Precedes(trace: seq<Event>, a: nat, b: nat) {
    exists p, q | 0 <= p < q < |trace| :: trace[p].Return? && trace[p].id == a && trace[q].Invoke? && trace[q].id == b
  }

  /** `lin` orders each operation of the trace at most once and every returned one
      with its response, legally, and never against real time. */
  ghost predicate Linearizes(trace: seq<Event>, lin: seq<Done>, stores: seq<Store>) {
    && Legal(lin, stores)
    && (forall i, j | 0 <= i < j < |lin| :: lin[i].id != lin[j].id)
    && (forall i | 0 <= i < |lin| :: Invoke(lin[i].id, lin[i].call) in trace)
    && (forall p | 0 <= p < |trace| && trace[p].Return? ::
          exists i | 0 <= i < |lin| :: lin[i].id == trace[p].id && lin[i].resp == trace[p].resp)
    && (forall i, j | 0 <= i < |lin| && 0 <= j < |lin| && Precedes(trace, lin[i].id, lin[j].id) :: i < j)
  }

  ghost predicate Linearizable(trace: seq<Event>) {
    exists lin, stores :: Linearizes(trace, lin, stores)
  }

  // ----- invariant -----

  predicate InSection(pc: Pc) {
    pc.Entered? || pc.Found? || pc.Written? || pc.Answered? || pc.Scanning? || pc.Ready?
  }

  predicate Finished(pc: Pc) {
    pc.Left? || pc.Returned?
  }

  /** What the lock holder has done to the store it found on entry. */
  ghost predicate Progress(base: Store, store: Store, call: Call, pc: Pc) {
    match pc
    case Entered => store == base
    case Found(hit) => store == base && !call.Scan? && !call.Stop? && hit == Lookup(base, call.key)
    case Written(hit) =>
      (match call
       case Put(k, v) => store == base[k := v] && hit == Lookup(base, k)
       case Delete(k) => store == base - {k} && k in base
       case _ => false)
    case Answered(hit) => store == base && call.Swap? && hit == Lookup(base, call.key)
    case Scanning(acc, it, end) =>
      && store == base && call.Scan?
      && (it.Some? ==> it.value in base && KeyLeq(call.first, it.value))
      && IsBound(base, call.last, true, end) && NotPast(it, end)
      && Listed(base, call.first, call.last, it, acc)
    case Ready(resp) => Serves(base, call, store, resp)
    case _ => false
  }

  /** A handler's step keeps it on the way to serving its call atomically. */
  lemma SectionProgress(base: Store, store: Store, call: Call, pc: Pc, store': Store, pc': Pc)
    requires Servable(call) && Progress(base, store, call, pc) && SectionStep(store, call, pc, store', pc')
    ensures Progress(base, store', call, pc')
  {
    match pc
    case Entered =>
      if call.Scan? {
        ScanStarts(base, call.first, call.last, pc'.it, pc'.end);
      }
    case Found(hit) =>
      if call.Delete? && hit.None? {
        assert base - {call.key} == base;
      }
    case Scanning(acc, it, end) =>
      if it == end {
        ScanEnds(base, call.first, call.last, end, acc);
      } else {
        BeforeEnd(base, call.last, it, end);
        ScanAppends(base, call.first, call.last, it, end, acc, pc'.it);
        KeyOrder();
      }
    case _ =>
  }

  ghost predicate Owned(s: State, base: Store) {
    match s.owner
    case None => s.store == base
    case Some(id) =>
      id in s.reqs && InSection(s.reqs[id].pc) && Progress(base, s.store, s.reqs[id].call, s.reqs[id].pc)
  }

  ghost predicate ReqOk(s: State, lin: seq<Done>, id: nat)
    requires id in s.reqs
  {
    var Request(call, pc) := s.reqs[id];
    && Servable(call)
    && (InSection(pc) ==> s.owner == Some(id))
    && Invoke(id, call) in s.trace
    && (Finished(pc) ==> Done(id, call, pc.resp) in lin)
  }

  ghost predicate LinOk(s: State, d: Done) {
    d.id in s.reqs && s.reqs[d.id].call == d.call && Finished(s.reqs[d.id].pc) && s.reqs[d.id].pc.resp == d.resp
  }

  ghost predicate EventOk(s: State, ev: Event) {
    ev.id in s.reqs && (ev.Return? ==> s.reqs[ev.id].pc == Returned(ev.resp))
  }

  ghost predicate InOrder(trace: seq<Event>, lin: seq<Done>) {
    && (forall i, j | 0 <= i < j < |lin| :: lin[i].id != lin[j].id)
    && (forall i, j | 0 <= i < |lin| && 0 <= j < |lin| && Precedes(trace, lin[i].id, lin[j].id) :: i < j)
  }

  ghost predicate Inv(s: State, lin: seq<Done>, stores: seq<Store>) {
    && Legal(lin, stores)
    && Owned(s, stores[|lin|])
    && (forall id | id in s.reqs :: ReqOk(s, lin, id))
    && (forall i | 0 <= i < |lin| :: LinOk(s, lin[i]))
    && (forall p | 0 <= p < |s.trace| :: EventOk(s, s.trace[p]))
    && InOrder(s.trace, lin)
  }

  lemma PrecedesOld(trace: seq<Event>, ev: Event, a: nat, b: nat)
    requires Precedes(trace + [ev], a, b) && (ev.Invoke? ==> ev.id != b)
    ensures Precedes(trace, a, b)
  {
    var t := trace + [ev];
    var p, q :| 0 <= p < q < |t| && t[p].Return? && t[p].id == a && t[q].Invoke? && t[q].id == b;
    assert trace[p] == t[p] && trace[q] == t[q];
  }

  lemma OrderKept(trace: seq<Event>, ev: Event, lin: seq<Done>)
    requires InOrder(trace, lin) && (ev.Invoke? ==> forall i | 0 <= i < |lin| :: lin[i].id != ev.id)
    ensures InOrder(trace + [ev], lin)
  {
    forall i, j | 0 <= i < |lin| && 0 <= j < |lin| && Precedes(trace + [ev], lin[i].id, lin[j].id)
      ensures i < j
    {
      PrecedesOld(trace, ev, lin[i].id, lin[j].id);
    }
  }

  lemma InvokeInv(s: State, id: nat, s': State, lin: seq<Done>, stores: seq<Store>)
    requires Inv(s, lin, stores) && Next(s, id, s') && id !in s.reqs
    ensures Inv(s', lin, stores)
  {
    var ev := s'.trace[|s'.trace| - 1];
    OrderKept(s.trace, ev, lin);
    forall x | x in s'.reqs ensures ReqOk(s', lin, x) {
      assert x != id ==> ReqOk(s, lin, x);
      assert s'.trace[|s.trace|] == ev;
    }
    forall p | 0 <= p < |s'.trace| ensures EventOk(s', s'.trace[p]) {
      assert p < |s.trace| ==> EventOk(s, s.trace[p]);
    }
  }

  /** The others do not notice that request `id` moved on without changing the order. */
  lemma OthersKept(s: State, id: nat, s': State, lin: seq<Done>)
    requires id in s.reqs && id in s'.reqs && s'.reqs == s.reqs[id := s'.reqs[id]]
    requires s'.owner == s.owner || s.owner == None
    requires s.trace <= s'.trace
    requires forall x | x in s.reqs :: ReqOk(s, lin, x)
    ensures forall x | x in s'.reqs && x != id :: ReqOk(s', lin, x)
  {
    forall x | x in s'.reqs && x != id ensures ReqOk(s', lin, x) {
      assert ReqOk(s, lin, x);
    }
  }

  lemma EventsKept(s: State, id: nat, s': State)
    requires id in s.reqs && id in s'.reqs && !s.reqs[id].pc.Returned? && s'.reqs == s.reqs[id := s'.reqs[id]]
    requires forall p | 0 <= p < |s.trace| :: EventOk(s, s.trace[p])
    ensures forall p | 0 <= p < |s.trace| :: EventOk(s', s.trace[p])
  {
    forall p | 0 <= p < |s.trace| ensures EventOk(s', s.trace[p]) {
      assert EventOk(s, s.trace[p]);
    }
  }

  lemma LinKept(s: State, id: nat, s': State, lin: seq<Done>)
    requires id in s.reqs && id in s'.reqs && s'.reqs == s.reqs[id := s'.reqs[id]] && s'.reqs[id].call == s.reqs[id].call
    requires Finished(s.reqs[id].pc) ==> Finished(s'.reqs[id].pc) && s'.reqs[id].pc.resp == s.reqs[id].pc.resp
    requires forall i | 0 <= i < |lin| :: LinOk(s, lin[i])
    ensures forall i | 0 <= i < |lin| :: LinOk(s', lin[i])
  {
    forall i | 0 <= i < |lin| ensures LinOk(s', lin[i]) {
      assert LinOk(s, lin[i]);
    }
  }

  lemma EventsAppended(s': State, trace: seq<Event>, ev: Event)
    requires s'.trace == trace + [ev] && EventOk(s', ev) && forall p | 0 <= p < |trace| :: EventOk(s', trace[p])
    ensures forall p | 0 <= p < |s'.trace| :: EventOk(s', s'.trace[p])
  {
    forall p | 0 <= p < |s'.trace| ensures EventOk(s', s'.trace[p]) {
      assert p < |trace| ==> s'.trace[p] == trace[p];
    }
  }

  lemma ReturnInv(s: State, id: nat, s': State, lin: seq<Done>, stores: seq<Store>)
    requires Inv(s, lin, stores) && Next(s, id, s') && id in s.reqs && s.reqs[id].pc.Left?
    ensures Inv(s', lin, stores)
  {
    var ev := Return(id, s.reqs[id].pc.resp);
    assert s'.trace == s.trace + [ev] && s'.reqs == s.reqs[id := Request(s.reqs[id].call, Returned(ev.resp))];
    OrderKept(s.trace, ev, lin);
    assert ReqOk(s, lin, id);
    OthersKept(s, id, s', lin);
    EventsKept(s, id, s');
    EventsAppended(s', s.trace, ev);
    LinKept(s, id, s', lin);
  }

  /** Taking the lock and the steps inside leave the order alone. */
  lemma InsideInv(s: State, id: nat, s': State, lin: seq<Done>, stores: seq<Store>)
    requires Inv(s, lin, stores) && Next(s, id, s') && id in s.reqs
    requires s.reqs[id].pc.Waiting? || (InSection(s.reqs[id].pc) && !s.reqs[id].pc.Ready?)
    ensures Inv(s', lin, stores)
  {
    assert ReqOk(s, lin, id);
    if InSection(s.reqs[id].pc) {
      SectionProgress(stores[|lin|], s.store, s.reqs[id].call, s.reqs[id].pc, s'.store, s'.reqs[id].pc);
    }
    OthersKept(s, id, s', lin);
    EventsKept(s, id, s');
    LinKept(s, id, s', lin);
  }

  /** Releasing the lock is the linearization point. */
  lemma ReleaseOrder(s: State, id: nat, lin: seq<Done>, stores: seq<Store>, d: Done)
    requires Inv(s, lin, stores) && id in s.reqs && s.reqs[id].pc.Ready? && d.id == id
    ensures InOrder(s.trace, lin + [d])
  {
    var lin' := lin + [d];
    forall i, j | 0 <= i < j < |lin'|
      ensures lin'[i].id != lin'[j].id
    {
      assert LinOk(s, lin[i]);
    }
    forall i, j | 0 <= i < |lin'| && 0 <= j < |lin'| && Precedes(s.trace, lin'[i].id, lin'[j].id)
      ensures i < j
    {
      NotReturned(s, lin, stores, id, lin'[j].id);
    }
  }

  lemma NotReturned(s: State, lin: seq<Done>, stores: seq<Store>, id: nat, b: nat)
    requires Inv(s, lin, stores) && id in s.reqs && !s.reqs[id].pc.Returned?
    ensures !Precedes(s.trace, id, b)
  {
    forall p | 0 <= p < |s.trace| && s.trace[p].Return?
      ensures s.trace[p].id != id
    {
      assert EventOk(s, s.trace[p]);
    }
  }

  lemma LegalExtends(lin: seq<Done>, stores: seq<Store>, d: Done, store: Store)
    requires Legal(lin, stores) && Serves(stores[|lin|], d.call, store, d.resp)
    ensures Legal(lin + [d], stores + [store])
  {
  }

  lemma ReleaseReqs(s: State, id: nat, s': State, lin: seq<Done>, d: Done)
    requires id in s.reqs && s.reqs[id].pc.Ready? && s.owner == Some(id) && d == Done(id, s.reqs[id].call, s.reqs[id].pc.resp)
    requires s' == s.(owner := None, reqs := s.reqs[id := Request(d.call, Left(d.resp))])
    requires forall x | x in s.reqs :: ReqOk(s, lin, x)
    ensures forall x | x in s'.reqs :: ReqOk(s', lin + [d], x)
  {
    forall x | x in s'.reqs ensures ReqOk(s', lin + [d], x) {
      assert ReqOk(s, lin, x);
      assert (lin + [d])[|lin|] == d;
    }
  }

  lemma ReleaseInv(s: State, id: nat, s': State, lin: seq<Done>, stores: seq<Store>, d: Done)
    requires Inv(s, lin, stores) && Next(s, id, s') && id in s.reqs && s.reqs[id].pc.Ready?
    requires d == Done(id, s.reqs[id].call, s.reqs[id].pc.resp)
    ensures Inv(s', lin + [d], stores + [s.store])
  {
    assert ReqOk(s, lin, id);
    ReleaseOrder(s, id, lin, stores, d);
    LegalExtends(lin, stores, d, s.store);
    ReleaseReqs(s, id, s', lin, d);
    forall p | 0 <= p < |s'.trace| ensures EventOk(s', s'.trace[p]) {
      assert EventOk(s, s.trace[p]);
    }
    forall i | 0 <= i < |lin + [d]| ensures LinOk(s', (lin + [d])[i]) {
      assert i < |lin| ==> LinOk(s, lin[i]);
    }
  }

  lemma {:induction false} RunInv(ss: seq<State>, ids: seq<nat>, n: nat) returns (lin: seq<Done>, stores: seq<Store>)
    requires Run(ss, ids) && n <= |ids|
    ensures Inv(ss[n], lin, stores)
  {
    if n == 0 {
      lin, stores := [], [map[]];
    } else {
      lin, stores := RunInv(ss, ids, n - 1);
      var s, id, s' := ss[n - 1], ids[n - 1], ss[n];
      assert Next(s, id, s');
      if id !in s.reqs {
        InvokeInv(s, id, s', lin, stores);
      } else if s.reqs[id].pc.Ready? {
        var d := Done(id, s.reqs[id].call, s.reqs[id].pc.resp);
        ReleaseInv(s, id, s', lin, stores, d);
        lin, stores := lin + [d], stores + [s.store];
      } else if s.reqs[id].pc.Left? {
        ReturnInv(s, id, s', lin, stores);
      } else {
        InsideInv(s, id, s', lin, stores);
      }
    }
  }

  /** The service is linearizable: every trace of every interleaving is. */
  lemma ServiceLinearizable(ss: seq<State>, ids: seq<nat>)
    requires Run(ss, ids)
    ensures Linearizable(ss[|ids|].trace)
  {
    var lin, stores := RunInv(ss, ids, |ids|);
    var s := ss[|ids|];
    forall i | 0 <= i < |lin|
      ensures Invoke(lin[i].id, lin[i].call) in s.trace
    {
      assert LinOk(s, lin[i]) && ReqOk(s, lin, lin[i].id);
    }
    forall p | 0 <= p < |s.trace| && s.trace[p].Return?
      ensures exists i | 0 <= i < |lin| :: lin[i].id == s.trace[p].id && lin[i].resp == s.trace[p].resp
    {
      assert EventOk(s, s.trace[p]) && ReqOk(s, lin, s.trace[p].id);
    }
    assert Linearizes(s.trace, lin, stores);
  }

  /** Deadlock freedom inside the lock: the holder's next step always exists, so
      every iterator the scan loop dereferences is valid. */
  lemma HolderCanStep(ss: seq<State>, ids: seq<nat>)
    requires Run(ss, ids) && ss[|ids|].owner.Some?
    ensures exists s' :: Next(ss[|ids|], ss[|ids|].owner.value, s')
  {
    var lin, stores := RunInv(ss, ids, |ids|);
    var s := ss[|ids|];
    var id := s.owner.value;
    var Request(call, pc) := s.reqs[id];
    assert ReqOk(s, lin, id);
    if pc.Ready? {
      assert Next(s, id, s.(owner := None, reqs := s.reqs[id := Request(call, Left(pc.resp))]));
    } else {
      var store', pc' := SectionCanStep(stores[|lin|], s.store, call, pc);
      assert Next(s, id, s.(store := store', reqs := s.reqs[id := Request(call, pc')]));
    }
  }

  lemma SectionCanStep(base: Store, store: Store, call: Call, pc: Pc) returns (store': Store, pc': Pc)
    requires Servable(call) && Progress(base, store, call, pc) && InSection(pc) && !pc.Ready?
    ensures SectionStep(store, call, pc, store', pc')
  {
    store' := store;
    match pc
    case Entered =>
      if call.Scan? {
        var it := BoundExists(store, call.first, false, store.Keys);
        var end := BoundExists(store, call.last, true, store.Keys);
        pc' := Scanning([], it, end);
      } else {
        pc' := Found(Lookup(store, call.key));
      }
    case Found(hit) =>
      match call {
        case Put(k, v) => store', pc' := store[k := v], Written(hit);
        case Swap(k, v) => pc' := Answered(hit);
        case Get(k) => pc' := Ready(GetResp(k, hit));
        case Delete(k) =>
          if hit.Some? {
            store', pc' := store - {k}, Written(hit);
          } else {
            pc' := Ready(DeleteResp(k, false));
          }
      }
    case Written(hit) => pc' := Ready(if call.Put? then PutResp(call.key, hit.Some?) else DeleteResp(call.key, true));
    case Answered(hit) => store', pc' := store[call.key := call.value], Ready(SwapResp(call.key, hit));
    case Scanning(acc, it, end) =>
      if it == end {
        pc' := Ready(ScanResp(call.first, call.last, acc));
      } else {
        BeforeEnd(store, call.last, it, end);
        var next := BoundExists(store, it.value, true, store.Keys);
        pc' := Scanning(acc + [(it.value, store[it.value])], next, end);
      }
  }

  /** The ordered map always has a bound: the least of the keys at or after `k`. */
  lemma {:induction false} BoundExists(store: Store, k: Key, strict: bool, among: set<Key>) returns (r: Option<Key>)
    requires among <= store.Keys
    ensures r.Some? ==> r.value in among && From(k, strict, r.value)
    ensures forall x | x in among && From(k, strict, x) :: r.Some? && KeyLeq(r.value, x)
    ensures among == store.Keys ==> IsBound(store, k, strict, r)
    decreases among
  {
    if among == {} {
      r := None;
    } else {
      var x :| x in among;
      r := BoundExists(store, k, strict, among - {x});
      if From(k, strict, x) {
        KeyOrder();
        if r.None? || KeyLess(x, r.value) {
          r := Some(x);
        } else {
          KeyLessTotal(x, r.value);
        }
      }
    }
  }
}
