/** Vocabulary shared by every component: keys, calls, responses and the
    atomic meaning of one call on the key-value store. */
module Kv {

  datatype Option<+T> = None | Some(value: T)

  type Key = string
  type Value = string
  type Store = map<Key, Value>

  datatype Call =
    | Put(key: Key, value: Value)
    | Swap(key: Key, value: Value)
    | Get(key: Key)
    | Scan(first: Key, last: Key)
    | Delete(key: Key)
    | Stop

  datatype Resp =
    | PutResp(key: Key, found: bool)
    | SwapResp(key: Key, oldValue: Option<Value>)
    | GetResp(key: Key, value: Option<Value>)
    | ScanResp(first: Key, last: Key, entries: seq<(Key, Value)>)
    | DeleteResp(key: Key, found: bool)
    | StopResp

  /** Strict lexicographic order, the order of both std::string and String. */
  predicate KeyLess(a: Key, b: Key) {
    b != [] && (a == [] || a[0] < b[0] || (a[0] == b[0] && KeyLess(a[1..], b[1..])))
  }

  predicate KeyLeq(a: Key, b: Key) {
    a == b || KeyLess(a, b)
  }

  lemma {:induction false} KeyLessIrreflexive(a: Key)
    ensures !KeyLess(a, a)
  {
    if a != [] {
      KeyLessIrreflexive(a[1..]);
    }
  }

  lemma {:induction false} KeyLessTransitive(a: Key, b: Key, c: Key)
    requires KeyLess(a, b) && KeyLess(b, c)
    ensures KeyLess(a, c)
  {
    if a != [] && a[0] == b[0] == c[0] {
      KeyLessTransitive(a[1..], b[1..], c[1..]);
    }
  }

  lemma {:induction false} KeyLessTotal(a: Key, b: Key)
    ensures a == b || KeyLess(a, b) || KeyLess(b, a)
  {
    if a != [] && b != [] && a[0] == b[0] {
      KeyLessTotal(a[1..], b[1..]);
      assert a == [a[0]] + a[1..] && b == [b[0]] + b[1..];
    }
  }

  /** After a common prefix of length `i`, `a` ends or has the smaller character. */
  predicate SmallerAt(a: Key, b: Key, i: nat)
    requires i <= |a| && i < |b|
  {
    a[..i] == b[..i] && (i == |a| || a[i] < b[i])
  }

  lemma {:induction false} SmallerIsLess(a: Key, b: Key, i: nat)
    requires i <= |a| && i < |b| && SmallerAt(a, b, i)
    ensures KeyLess(a, b)
  {
    if i > 0 {
      assert a[0] == a[..i][0] && b[0] == b[..i][0];
      assert a[1..][..i - 1] == a[..i][1..] && b[1..][..i - 1] == b[..i][1..];
      SmallerIsLess(a[1..], b[1..], i - 1);
    }
  }

  lemma {:induction false} LessIsSmaller(a: Key, b: Key) returns (i: nat)
    requires KeyLess(a, b)
    ensures i <= |a| && i < |b| && SmallerAt(a, b, i)
  {
    i := 0;
    if a != [] && a[0] == b[0] {
      var j := LessIsSmaller(a[1..], b[1..]);
      i := j + 1;
      assert a[..i] == [a[0]] + a[1..][..j] && b[..i] == [b[0]] + b[1..][..j];
    }
  }

  /** The order is the lexicographic one. */
  lemma KeyLessLexicographic(a: Key, b: Key)
    ensures KeyLess(a, b) <==>
      exists i | 0 <= i <= |a| && i < |b| :: SmallerAt(a, b, i)
  {
    if KeyLess(a, b) {
      var i := LessIsSmaller(a, b);
    }
    forall i | 0 <= i <= |a| && i < |b| && SmallerAt(a, b, i) ensures KeyLess(a, b) {
      SmallerIsLess(a, b, i);
    }
  }

  lemma LeqNotLess(a: Key, b: Key)
    requires KeyLeq(a, b)
    ensures !KeyLess(b, a)
  {
    KeyLessIrreflexive(a);
    if KeyLess(a, b) && KeyLess(b, a) {
      KeyLessTransitive(a, b, a);
    }
  }

  lemma NotLessLeq(a: Key, b: Key)
    requires !KeyLess(b, a)
    ensures KeyLeq(a, b)
  {
    KeyLessTotal(a, b);
  }

  function Lookup(store: Store, k: Key): Option<Value> {
    if k in store then Some(store[k]) else None
  }

  /** The write a call performs: None for a read-only call, a key with no value for Delete. */
  function UpdateInfo(call: Call): Option<(Key, Option<Value>)> {
    match call
    case Put(k, v) => Some((k, Some(v)))
    case Swap(k, v) => Some((k, Some(v)))
    case Delete(k) => Some((k, None))
    case _ => None
  }

  ghost predicate Ascending(entries: seq<(Key, Value)>) {
    forall i, j | 0 <= i < j < |entries| :: KeyLess(entries[i].0, entries[j].0)
  }

  /** `entries` lists, in strictly ascending key order, exactly the bindings of
      `store` whose key lies in the inclusive range from `first` to `last`. */
  ghost predicate IsRange(store: Store, first: Key, last: Key, entries: seq<(Key, Value)>) {
    && Ascending(entries)
    && (forall i | 0 <= i < |entries| ::
          && KeyLeq(first, entries[i].0) && KeyLeq(entries[i].0, last)
          && Lookup(store, entries[i].0) == Some(entries[i].1))
    && (forall k | k in store && KeyLeq(first, k) && KeyLeq(k, last) :: (k, store[k]) in entries)
  }

  /** The atomic specification: serving `call` on `store` leaves `store'` and answers `resp`. */
  ghost predicate Serves(store: Store, call: Call, store': Store, resp: Resp) {
    match call
    case Put(k, v) => store' == store[k := v] && resp == PutResp(k, k in store)
    case Swap(k, v) => store' == store[k := v] && resp == SwapResp(k, Lookup(store, k))
    case Get(k) => store' == store && resp == GetResp(k, Lookup(store, k))
    case Scan(a, b) =>
      store' == store && resp.ScanResp? && resp.first == a && resp.last == b && IsRange(store, a, b, resp.entries)
    case Delete(k) => store' == store - {k} && resp == DeleteResp(k, k in store)
    case Stop => false
  }
}
