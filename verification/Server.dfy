/** The C++ key-value service: five handlers over an ordered map, each run under
    one mutex. Here each handler runs alone; `LockedServer` interleaves them. */
module Server {
  import opened Kv

  /** Keys at or after `k` (strict: after `k`). */
  predicate From(k: Key, strict: bool, x: Key) {
    if strict then KeyLess(k, x) else KeyLeq(k, x)
  }

  /** `r` points at the least key of `store` at or after `k`, None standing for end(). */
  ghost predicate IsBound(store: Store, k: Key, strict: bool, r: Option<Key>) {
    match r
    case None => forall x | x in store :: !From(k, strict, x)
    case Some(m) => m in store && From(k, strict, m) && forall x | x in store && From(k, strict, x) :: KeyLeq(m, x)
  }

  lemma KeyOrder()
    ensures forall a, b, c :: KeyLess(a, b) && KeyLess(b, c) ==> KeyLess(a, c)
    ensures forall a :: !KeyLess(a, a)
    ensures forall a, b {:trigger KeyLess(a, b), KeyLess(b, a)} :: a == b || KeyLess(a, b) || KeyLess(b, a)
  {
    forall a, b, c | KeyLess(a, b) && KeyLess(b, c) ensures KeyLess(a, c) {
      KeyLessTransitive(a, b, c);
    }
    forall a ensures !KeyLess(a, a) {
      KeyLessIrreflexive(a);
    }
    forall a, b ensures a == b || KeyLess(a, b) || KeyLess(b, a) {
      KeyLessTotal(a, b);
    }
  }

  /** lower_bound (`strict` false) and upper_bound (`strict` true) of the ordered map. */
  method Bound(store: Store, k: Key, strict: bool) returns (r: Option<Key>)
    ensures IsBound(store, k, strict, r)
  {
    r := None;
    var todo := store.Keys;
    while todo != {}
      invariant todo <= store.Keys
      invariant r.Some? ==> r.value in store && From(k, strict, r.value)
      invariant forall x | x in store.Keys - todo && From(k, strict, x) :: r.Some? && KeyLeq(r.value, x)
      decreases todo
    {
      var x :| x in todo;
      todo := todo - {x};
      if From(k, strict, x) && (r.None? || KeyLess(x, r.value)) {
        KeyOrder();
        r := Some(x);
      } else if r.Some? {
        KeyLessTotal(x, r.value);
      }
    }
  }

  /** The keys in [first, it) are all listed, in order. */
  ghost predicate Listed(store: Store, first: Key, last: Key, it: Option<Key>, entries: seq<(Key, Value)>) {
    && Ascending(entries)
    && (forall i | 0 <= i < |entries| ::
          && KeyLeq(first, entries[i].0) && KeyLeq(entries[i].0, last)
          && Lookup(store, entries[i].0) == Some(entries[i].1)
          && (it.Some? ==> KeyLess(entries[i].0, it.value)))
    && (forall x | x in store && KeyLeq(first, x) && (it.Some? ==> KeyLess(x, it.value)) :: (x, store[x]) in entries)
  }

  /** `it` has not gone past the upper bound `end` of `last`. */
  ghost predicate NotPast(it: Option<Key>, end: Option<Key>) {
    end.Some? ==> it.Some? && KeyLeq(it.value, end.value)
  }

  lemma ScanStarts(store: Store, first: Key, last: Key, it: Option<Key>, end: Option<Key>)
    requires KeyLeq(first, last) && IsBound(store, first, false, it) && IsBound(store, last, true, end)
    ensures NotPast(it, end) && Listed(store, first, last, it, [])
  {
    KeyOrder();
  }

  /** Dereferencing `it` before `end` yields a key in range that comes after all listed ones. */
  lemma ScanAppends(store: Store, first: Key, last: Key, it: Option<Key>, end: Option<Key>,
                    entries: seq<(Key, Value)>, next: Option<Key>)
    requires it.Some? && it.value in store && KeyLeq(first, it.value) && KeyLeq(it.value, last)
    requires Listed(store, first, last, it, entries) && IsBound(store, it.value, true, next)
    ensures Listed(store, first, last, next, entries + [(it.value, store[it.value])])
  {
    var k := it.value;
    var more := entries + [(k, store[k])];
    KeyOrder();
    forall x | x in store && KeyLeq(first, x) && (next.Some? ==> KeyLess(x, next.value))
      ensures (x, store[x]) in more
    {
      if KeyLess(x, k) {
        assert (x, store[x]) in entries;
      } else {
        KeyLessTotal(x, k);
        assert x == k;
        assert more[|entries|] == (k, store[k]);
      }
    }
  }

  lemma BeforeEnd(store: Store, last: Key, it: Option<Key>, end: Option<Key>)
    requires IsBound(store, last, true, end) && it != end && NotPast(it, end)
    requires it.Some? ==> it.value in store
    ensures it.Some? && KeyLeq(it.value, last)
  {
    KeyOrder();
    if it.Some? {
      KeyLessTotal(it.value, last);
    }
  }

  lemma ScanEnds(store: Store, first: Key, last: Key, end: Option<Key>, entries: seq<(Key, Value)>)
    requires IsBound(store, last, true, end) && Listed(store, first, last, end, entries)
    ensures IsRange(store, first, last, entries)
  {
    forall k | k in store && KeyLeq(first, k) && KeyLeq(k, last)
      ensures (k, store[k]) in entries
    {
      if end.Some? {
        KeyOrder();
        assert KeyLess(k, end.value);
      }
    }
  }

  class KvStoreService {
    var store: Store

    constructor ()
      ensures store == map[]
    {
      store := map[];
    }

    method Put(key: Key, value: Value) returns (found: bool)
      modifies this
      ensures Serves(old(store), Call.Put(key, value), store, PutResp(key, found))
    {
      found := key in store;
      store := store[key := value];
    }

    method Swap(key: Key, value: Value) returns (oldValue: Option<Value>)
      modifies this
      ensures Serves(old(store), Call.Swap(key, value), store, SwapResp(key, oldValue))
    {
      if key in store {
        oldValue := Some(store[key]);
        store := store[key := value];
      } else {
        oldValue := None;
        store := store[key := value];
      }
    }

    method Get(key: Key) returns (value: Option<Value>)
      ensures Serves(store, Call.Get(key), store, GetResp(key, value))
    {
      if key in store {
        value := Some(store[key]);
      } else {
        value := None;
      }
    }

    method Scan(first: Key, last: Key) returns (entries: seq<(Key, Value)>)
      requires KeyLeq(first, last)
      ensures IsRange(store, first, last, entries)
    {
      var it := Bound(store, first, false);
      var end := Bound(store, last, true);
      entries := [];
      ScanStarts(store, first, last, it, end);
      ghost var left := set x | x in store && it.Some? && KeyLeq(it.value, x);
      while it != end
        invariant it.Some? ==> it.value in store && KeyLeq(first, it.value)
        invariant NotPast(it, end)
        invariant Listed(store, first, last, it, entries)
        invariant left == set x | x in store && it.Some? && KeyLeq(it.value, x)
        decreases left
      {
        BeforeEnd(store, last, it, end);
        var next := Bound(store, it.value, true);
        ScanAppends(store, first, last, it, end, entries, next);
        entries := entries + [(it.value, store[it.value])];
        ghost var left' := set x | x in store && next.Some? && KeyLeq(next.value, x);
        assert left' < left by {
          KeyOrder();
          assert it.value in left && it.value !in left';
        }
        assert next.Some? ==> KeyLeq(first, next.value) by {
          KeyOrder();
        }
        it, left := next, left';
      }
      ScanEnds(store, first, last, end, entries);
    }

    method Delete(key: Key) returns (found: bool)
      modifies this
      ensures Serves(old(store), Call.Delete(key), store, DeleteResp(key, found))
    {
      if key in store {
        store := store - {key};
        found := true;
      } else {
        found := false;
      }
    }

    /** Dispatch of one request to its handler. */
    method Handle(call: Call) returns (resp: Resp)
      requires !call.Stop? && (call.Scan? ==> KeyLeq(call.first, call.last))
      modifies this
      ensures Serves(old(store), call, store, resp)
    {
      match call
      case Put(k, v) => var found := Put(k, v); resp := PutResp(k, found);
      case Swap(k, v) => var v' := Swap(k, v); resp := SwapResp(k, v');
      case Get(k) => var v := Get(k); resp := GetResp(k, v);
      case Scan(a, b) => var es := Scan(a, b); resp := ScanResp(a, b, es);
      case Delete(k) => var found := Delete(k); resp := DeleteResp(k, found);
    }
  }

  // ----- ordered listings are unique -----

  lemma SubListing(store: Store, first: Key, last: Key, a: seq<(Key, Value)>, b: seq<(Key, Value)>)
    requires IsRange(store, first, last, a) && IsRange(store, first, last, b)
    ensures forall i | 0 <= i < |a| :: a[i] in b
  {
    forall i | 0 <= i < |a| ensures a[i] in b {
      assert Lookup(store, a[i].0) == Some(a[i].1);
      assert a[i] == (a[i].0, store[a[i].0]);
    }
  }

  lemma HeadsAgree(a: seq<(Key, Value)>, b: seq<(Key, Value)>)
    requires Ascending(a) && Ascending(b) && a != [] && b != [] && a[0] in b && b[0] in a
    ensures a[0] == b[0]
  {
    var i :| 0 <= i < |b| && b[i] == a[0];
    var j :| 0 <= j < |a| && a[j] == b[0];
    if i > 0 && j > 0 {
      KeyLessTransitive(a[0].0, b[0].0, a[0].0);
      KeyLessIrreflexive(a[0].0);
    }
  }

  lemma TailWithin(a: seq<(Key, Value)>, b: seq<(Key, Value)>)
    requires Ascending(a) && a != [] && b != [] && a[0] == b[0]
    requires forall i | 0 <= i < |a| :: a[i] in b
    ensures forall i | 0 <= i < |a[1..]| :: a[1..][i] in b[1..]
  {
    forall i | 0 <= i < |a[1..]| ensures a[1..][i] in b[1..] {
      assert a[1..][i] == a[i + 1];
      KeyLessIrreflexive(a[0].0);
      var j :| 0 <= j < |b| && b[j] == a[i + 1];
      assert b[1..][j - 1] == b[j];
    }
  }

  lemma {:induction false} SameListing(a: seq<(Key, Value)>, b: seq<(Key, Value)>)
    requires Ascending(a) && Ascending(b)
    requires (forall i | 0 <= i < |a| :: a[i] in b) && (forall i | 0 <= i < |b| :: b[i] in a)
    ensures a == b
  {
    if a != [] {
      assert a[0] in b;
      HeadsAgree(a, b);
      TailWithin(a, b);
      TailWithin(b, a);
      SameListing(a[1..], b[1..]);
      assert a == [a[0]] + a[1..] && b == [b[0]] + b[1..];
    }
  }

  /** A range has one ascending listing, so a scan's answer is determined by the store. */
  lemma RangeUnique(store: Store, first: Key, last: Key, a: seq<(Key, Value)>, b: seq<(Key, Value)>)
    requires IsRange(store, first, last, a) && IsRange(store, first, last, b)
    ensures a == b
  {
    SubListing(store, first, last, a, b);
    SubListing(store, first, last, b, a);
    SameListing(a, b);
  }

  // ----- the reference client's half-open scan -----

  /** `entries` lists the bindings with key in [first, last). */
  ghost predicate IsHalfOpenRange(store: Store, first: Key, last: Key, entries: seq<(Key, Value)>) {
    && Ascending(entries)
    && (forall i | 0 <= i < |entries| ::
          && KeyLeq(first, entries[i].0) && KeyLess(entries[i].0, last)
          && Lookup(store, entries[i].0) == Some(entries[i].1))
    && (forall k | k in store && KeyLeq(first, k) && KeyLess(k, last) :: (k, store[k]) in entries)
  }

  /** The server's scan is the reference client's scan plus the end key, when bound. */
  lemma InclusiveIsHalfOpenPlusEnd(store: Store, first: Key, last: Key, a: seq<(Key, Value)>, b: seq<(Key, Value)>)
    requires KeyLeq(first, last) && IsRange(store, first, last, a) && IsHalfOpenRange(store, first, last, b)
    ensures a == if last in store then b + [(last, store[last])] else b
  {
    var c := if last in store then b + [(last, store[last])] else b;
    KeyOrder();
    forall k | k in store && KeyLeq(first, k) && KeyLeq(k, last)
      ensures (k, store[k]) in c
    {
      if k == last {
        assert c[|b|] == (last, store[last]);
      } else {
        assert (k, store[k]) in b;
      }
    }
    RangeUnique(store, first, last, a, c);
  }
}
