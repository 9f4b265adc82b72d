/** The end key the benchmark picks for a scan of a given number of keys. */
module Ycsb {
  import opened Kv
  import opened Server

  /** The keys of an ordered set, in order. */
  ghost predicate Sorted(ks: seq<Key>) {
    forall i, j | 0 <= i < j < |ks| :: KeyLess(ks[i], ks[j])
  }

  /** Index of the first key at or after `start`, the length if there is none. */
  function FirstFrom(ks: seq<Key>, start: Key): nat {
    if ks == [] || KeyLeq(start, ks[0]) then 0 else 1 + FirstFrom(ks[1..], start)
  }

  /** The end key: a fixed one when nothing was inserted, else the `count`-th inserted
      key from `start` on, or the last inserted key when there are fewer. */
  function EndKey(ikeys: seq<Key>, start: Key, count: nat): Key
    requires count >= 1
  {
    if ikeys == [] then "zzzzzzzz"
    else
      var i := FirstFrom(ikeys, start) + count - 1;
      if i < |ikeys| then ikeys[i] else ikeys[|ikeys| - 1]
  }

  lemma {:induction false} FirstFromIs(ks: seq<Key>, start: Key)
    requires Sorted(ks)
    ensures FirstFrom(ks, start) <= |ks|
    ensures forall i | 0 <= i < |ks| :: KeyLeq(start, ks[i]) <==> FirstFrom(ks, start) <= i
  {
    if ks == [] {
    } else if KeyLeq(start, ks[0]) {
      KeyOrder();
    } else {
      FirstFromIs(ks[1..], start);
      forall i | 0 <= i < |ks|
        ensures KeyLeq(start, ks[i]) <==> FirstFrom(ks, start) <= i
      {
        if i > 0 {
          assert ks[i] == ks[1..][i - 1];
        }
      }
    }
  }

  function KeysInRange(ks: seq<Key>, a: Key, b: Key): set<Key> {
    set k | k in ks && KeyLeq(a, k) && KeyLeq(k, b)
  }

  lemma {:induction false} SliceSize(ks: seq<Key>, a: nat, b: nat)
    requires Sorted(ks) && a <= b <= |ks|
    ensures |set i | a <= i < b :: ks[i]| == b - a
    decreases b
  {
    var s := set i | a <= i < b :: ks[i];
    if a == b {
      assert s == {};
    } else {
      SliceSize(ks, a, b - 1);
      var t := set i | a <= i < b - 1 :: ks[i];
      KeyLessIrreflexive(ks[b - 1]);
      assert s == t + {ks[b - 1]};
      assert ks[b - 1] !in t;
    }
  }

  /** The end key is an inserted one. The range never runs backwards exactly when
      `start` is not past the last inserted key, which is otherwise the end key. */
  lemma RangeForwardExact(ikeys: seq<Key>, start: Key, count: nat)
    requires Sorted(ikeys) && ikeys != [] && count >= 1
    ensures EndKey(ikeys, start, count) in ikeys
    ensures KeyLeq(start, EndKey(ikeys, start, count)) <==> KeyLeq(start, ikeys[|ikeys| - 1])
    ensures !KeyLeq(start, ikeys[|ikeys| - 1]) ==> EndKey(ikeys, start, count) == ikeys[|ikeys| - 1]
  {
    FirstFromIs(ikeys, start);
  }

  /** Before any insert the end key is eight times the letter z, which no key of up
      to eight characters, none above z, comes after. */
  lemma EmptyEnd(start: Key, count: nat, k: Key)
    requires count >= 1
    ensures EndKey([], start, count) == "zzzzzzzz"
    ensures (forall i | 0 <= i < |k| :: k[i] <= 'z') && |k| <= 8 ==> KeyLeq(k, EndKey([], start, count))
  {
    if (forall i | 0 <= i < |k| :: k[i] <= 'z') && |k| <= 8 {
      UpToZs(k, "zzzzzzzz");
    }
  }

  lemma {:induction false} UpToZs(k: Key, zs: Key)
    requires |k| <= |zs| && (forall i | 0 <= i < |k| :: k[i] <= 'z') && forall i | 0 <= i < |zs| :: zs[i] == 'z'
    ensures KeyLeq(k, zs)
  {
    if k != [] && k[0] == 'z' {
      UpToZs(k[1..], zs[1..]);
      assert k == [k[0]] + k[1..] && zs == [zs[0]] + zs[1..];
    }
  }

  lemma RangeIsSlice(ks: seq<Key>, start: Key, last: nat)
    requires Sorted(ks) && last < |ks|
    ensures KeysInRange(ks, start, ks[last]) == set i | FirstFrom(ks, start) <= i < last + 1 :: ks[i]
  {
    FirstFromIs(ks, start);
    var p, end := FirstFrom(ks, start), ks[last];
    var slice := set i | p <= i < last + 1 :: ks[i];
    forall k | k in KeysInRange(ks, start, end) ensures k in slice {
      var i :| 0 <= i < |ks| && ks[i] == k;
      if i > last {
        KeyLessIrreflexive(k);
        if KeyLess(k, end) {
          KeyLessTransitive(k, end, k);
        }
      }
    }
    forall k | k in slice ensures k in KeysInRange(ks, start, end) {
      var i :| p <= i < last + 1 && ks[i] == k;
    }
  }

  lemma SliceCount(ks: seq<Key>, start: Key, last: nat)
    requires Sorted(ks) && last < |ks| && FirstFrom(ks, start) <= last + 1
    ensures |KeysInRange(ks, start, ks[last])| == last + 1 - FirstFrom(ks, start)
  {
    RangeIsSlice(ks, start, last);
    SliceSize(ks, FirstFrom(ks, start), last + 1);
  }

  /** It covers exactly as many inserted keys as asked for, or all from `start` on when there are fewer. */
  lemma RangeCoversCount(ikeys: seq<Key>, start: Key, count: nat)
    requires Sorted(ikeys) && ikeys != [] && count >= 1 && KeyLeq(start, ikeys[|ikeys| - 1])
    ensures var above := |ikeys| - FirstFrom(ikeys, start);
      |KeysInRange(ikeys, start, EndKey(ikeys, start, count))| == if count < above then count else above
  {
    FirstFromIs(ikeys, start);
    var p := FirstFrom(ikeys, start);
    var last := if p + count - 1 < |ikeys| then p + count - 1 else |ikeys| - 1;
    assert EndKey(ikeys, start, count) == ikeys[last];
    SliceCount(ikeys, start, last);
  }
}
