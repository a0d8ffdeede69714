/**
 * Python dicts whose insertion order is observable: a sequence of
 * (key, value) pairs. `d[k] = v` overwrites the value of an existing key in
 * place and appends a new key at the end.
 */
module Dicts {
  import opened Wrappers
  import Seqs

  /** No key occurs twice. */
  predicate DistinctKeys<K(==), V>(d: seq<(K, V)>) {
    forall i, j :: 0 <= i < j < |d| ==> d[i].0 != d[j].0
  }

  function KeyTest<K(==), V>(k: K): ((K, V)) -> bool {
    (e: (K, V)) => e.0 == k
  }

  /** Position of key `k`, or -1. */
  function IndexOf<K(==), V>(d: seq<(K, V)>, k: K): (i: int)
    ensures -1 <= i < |d|
    ensures i >= 0 ==> d[i].0 == k
    ensures forall j :: 0 <= j < |d| && (i < 0 || j < i) ==> d[j].0 != k
  {
    Seqs.FirstIndex(d, KeyTest(k))
  }

  /** `d.get(k)`. */
  function Lookup<K(==), V>(d: seq<(K, V)>, k: K): (r: Option<V>)
    ensures r.Some? <==> IndexOf(d, k) >= 0
    ensures r.Some? ==> r.value == d[IndexOf(d, k)].1
  {
    var i := IndexOf(d, k);
    if i < 0 then None else Some(d[i].1)
  }

  /** In a dict without repeated keys, every entry is what its key looks up. */
  lemma LookupEntry<K, V>(d: seq<(K, V)>, i: nat)
    requires DistinctKeys(d) && i < |d|
    ensures Lookup(d, d[i].0) == Some(d[i].1)
  {
    var j := IndexOf(d, d[i].0);
    assert j >= 0;
  }

  /** A key no entry has looks up nothing. */
  lemma LookupAbsent<K, V>(d: seq<(K, V)>, k: K)
    requires forall i :: 0 <= i < |d| ==> d[i].0 != k
    ensures Lookup(d, k) == None
  {
  }

  /** `d[k] = v`. */
  function Put<K(==,!new), V>(d: seq<(K, V)>, k: K, v: V): (r: seq<(K, V)>)
    ensures Lookup(r, k) == Some(v)
    ensures forall k' :: k' != k ==> Lookup(r, k') == Lookup(d, k')
    ensures DistinctKeys(d) ==> DistinctKeys(r)
    ensures |r| == (if Lookup(d, k).Some? then |d| else |d| + 1)
    ensures forall i :: 0 <= i < |d| ==> r[i].0 == d[i].0
    ensures forall i :: 0 <= i < |r| ==> r[i] == (k, v) || (i < |d| && r[i] == d[i])
  {
    var i := IndexOf(d, k);
    if i < 0 then
      var r := d + [(k, v)];
      assert forall k' :: k' != k ==> IndexOf(r, k') == IndexOf(d, k') by {
        forall k' | k' != k ensures IndexOf(r, k') == IndexOf(d, k') {
          var a, b := IndexOf(r, k'), IndexOf(d, k');
          assert b >= 0 ==> r[b].0 == k';
        }
      }
      assert r[|d|].0 == k && forall j :: 0 <= j < |d| ==> r[j] == d[j];
      assert IndexOf(r, k) == |d|;
      r
    else
      var r := d[i := (k, v)];
      assert forall k' :: k' != k ==> IndexOf(r, k') == IndexOf(d, k') by {
        forall k' | k' != k ensures IndexOf(r, k') == IndexOf(d, k') {
          var a, b := IndexOf(r, k'), IndexOf(d, k');
          assert a >= 0 ==> d[a].0 == k';
          assert b >= 0 ==> r[b].0 == k';
        }
      }
      assert r[i].0 == k && forall j :: 0 <= j < i ==> r[j] == d[j];
      assert IndexOf(r, k) == i;
      r
  }

  /** `for e in entries: d[f(e).0] = f(e).1`, the entries taken in order. */
  function PutEach<E, K(==,!new), V>(d: seq<(K, V)>, entries: seq<E>, f: E -> (K, V)): (r: seq<(K, V)>)
    ensures DistinctKeys(d) ==> DistinctKeys(r)
    ensures |d| <= |r|
    ensures forall i :: 0 <= i < |d| ==> r[i].0 == d[i].0
  {
    if entries == [] then d
    else
      var e := entries[|entries| - 1];
      Put(PutEach(d, entries[..|entries| - 1], f), f(e).0, f(e).1)
  }

  /** One more iteration of the loop `PutEach` describes. */
  lemma PutEachSnoc<E, K(!new), V>(d: seq<(K, V)>, entries: seq<E>, n: nat, f: E -> (K, V))
    requires n < |entries|
    ensures PutEach(d, entries[..n + 1], f) == Put(PutEach(d, entries[..n], f), f(entries[n]).0, f(entries[n]).1)
  {
    assert entries[..n + 1][..n] == entries[..n];
  }

  /** Starting from an empty dict, the first entry's key comes first. */
  lemma {:induction false} PutEachFirst<E, K(!new), V>(entries: seq<E>, f: E -> (K, V))
    requires entries != []
    ensures |PutEach([], entries, f)| > 0 && PutEach([], entries, f)[0].0 == f(entries[0]).0
  {
    if |entries| > 1 {
      var n := |entries| - 1;
      PutEachFirst(entries[..n], f);
    }
  }

  /** Reference for "the last write wins": the value of the last entry with key `k`, if any. */
  function LastValue<E, K(==), V>(entries: seq<E>, f: E -> (K, V), k: K): Option<V> {
    if entries == [] then None
    else if f(entries[|entries| - 1]).0 == k then Some(f(entries[|entries| - 1]).1)
    else LastValue(entries[..|entries| - 1], f, k)
  }

  /**
   * After writing the entries in order, a key looks up the value of the last
   * entry with that key; a key no entry has keeps its earlier value.
   */
  lemma {:induction false} PutEachLookup<E, K(!new), V>(d: seq<(K, V)>, entries: seq<E>, f: E -> (K, V), k: K)
    ensures Lookup(PutEach(d, entries, f), k)
            == if LastValue(entries, f, k).Some? then LastValue(entries, f, k) else Lookup(d, k)
  {
    if entries != [] {
      PutEachLookup(d, entries[..|entries| - 1], f, k);
    }
  }

  /** Every value in the result was in `d` or was written by an entry. */
  lemma {:induction false} PutEachValues<E, K(!new), V>(d: seq<(K, V)>, entries: seq<E>, f: E -> (K, V), ok: V -> bool)
    requires forall i :: 0 <= i < |d| ==> ok(d[i].1)
    requires forall i :: 0 <= i < |entries| ==> ok(f(entries[i]).1)
    ensures forall i :: 0 <= i < |PutEach(d, entries, f)| ==> ok(PutEach(d, entries, f)[i].1)
  {
    if entries != [] {
      var n := |entries| - 1;
      PutEachValues(d, entries[..n], f, ok);
      var prev := PutEach(d, entries[..n], f);
      var r := Put(prev, f(entries[n]).0, f(entries[n]).1);
      assert forall i :: 0 <= i < |r| ==> r[i].1 == f(entries[n]).1 || (i < |prev| && r[i] == prev[i]);
    }
  }

  /** The last entry with key `k` decides `LastValue`. */
  lemma {:induction false} LastValueAt<E, K, V>(entries: seq<E>, f: E -> (K, V), i: nat)
    requires i < |entries|
    requires forall j :: i < j < |entries| ==> f(entries[j]).0 != f(entries[i]).0
    ensures LastValue(entries, f, f(entries[i]).0) == Some(f(entries[i]).1)
  {
    if i < |entries| - 1 {
      LastValueAt(entries[..|entries| - 1], f, i);
    }
  }

  /** No entry with key `k`, no value. */
  lemma {:induction false} LastValueNone<E, K, V>(entries: seq<E>, f: E -> (K, V), k: K)
    requires forall j :: 0 <= j < |entries| ==> f(entries[j]).0 != k
    ensures LastValue(entries, f, k) == None
  {
    if entries != [] {
      LastValueNone(entries[..|entries| - 1], f, k);
    }
  }

  // ---------------------------------------------------------------------------
  // Dicts that are only read by key afterwards

  /**
   * The dict a loop fills by writing `d[k] = v` for each row whose `entry`
   * is `Some((k, v))` and skipping the others, when nothing but lookups by
   * key is made in it afterwards.
   */
  function Collect<R, K, V>(rows: seq<R>, entry: R -> Option<(K, V)>): map<K, V> {
    if rows == [] then map[]
    else
      var m := Collect(rows[..|rows| - 1], entry);
      var e := entry(rows[|rows| - 1]);
      if e.Some? then m[e.value.0 := e.value.1] else m
  }

  /** One more iteration of the loop `Collect` describes. */
  lemma CollectSnoc<R, K, V>(rows: seq<R>, n: nat, entry: R -> Option<(K, V)>)
    requires n < |rows|
    ensures Collect(rows[..n + 1], entry)
            == if entry(rows[n]).Some? then Collect(rows[..n], entry)[entry(rows[n]).value.0 := entry(rows[n]).value.1]
               else Collect(rows[..n], entry)
  {
    assert rows[..n + 1][..n] == rows[..n];
  }

  /** A key is in the dict exactly when some row writes it. */
  lemma {:induction false} CollectKeys<R, K, V>(rows: seq<R>, entry: R -> Option<(K, V)>, k: K)
    ensures k in Collect(rows, entry) <==> exists i :: 0 <= i < |rows| && entry(rows[i]).Some? && entry(rows[i]).value.0 == k
  {
    if rows != [] {
      var n := |rows| - 1;
      CollectKeys(rows[..n], entry, k);
      assert forall i :: 0 <= i < n ==> rows[..n][i] == rows[i];
    }
  }

  /** The last write wins: a key holds the value of the last row that writes it. */
  lemma {:induction false} CollectLast<R, K, V>(rows: seq<R>, entry: R -> Option<(K, V)>, i: nat)
    requires i < |rows| && entry(rows[i]).Some?
    requires forall j :: i < j < |rows| && entry(rows[j]).Some? ==> entry(rows[j]).value.0 != entry(rows[i]).value.0
    ensures entry(rows[i]).value.0 in Collect(rows, entry)
    ensures Collect(rows, entry)[entry(rows[i]).value.0] == entry(rows[i]).value.1
  {
    var n := |rows| - 1;
    if i < n {
      assert rows[..n][i] == rows[i];
      CollectLast(rows[..n], entry, i);
    }
  }

  /**
   * `Collect` for a loop that stops with an exception: None as soon as a row
   * `raises`, before that row writes anything.
   */
  function CollectOrRaise<R, K, V>(rows: seq<R>, raises: R -> bool, entry: R -> Option<(K, V)>): Option<map<K, V>> {
    if rows == [] then Some(map[])
    else
      var prev := CollectOrRaise(rows[..|rows| - 1], raises, entry);
      var e := entry(rows[|rows| - 1]);
      if prev.None? || raises(rows[|rows| - 1]) then None
      else if e.Some? then Some(prev.value[e.value.0 := e.value.1])
      else prev
  }

  /** One more iteration of the loop `CollectOrRaise` describes. */
  lemma CollectOrRaiseSnoc<R, K, V>(rows: seq<R>, n: nat, raises: R -> bool, entry: R -> Option<(K, V)>)
    requires n < |rows|
    ensures var prev := CollectOrRaise(rows[..n], raises, entry);
            var e := entry(rows[n]);
            CollectOrRaise(rows[..n + 1], raises, entry)
            == if prev.None? || raises(rows[n]) then None
               else if e.Some? then Some(prev.value[e.value.0 := e.value.1])
               else prev
  {
    assert rows[..n + 1][..n] == rows[..n];
  }

  /** The loop raises exactly when some row raises. */
  lemma {:induction false} CollectOrRaiseNone<R, K, V>(rows: seq<R>, raises: R -> bool, entry: R -> Option<(K, V)>)
    ensures CollectOrRaise(rows, raises, entry).None? <==> exists i :: 0 <= i < |rows| && raises(rows[i])
  {
    if rows != [] {
      var n := |rows| - 1;
      CollectOrRaiseNone(rows[..n], raises, entry);
      assert forall i :: 0 <= i < n ==> rows[..n][i] == rows[i];
    }
  }

  /** A loop that does not raise builds the same dict as `Collect`. */
  lemma {:induction false} CollectOrRaiseSome<R, K, V>(rows: seq<R>, raises: R -> bool, entry: R -> Option<(K, V)>)
    requires CollectOrRaise(rows, raises, entry).Some?
    ensures CollectOrRaise(rows, raises, entry).value == Collect(rows, entry)
  {
    if rows != [] {
      CollectOrRaiseSome(rows[..|rows| - 1], raises, entry);
    }
  }
}
