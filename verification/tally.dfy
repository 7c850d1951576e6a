/**
 * Grouping of (key, value) entries by integer key, in ascending key order:
 * the shape behind pandas' `value_counts().sort_index()` and
 * `groupby(...).mean().sort_values(...)` on the admin dashboard.
 */
module Tally {

  /** All entries with one key: how many there are and the sum of their values. */
  datatype Bucket = Bucket(key: int, count: nat, total: int)

  predicate Ascending(bs: seq<Bucket>) {
    forall i, j :: 0 <= i < j < |bs| ==> bs[i].key < bs[j].key
  }

  predicate AllOccupied(bs: seq<Bucket>) {
    forall i :: 0 <= i < |bs| ==> bs[i].count > 0
  }

  function Keys(bs: seq<Bucket>): set<int> {
    if bs == [] then {} else {bs[0].key} + Keys(bs[1..])
  }

  /** How many entries have key `k`. */
  function CountOf(entries: seq<(int, int)>, k: int): nat {
    if entries == [] then 0 else (if entries[0].0 == k then 1 else 0) + CountOf(entries[1..], k)
  }

  /** The sum of the values of the entries with key `k`. */
  function TotalOf(entries: seq<(int, int)>, k: int): int {
    if entries == [] then 0 else (if entries[0].0 == k then entries[0].1 else 0) + TotalOf(entries[1..], k)
  }

  /** The distinct keys among the entries. */
  function EntryKeys(entries: seq<(int, int)>): set<int> {
    if entries == [] then {} else {entries[0].0} + EntryKeys(entries[1..])
  }

  /** The count recorded for key `k`, zero when there is no bucket for it. */
  function CountAt(bs: seq<Bucket>, k: int): nat {
    if bs == [] then 0 else if bs[0].key == k then bs[0].count else CountAt(bs[1..], k)
  }

  function TotalAt(bs: seq<Bucket>, k: int): int {
    if bs == [] then 0 else if bs[0].key == k then bs[0].total else TotalAt(bs[1..], k)
  }

  function SumCounts(bs: seq<Bucket>): nat {
    if bs == [] then 0 else bs[0].count + SumCounts(bs[1..])
  }

  /** Records one more entry: its key's bucket grows, or a new bucket opens in key order. */
  function Add(bs: seq<Bucket>, key: int, value: int): (r: seq<Bucket>)
    requires Ascending(bs)
    ensures Ascending(r)
    ensures |r| > 0 && (r[0].key == key || (bs != [] && r[0].key == bs[0].key))
  {
    if bs == [] || key < bs[0].key then
      [Bucket(key, 1, value)] + bs
    else if key == bs[0].key then
      [Bucket(key, bs[0].count + 1, bs[0].total + value)] + bs[1..]
    else
      var rest := Add(bs[1..], key, value);
      var r := [bs[0]] + rest;
      assert forall j :: 1 <= j < |r| ==> r[j] == rest[j - 1];
      r
  }

  /** `Add` opens no bucket but the key's own, empties none, and counts one more entry. */
  lemma {:induction false} AddShape(bs: seq<Bucket>, key: int, value: int)
    requires Ascending(bs)
    ensures AllOccupied(bs) ==> AllOccupied(Add(bs, key, value))
    ensures Keys(Add(bs, key, value)) == Keys(bs) + {key}
    ensures SumCounts(Add(bs, key, value)) == SumCounts(bs) + 1
  {
    var r := Add(bs, key, value);
    if bs == [] || key < bs[0].key {
      assert r[1..] == bs;
    } else if key == bs[0].key {
      assert r[1..] == bs[1..];
    } else {
      AddShape(bs[1..], key, value);
      assert r[1..] == Add(bs[1..], key, value);
    }
  }

  /** A key below every bucket's key has no bucket. */
  lemma {:induction false} AbsentBelow(bs: seq<Bucket>, k: int)
    requires Ascending(bs) && (bs == [] || k < bs[0].key)
    ensures CountAt(bs, k) == 0 && TotalAt(bs, k) == 0
  {
    if |bs| > 1 {
      AbsentBelow(bs[1..], k);
    }
  }

  /** After `Add`, the bucket of the added key holds one more entry and its value; no other bucket changes. */
  lemma {:induction false} AddLookup(bs: seq<Bucket>, key: int, value: int, k: int)
    requires Ascending(bs)
    ensures CountAt(Add(bs, key, value), k) == CountAt(bs, k) + (if k == key then 1 else 0)
    ensures TotalAt(Add(bs, key, value), k) == TotalAt(bs, k) + (if k == key then value else 0)
  {
    var r := Add(bs, key, value);
    if bs == [] || key < bs[0].key {
      assert r[1..] == bs;
      if k == key {
        AbsentBelow(bs, k);
      }
    } else if key == bs[0].key {
      assert r[1..] == bs[1..];
    } else {
      AddLookup(bs[1..], key, value, k);
      assert r[1..] == Add(bs[1..], key, value);
    }
  }

  /**
   * Groups the entries by key: one bucket per distinct key, in ascending
   * key order, each holding the number of entries with that key and the
   * sum of their values.
   */
  function Group(entries: seq<(int, int)>): (r: seq<Bucket>)
    ensures Ascending(r) && AllOccupied(r)
    ensures Keys(r) == EntryKeys(entries)
    ensures forall k :: CountAt(r, k) == CountOf(entries, k) && TotalAt(r, k) == TotalOf(entries, k)
    ensures SumCounts(r) == |entries|
  {
    if entries == [] then []
    else
      var rest := Group(entries[1..]);
      assert forall k :: CountAt(Add(rest, entries[0].0, entries[0].1), k) == CountOf(entries, k)
                      && TotalAt(Add(rest, entries[0].0, entries[0].1), k) == TotalOf(entries, k) by {
        forall k
          ensures CountAt(Add(rest, entries[0].0, entries[0].1), k) == CountOf(entries, k)
          ensures TotalAt(Add(rest, entries[0].0, entries[0].1), k) == TotalOf(entries, k)
        {
          AddLookup(rest, entries[0].0, entries[0].1, k);
        }
      }
      AddShape(rest, entries[0].0, entries[0].1);
      Add(rest, entries[0].0, entries[0].1)
  }

  /** In ascending buckets a bucket's own key finds that bucket. */
  lemma {:induction false} LookupOwnKey(bs: seq<Bucket>, i: int)
    requires Ascending(bs) && 0 <= i < |bs|
    ensures CountAt(bs, bs[i].key) == bs[i].count && TotalAt(bs, bs[i].key) == bs[i].total
  {
    if i > 0 {
      LookupOwnKey(bs[1..], i - 1);
    }
  }

  /** A key with a non-zero count has a bucket. */
  lemma {:induction false} CountAtFound(bs: seq<Bucket>, k: int)
    requires CountAt(bs, k) > 0
    ensures exists i :: 0 <= i < |bs| && bs[i].key == k
  {
    if bs[0].key != k {
      CountAtFound(bs[1..], k);
      var i :| 0 <= i < |bs| - 1 && bs[1..][i].key == k;
      assert bs[i + 1].key == k;
    }
  }
}
