/** Building an index over an existing table, and what an index scan then visits (catalog/catalog.rs). */
module Catalog {
  import opened Prelude
  import opened KeyValues
  import opened Index
  import opened TP = TablePage
  import opened TH = TableHeap

  /** The index entries of rows, in row order. */
  ghost function Keyed(keyOf: Tuple -> Key, rows: seq<Row>): (pairs: seq<KV<RecordId>>)
    ensures |pairs| == |rows|
  {
    seq(|rows|, i requires 0 <= i < |rows| => KV(keyOf(rows[i].slot.tuple), rows[i].rid))
  }

  ghost predicate DistinctKeys<V>(pairs: seq<KV<V>>) {
    forall i, j :: 0 <= i < j < |pairs| ==> pairs[i].key != pairs[j].key
  }

  lemma KeyNotYet<V>(pairs: seq<KV<V>>, n: nat)
    requires DistinctKeys(pairs) && n < |pairs|
    ensures pairs[n].key !in ToMap(pairs[..n])
    ensures ToMap(pairs[..n + 1]) == ToMap(pairs[..n])[pairs[n].key := pairs[n].val]
  {
    if pairs[n].key in ToMap(pairs[..n]) {
      ToMapFinds(pairs[..n], pairs[n].key);
    }
    assert pairs[..n + 1][..n] == pairs[..n];
  }

  /** `create index`: every row of the table is inserted under its key. */
  method CreateIndex(table: TableHeap, keyOf: Tuple -> Key, internalMaxSize: nat, leafMaxSize: nat)
      returns (index: BPlusTreeIndex)
    requires table.Valid() && DistinctKeys(Keyed(keyOf, table.Rows()))
    requires internalMaxSize >= 3 && leafMaxSize >= 1
    ensures fresh(index) && index.Valid() && index.Contents() == ToMap(Keyed(keyOf, table.Rows()))
  {
    hide TableHeap.Valid, BPlusTreeIndex.Valid, BPlusTreeIndex.Contents, TableIterator.Valid, TableIterator.Remaining;
    hide DistinctKeys, ToMap;
    index := new BPlusTreeIndex(internalMaxSize, leafMaxSize);
    var rows := new TableIterator(table);
    ghost var all, n := table.Rows(), 0;
    ghost var pairs := Keyed(keyOf, all);
    EmptyMap(pairs);
    while true
      invariant index.Valid() && rows.Valid() && rows.heap == table && n <= |all|
      invariant rows.Remaining() == all[n..] && index.Contents() == ToMap(pairs[..n])
      decreases |all| - n
    {
      var next := rows.Next();
      if next.None? {
        assert pairs[..n] == pairs;
        return;
      }
      KeyNotYet(pairs, n);
      index.Insert(keyOf(next.value.1), next.value.0);
      n := n + 1;
    }
  }

  lemma EmptyMap<V>(pairs: seq<KV<V>>)
    ensures ToMap(pairs[..0]) == map[]
  {
  }

  lemma {:induction false} ToMapHas<V>(pairs: seq<KV<V>>, i: nat)
    requires DistinctKeys(pairs) && i < |pairs|
    ensures pairs[i].key in ToMap(pairs) && ToMap(pairs)[pairs[i].key] == pairs[i].val
  {
    if i < |pairs| - 1 {
      ToMapHas(pairs[..|pairs| - 1], i);
    }
  }

  lemma {:induction false} ToMapOnly<V>(pairs: seq<KV<V>>, k: Key)
    requires k in ToMap(pairs)
    ensures exists i :: 0 <= i < |pairs| && pairs[i] == KV(k, ToMap(pairs)[k])
  {
    var n := |pairs| - 1;
    if pairs[n].key == k {
      assert pairs[n] == KV(k, ToMap(pairs)[k]);
    } else {
      ToMapOnly(pairs[..n], k);
      var i :| 0 <= i < n && pairs[..n][i] == KV(k, ToMap(pairs[..n])[k]);
      assert pairs[i] == KV(k, ToMap(pairs)[k]);
    }
  }

  /**
   The pairs of an index built over a table are the table's rows sorted by key: an index scan visits every row of
   the table, once, and no other.
   */
  lemma ScanVisitsTable(entries: seq<KV<RecordId>>, pairs: seq<KV<RecordId>>)
    requires Sorted(entries) && DistinctKeys(pairs) && ToMap(entries) == ToMap(pairs)
    ensures multiset(entries) == multiset(pairs)
  {
    hide ToMap;
    forall x ensures x in entries <==> x in pairs {
      if x in entries {
        var i :| 0 <= i < |entries| && entries[i] == x;
        ToMapAt(entries, i);
        ToMapOnly(pairs, x.key);
      }
      if x in pairs {
        var i :| 0 <= i < |pairs| && pairs[i] == x;
        ToMapHas(pairs, i);
        ToMapOnly(entries, x.key);
      }
    }
    assert DistinctKeys(entries);
    forall x ensures multiset(entries)[x] == multiset(pairs)[x] {
      OnceOnly(entries, x);
      OnceOnly(pairs, x);
    }
  }

  lemma {:induction false} OnceOnly<V>(pairs: seq<KV<V>>, x: KV<V>)
    requires DistinctKeys(pairs)
    ensures multiset(pairs)[x] == if x in pairs then 1 else 0
  {
    if pairs != [] {
      var n := |pairs| - 1;
      OnceOnly(pairs[..n], x);
      assert pairs == pairs[..n] + [pairs[n]];
      assert multiset(pairs) == multiset(pairs[..n]) + multiset{pairs[n]};
      assert forall i | 0 <= i < n :: pairs[i].key != pairs[n].key;
    }
  }
}
