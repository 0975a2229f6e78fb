/** Sequences of key-value pairs ordered by key, and the stable sort the index pages rely on. */
module KeyValues {

  /** Index keys are only ever compared. Zero stands for the all-NULL tuple, the least key. */
  type Key = nat

  const EMPTY_KEY: Key := 0

  datatype KV<V> = KV(key: Key, val: V)

  ghost predicate Ascending<V>(s: seq<KV<V>>) {
    forall i, j | 0 <= i < j < |s| :: s[i].key <= s[j].key
  }

  ghost predicate Sorted<V>(s: seq<KV<V>>) {
    forall i, j | 0 <= i < j < |s| :: s[i].key < s[j].key
  }

  /** Places `x` behind every pair whose key is not greater. */
  function InsertLast<V>(s: seq<KV<V>>, x: KV<V>): (r: seq<KV<V>>)
    ensures |r| == |s| + 1
  {
    if |s| == 0 || s[|s| - 1].key <= x.key then s + [x]
    else InsertLast(s[..|s| - 1], x) + [s[|s| - 1]]
  }

  /** The stable sort by key. */
  function StableSort<V>(s: seq<KV<V>>): (r: seq<KV<V>>)
    ensures |r| == |s|
  {
    if s == [] then [] else InsertLast(StableSort(s[..|s| - 1]), s[|s| - 1])
  }

  /** Insertion lands exactly between the keys that are not greater and those that are. */
  lemma {:induction false} InsertLastSplits<V>(a: seq<KV<V>>, b: seq<KV<V>>, x: KV<V>)
    requires forall i | 0 <= i < |a| :: a[i].key <= x.key
    requires forall i | 0 <= i < |b| :: x.key < b[i].key
    ensures InsertLast(a + b, x) == a + [x] + b
  {
    if b == [] {
      assert a + b == a;
      assert a + [x] + b == a + [x];
    } else {
      var n := |b| - 1;
      assert (a + b)[..|a + b| - 1] == a + b[..n];
      InsertLastSplits(a, b[..n], x);
      assert b == b[..n] + [b[n]];
    }
  }

  lemma {:induction false} InsertLastKeeps<V>(s: seq<KV<V>>, x: KV<V>)
    requires Ascending(s)
    ensures Ascending(InsertLast(s, x))
    ensures multiset(InsertLast(s, x)) == multiset(s) + multiset{x}
  {
    if |s| == 0 || s[|s| - 1].key <= x.key {
    } else {
      var n := |s| - 1;
      InsertLastKeeps(s[..n], x);
      assert s == s[..n] + [s[n]];
      var r := InsertLast(s[..n], x);
      forall i | 0 <= i < |r| ensures r[i].key <= s[n].key {
        assert r[i] in multiset(r);
        assert r[i] in multiset(s[..n]) || r[i] == x;
      }
    }
  }

  /** The stable sort orders the pairs and neither drops nor invents one. */
  lemma {:induction false} StableSortSorts<V>(s: seq<KV<V>>)
    ensures Ascending(StableSort(s))
    ensures multiset(StableSort(s)) == multiset(s)
  {
    if s != [] {
      var n := |s| - 1;
      StableSortSorts(s[..n]);
      InsertLastKeeps(StableSort(s[..n]), s[n]);
      assert s == s[..n] + [s[n]];
    }
  }

  lemma {:induction false} StableSortFixed<V>(s: seq<KV<V>>)
    requires Ascending(s)
    ensures StableSort(s) == s
  {
    hide InsertLast;
    if s != [] {
      var p, x := s[..|s| - 1], s[|s| - 1];
      assert s == p + [x];
      StableSortFixed(p);
      InsertLastSplits(p, [], x);
      assert p + [] == p && p + [x] + [] == s;
    }
  }

  lemma StableSortPushed<V>(s: seq<KV<V>>, x: KV<V>)
    requires Ascending(s)
    ensures StableSort(s + [x]) == InsertLast(s, x)
  {
    StableSortFixed(s);
    assert (s + [x])[..|s + [x]| - 1] == s;
  }

  lemma {:induction false} InsertLastFirst<V>(s: seq<KV<V>>, x: KV<V>)
    requires forall i | 0 <= i < |s| :: x.key < s[i].key
    ensures InsertLast(s, x) == [x] + s
  {
    if s == [] {
      assert s + [x] == [x] + s;
    } else {
      var n := |s| - 1;
      InsertLastFirst(s[..n], x);
      assert [x] + s[..n] + [s[n]] == [x] + s;
    }
  }

  /** A pair with a lesser key than all others comes first. */
  lemma StableSortFirst<V>(s: seq<KV<V>>, x: KV<V>)
    requires Ascending(s) && forall i | 0 <= i < |s| :: x.key < s[i].key
    ensures StableSort(s + [x]) == [x] + s
  {
    hide StableSort, InsertLast, Ascending;
    StableSortPushed(s, x);
    InsertLastFirst(s, x);
  }

  /** The finite map a list of pairs denotes; later pairs win. */
  ghost function ToMap<V>(s: seq<KV<V>>): map<Key, V> {
    if s == [] then map[] else ToMap(s[..|s| - 1])[s[|s| - 1].key := s[|s| - 1].val]
  }

  lemma SortedInit<V>(s: seq<KV<V>>)
    requires Sorted(s) && s != []
    ensures Sorted(s[..|s| - 1])
    ensures forall i | 0 <= i < |s| - 1 :: s[i].key != s[|s| - 1].key
  {}

  /** Adding one new pair anywhere in a sorted list adds exactly one binding to its map. */
  lemma {:induction false} ToMapInsert<V>(a: seq<KV<V>>, b: seq<KV<V>>, x: KV<V>)
    requires Sorted(a + [x] + b)
    ensures x.key !in ToMap(a + b)
    ensures ToMap(a + [x] + b) == ToMap(a + b)[x.key := x.val]
  {
    hide Sorted;
    var t := a + [x] + b;
    SortedInit(t);
    if b == [] {
      assert a + b == a && t == a + [x];
      forall k | k in ToMap(a) ensures k != x.key {
        ToMapFinds(a, k);
      }
    } else {
      var c, y := b[..|b| - 1], b[|b| - 1];
      assert (a + b)[..|a + b| - 1] == a + c;
      assert t[..|t| - 1] == a + [x] + c;
      assert t[|a|] == x && t[|t| - 1] == y;
      ToMapInsert(a, c, x);
    }
  }

  lemma {:induction false} ToMapFinds<V>(s: seq<KV<V>>, k: Key)
    requires k in ToMap(s)
    ensures exists i :: 0 <= i < |s| && s[i].key == k
  {
    if s != [] && s[|s| - 1].key != k {
      ToMapFinds(s[..|s| - 1], k);
    }
  }

  lemma {:induction false} ToMapAt<V>(s: seq<KV<V>>, i: nat)
    requires Sorted(s) && i < |s|
    ensures s[i].key in ToMap(s) && ToMap(s)[s[i].key] == s[i].val
  {
    if i < |s| - 1 {
      ToMapAt(s[..|s| - 1], i);
    }
  }
}
