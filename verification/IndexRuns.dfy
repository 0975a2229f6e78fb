/** What operations on an index come to: whole runs, on indexes of pages of at most four. */
module IndexRuns {
  import opened Prelude
  import opened KeyValues
  import opened IndexPage
  import opened IndexTree
  import opened IndexStore
  import opened IndexMerge
  import opened IndexSearch
  import opened IndexBorrow
  import opened IndexLend
  import opened IndexDelete
  import opened Index

  const FOURS: Config := Config(4, 4)

  const RID: RecordId := RecordId(0, 0)

  function Pair(key: Key): KV<RecordId> { KV(key, RID) }

  /** A root over two leaves. */
  ghost predicate TwoLeaves(t: Tree, m: Key, a: Tree, b: Tree) {
    t.InnerNode? && t.keys == [EMPTY_KEY, m] && t.kids == [a, b] && a.LeafNode? && b.LeafNode?
  }

  ghost function RightOf(t: Tree, a: Tree): Context
    requires t.InnerNode?
  {
    Frame(Top, t.id, t.keys, [a], [])
  }

  ghost function LeftOf(t: Tree, b: Tree): Context
    requires t.InnerNode?
  {
    Frame(Top, t.id, t.keys, [], [b])
  }

  lemma TwoDescent(t: Tree, m: Key, a: Tree, b: Tree, key: Key)
    requires TwoLeaves(t, m, a, b) && Shaped(t)
    ensures Descent(Top, t, key) == if m <= key then (RightOf(t, a), b) else (LeftOf(t, b), a)
  {
    var r := if m <= key then 1 else 0;
    RouteIs(t.keys, key, r);
    assert t.kids[..0] == [] && t.kids[..1] == [a] && t.kids[1..] == [b] && t.kids[2..] == [];
    assert Descent(Top, t, key) == Descent(Down(Top, t, r), t.kids[r], key);
  }

  // ---- six insertions, two deletions ------------------------------------------------------------------

  lemma Appended(kvs: seq<KV<RecordId>>, kv: KV<RecordId>)
    requires Sorted(kvs + [kv])
    ensures StableSort(kvs + [kv]) == kvs + [kv]
  {
    StableSortFixed(kvs + [kv]);
  }

  /** The root's leaf takes in a greatest pair. */
  lemma LeafGrows(before: Tree, kv: KV<RecordId>, after: Tree)
    requires before.LeafNode? && |before.kvs| < 4 && Sorted(before.kvs + [kv])
    requires Inserted(before, kv, FOURS, after)
    ensures after == LeafNode(before.id, before.kvs + [kv])
  {
    hide StableSort, Sorted;
    Appended(before.kvs, kv);
  }

  /** The fifth pair splits it. */
  lemma LeafSplits(before: Tree, kv: KV<RecordId>, after: Tree)
    requires before.LeafNode? && |before.kvs| == 4 && Sorted(before.kvs + [kv])
    requires Inserted(before, kv, FOURS, after)
    ensures after.InnerNode? && |after.kids| == 2
    ensures TwoLeaves(after, before.kvs[2].key, LeafNode(before.id, before.kvs[..2]),
                      LeafNode(after.kids[1].id, before.kvs[2..] + [kv]))
  {
    hide StableSort, Sorted;
    Appended(before.kvs, kv);
    var full := LeafNode(before.id, before.kvs + [kv]);
    var q, r :| Flat(RightHalf(full, q)) != [] && after == NewRoot(full, q, r);
    FlatLeaf(RightHalf(full, q));
    assert full.kvs[..2] == before.kvs[..2] && full.kvs[2..] == before.kvs[2..] + [kv];
  }

  /** The right one of two leaves takes in a greatest pair. */
  lemma RightGrows(before: Tree, m: Key, a: Tree, b: Tree, kv: KV<RecordId>, after: Tree)
    requires TwoLeaves(before, m, a, b) && |b.kvs| < 4 && Sorted(b.kvs + [kv]) && m <= kv.key
    requires Inserted(before, kv, FOURS, after)
    ensures after.InnerNode? && TwoLeaves(after, m, a, LeafNode(b.id, b.kvs + [kv]))
  {
    hide StableSort, Sorted;
    TwoDescent(before, m, a, b, kv.key);
    var c := RightOf(before, a);
    Appended(b.kvs, kv);
    var b' := LeafNode(b.id, b.kvs + [kv]);
    assert after == Plug(c, b') == InnerNode(before.id, before.keys, [a] + [b'] + []);
    assert [a] + [b'] + [] == [a, b'];
  }

  /** The right one of two leaves loses a pair and is left with enough. */
  lemma RightShrinks(before: Tree, m: Key, a: Tree, b: Tree, key: Key, end: Ending)
    requires TwoLeaves(before, m, a, b) && m <= key && |Without(b.kvs, key)| >= 2
    requires Deleted(before, key, FOURS, end)
    ensures end.loan == None && TwoLeaves(end.tree, m, a, LeafNode(b.id, Without(b.kvs, key)))
  {
    hide Without;
    TwoDescent(before, m, a, b, key);
    var c := RightOf(before, a);
    var b' := LeafNode(b.id, Without(b.kvs, key));
    assert end.tree == Plug(c, b') == InnerNode(before.id, before.keys, [a] + [b'] + []);
    assert [a] + [b'] + [] == [a, b'];
  }

  /** The left one comes up short and borrows from the right one, whose first key is not the separator. */
  lemma LeftBorrows(before: Tree, m: Key, a: Tree, b: Tree, key: Key, end: Ending)
    requires TwoLeaves(before, m, a, b) && key < m && |Without(a.kvs, key)| == 1 && |b.kvs| > 2 && b.kvs[0].key != m
    requires Deleted(before, key, FOURS, end)
    ensures end.loan.Some?
    ensures TwoLeaves(end.tree, m, LeafNode(a.id, Without(a.kvs, key) + [b.kvs[0]]), LeafNode(b.id, b.kvs[1..]))
  {
    hide Without;
    TwoDescent(before, m, a, b, key);
    var c := LeftOf(before, b);
    var a' := LeafNode(a.id, Without(a.kvs, key));
    var l := Loan(FamilyOf(c, a', false), 0, true);
    assert l.f == Family(Top, before.id, [EMPTY_KEY, m], [], a', b, []);
    assert end == Lent(l) && LoanShape(l);
    var p := BorrowedParent(l.f, true);
    assert end.tree == p;
    var (x, y) := BorrowedPair(a', b, true);
    assert p.kids == [] + [x, y] + [] == [x, y];
  }

  /** The tree that is left: 5 is stored, and a search for it looks into the other leaf. */
  lemma FiveLost(t: Tree, a: PageId, b: PageId)
    requires TwoLeaves(t, 3, LeafNode(a, [Pair(1), Pair(5)]), LeafNode(b, [Pair(6), Pair(7)]))
    ensures Shaped(t) && Search(t, 5) == None && Pair(5) in Flat(t)
  {
    assert Shaped(t.kids[0]) && Shaped(t.kids[1]);
    NodeShaped(t);
    RouteIs(t.keys, 5, 1);
    SearchInto(t, 5);
    var kvs := [Pair(6), Pair(7)];
    assert kvs[1..] == [Pair(7)] && [Pair(7)][1..] == [];
    assert FindIn(kvs, 5) == None;
    FlatLeaf(t.kids[0]);
    KidStored(t, 0, Pair(5));
  }

  lemma SixSorted()
    ensures Sorted([Pair(1), Pair(2), Pair(3), Pair(5)] + [Pair(6)])
    ensures Sorted([Pair(3), Pair(5), Pair(6)] + [Pair(7)])
  {
  }

  /** An index of one leaf takes in a greatest pair. */
  method Grow(index: BPlusTreeIndex, key: Key)
    requires index.Valid() && index.cfg == FOURS && index.rootPageId != INVALID_PAGE_ID && key !in index.Contents()
    requires index.tree.LeafNode? && |index.tree.kvs| < 4 && Sorted(index.tree.kvs + [Pair(key)])
    modifies index`pages, index`rootPageId, index`tree, index`height
    ensures index.Valid() && index.rootPageId != INVALID_PAGE_ID
    ensures index.tree == LeafNode(old(index.tree.id), old(index.tree.kvs) + [Pair(key)])
    ensures forall k | k in index.Contents() :: k in old(index.Contents()) || k == key
  {
    hide Inserted, Sorted, BPlusTreeIndex.Valid, BPlusTreeIndex.Contents, BPlusTreeIndex.Pairs;
    ghost var before := index.tree;
    index.Insert(key, RID);
    LeafGrows(before, Pair(key), index.tree);
  }

  function Pairs(keys: seq<Key>): seq<KV<RecordId>> {
    seq(|keys|, i requires 0 <= i < |keys| => Pair(keys[i]))
  }

  /** Up to four pairs in ascending order make one leaf. */
  method OneLeaf(keys: seq<Key>) returns (index: BPlusTreeIndex)
    requires 1 <= |keys| <= 4 && forall i, j | 0 <= i < j < |keys| :: keys[i] < keys[j]
    ensures fresh(index) && index.Valid() && index.cfg == FOURS && index.rootPageId != INVALID_PAGE_ID
    ensures index.tree.LeafNode? && index.tree.kvs == Pairs(keys)
    ensures forall k | k in index.Contents() :: k in keys
  {
    index := new BPlusTreeIndex(4, 4);
    Start(index, keys[0]);
    assert Pairs(keys[..1]) == [Pair(keys[0])];
    hide Sorted, BPlusTreeIndex.Valid, BPlusTreeIndex.Contents, BPlusTreeIndex.Searchable;
    for n := 1 to |keys|
      invariant index.Valid() && index.cfg == FOURS && index.rootPageId != INVALID_PAGE_ID
      invariant index.tree.LeafNode? && index.tree.kvs == Pairs(keys[..n])
      invariant forall k | k in index.Contents() :: k in keys[..n]
    {
      PairsMore(keys, n);
      Grow(index, keys[n]);
    }
    assert keys[..|keys|] == keys;
  }

  lemma PairsMore(keys: seq<Key>, n: nat)
    requires n < |keys| && forall i, j | 0 <= i < j < |keys| :: keys[i] < keys[j]
    ensures Pairs(keys[..n + 1]) == Pairs(keys[..n]) + [Pair(keys[n])] && Sorted(Pairs(keys[..n + 1]))
    ensures keys[n] !in keys[..n]
    ensures forall k | k in keys[..n] || k == keys[n] :: k in keys[..n + 1]
  {
    assert keys[..n + 1] == keys[..n] + [keys[n]];
  }

  method Start(index: BPlusTreeIndex, key: Key)
    requires index.Valid() && index.cfg == FOURS && index.rootPageId == INVALID_PAGE_ID
    modifies index`pages, index`rootPageId, index`tree, index`height
    ensures index.Valid() && index.rootPageId != INVALID_PAGE_ID
    ensures index.tree == LeafNode(index.tree.id, [Pair(key)]) && index.Contents().Keys == {key}
  {
    hide Inserted, Sorted, BPlusTreeIndex.Valid, Flat;
    index.Insert(key, RID);
  }

  /** 1, 2, 3, 5, 6 and 7 come to two leaves with 3 between them. */
  method SixInserted() returns (index: BPlusTreeIndex, ghost a: PageId, ghost b: PageId)
    ensures fresh(index) && index.Valid() && index.cfg == FOURS && index.rootPageId != INVALID_PAGE_ID
    ensures TwoLeaves(index.tree, 3, LeafNode(a, [Pair(1), Pair(2)]),
                      LeafNode(b, [Pair(3), Pair(5), Pair(6), Pair(7)]))
  {
    SixSorted();
    hide Inserted, Sorted, BPlusTreeIndex.Valid, BPlusTreeIndex.Contents, BPlusTreeIndex.Pairs;
    hide BPlusTreeIndex.Searchable;
    index := OneLeaf([1, 2, 3, 5]);
    assert index.tree.kvs == [Pair(1), Pair(2), Pair(3), Pair(5)];
    ghost var t4 := index.tree;
    index.Insert(6, RID);
    LeafSplits(t4, Pair(6), index.tree);
    ghost var t5 := index.tree;
    a, b := t4.id, t5.kids[1].id;
    assert t4.kvs[..2] == [Pair(1), Pair(2)] && t4.kvs[2..] + [Pair(6)] == [Pair(3), Pair(5), Pair(6)];
    index.Insert(7, RID);
    RightGrows(t5, 3, LeafNode(a, [Pair(1), Pair(2)]), LeafNode(b, [Pair(3), Pair(5), Pair(6)]), Pair(7), index.tree);
    assert [Pair(3), Pair(5), Pair(6)] + [Pair(7)] == [Pair(3), Pair(5), Pair(6), Pair(7)];
  }

  lemma ThreeAndTwoOut()
    ensures Without([Pair(3), Pair(5), Pair(6), Pair(7)], 3) == [Pair(5), Pair(6), Pair(7)]
    ensures Without([Pair(1), Pair(2)], 2) == [Pair(1)]
  {
    WithoutOne([Pair(3), Pair(5), Pair(6), Pair(7)], 3, 0);
    WithoutOne([Pair(1), Pair(2)], 2, 1);
  }

  /**
   * Insert 1, 2, 3, 5, 6 and 7, delete 3 and then 2: the leaf of 1 and 2 comes up short and borrows 5, the separator
   * between the leaves is still 3, and `get` no longer finds 5.
   */
  method StaleDeleteRuns() returns (r: Option<RecordId>, ghost kept: bool)
    ensures r == None && kept
  {
    hide Deleted, Shaped, Search, AllFound, Exact, Outcome, LoanShape, Flat, Without, ToMap, Sorted, Ordered, Stored;
    hide Owned, Placed;
    ThreeAndTwoOut();
    var index;
    ghost var a, b, loan, merges;
    index, a, b := SixInserted();
    ghost var before := index.tree;
    ghost var left, right := LeafNode(a, [Pair(1), Pair(2)]), LeafNode(b, [Pair(3), Pair(5), Pair(6), Pair(7)]);
    loan, merges := index.Delete(3);
    RightShrinks(before, 3, left, right, 3, Ending(index.tree, loan));
    before, right := index.tree, LeafNode(b, [Pair(5), Pair(6), Pair(7)]);
    loan, merges := index.Delete(2);
    LeftBorrows(before, 3, left, right, 2, Ending(index.tree, loan));
    assert right.kvs[1..] == [Pair(6), Pair(7)] && [Pair(1)] + [right.kvs[0]] == [Pair(1), Pair(5)];
    FiveLost(index.tree, a, b);
    kept := Pair(5) in index.Pairs();
    r := index.Get(5);
  }

  // ---- a short leaf between two that can spare --------------------------------------------------------

  /** A root over three leaves. */
  ghost predicate ThreeLeaves(t: Tree, m: Key, n: Key, a: Tree, b: Tree, c: Tree) {
    && t.InnerNode? && t.keys == [EMPTY_KEY, m, n] && m < n && t.kids == [a, b, c]
    && a.LeafNode? && b.LeafNode? && c.LeafNode?
  }

  /** The page around its leaf `r`. */
  ghost function AroundLeaf(t: Tree, r: nat): Context
    requires t.InnerNode? && r < |t.kids|
  {
    Frame(Top, t.id, t.keys, t.kids[..r], t.kids[r + 1..])
  }

  lemma ThreeDescent(t: Tree, m: Key, n: Key, a: Tree, b: Tree, c: Tree, key: Key)
    requires ThreeLeaves(t, m, n, a, b, c) && Shaped(t)
    ensures var r := if key < m then 0 else if key < n then 1 else 2;
            Descent(Top, t, key) == (AroundLeaf(t, r), t.kids[r])
  {
    var r := if key < m then 0 else if key < n then 1 else 2;
    RouteIs(t.keys, key, r);
    assert Descent(Top, t, key) == Descent(Down(Top, t, r), t.kids[r], key);
  }

  /** A leaf put back in its place. */
  lemma ThreePlugged(t: Tree, m: Key, n: Key, a: Tree, b: Tree, c: Tree, r: nat, leaf: Tree)
    requires ThreeLeaves(t, m, n, a, b, c) && r < 3 && leaf.LeafNode?
    ensures var p := Plug(AroundLeaf(t, r), leaf);
            && p.InnerNode? && p.id == t.id
            && ThreeLeaves(p, m, n, if r == 0 then leaf else a, if r == 1 then leaf else b, if r == 2 then leaf else c)
  {
    assert t.kids[..r] + [leaf] + t.kids[r + 1..] == t.kids[r := leaf];
  }

  /** A leaf of three takes in a greatest pair of its own. */
  lemma OneGrows(t: Tree, m: Key, n: Key, a: Tree, b: Tree, c: Tree, r: nat, kv: KV<RecordId>, after: Tree)
    requires ThreeLeaves(t, m, n, a, b, c) && r == (if kv.key < m then 0 else if kv.key < n then 1 else 2)
    requires |t.kids[r].kvs| < 4 && Sorted(t.kids[r].kvs + [kv])
    requires Inserted(t, kv, FOURS, after)
    ensures var leaf := LeafNode(t.kids[r].id, t.kids[r].kvs + [kv]);
            ThreeLeaves(after, m, n, if r == 0 then leaf else a, if r == 1 then leaf else b, if r == 2 then leaf else c)
  {
    hide StableSort, Sorted;
    ThreeDescent(t, m, n, a, b, c, kv.key);
    Appended(t.kids[r].kvs, kv);
    ThreePlugged(t, m, n, a, b, c, r, LeafNode(t.kids[r].id, t.kids[r].kvs + [kv]));
  }

  /** The right one of two full leaves splits. */
  lemma RightSplits(before: Tree, m: Key, a: Tree, b: Tree, kv: KV<RecordId>, after: Tree)
    requires TwoLeaves(before, m, a, b) && |b.kvs| == 4 && Sorted(b.kvs + [kv]) && m <= b.kvs[0].key
    requires Inserted(before, kv, FOURS, after)
    ensures after.InnerNode? && |after.kids| == 3
    ensures ThreeLeaves(after, m, b.kvs[2].key, a, LeafNode(b.id, b.kvs[..2]),
                        LeafNode(after.kids[2].id, b.kvs[2..] + [kv]))
  {
    hide StableSort;
    assert b.kvs[0].key < b.kvs[2].key && m <= kv.key by { SplitKeys(b.kvs, kv); }
    hide Sorted;
    TwoDescent(before, m, a, b, kv.key);
    Appended(b.kvs, kv);
    var full, c := LeafNode(b.id, b.kvs + [kv]), RightOf(before, a);
    assert ClimbsTo(c, full, FOURS, after);
    var l := LeftHalf(full);
    var q :| Flat(RightHalf(full, q)) != []
             && ClimbsTo(Top, Adopt(c, l, Flat(RightHalf(full, q))[0].key, RightHalf(full, q)), FOURS, after);
    FlatLeaf(RightHalf(full, q));
    assert full.kvs[..2] == b.kvs[..2] && full.kvs[2..] == b.kvs[2..] + [kv];
    assert [EMPTY_KEY, m][..2] == [EMPTY_KEY, m] && [EMPTY_KEY, m][2..] == [];
    assert [a] + [LeftHalf(full), RightHalf(full, q)] + [] == [a, LeftHalf(full), RightHalf(full, q)];
  }

  lemma SplitKeys(kvs: seq<KV<RecordId>>, kv: KV<RecordId>)
    requires |kvs| == 4 && Sorted(kvs + [kv])
    ensures kvs[0].key < kvs[2].key && kvs[0].key < kv.key
  {
    var all := kvs + [kv];
    assert all[0] == kvs[0] && all[2] == kvs[2] && all[4] == kv;
  }

  /** The last of three leaves loses a pair and is left with enough. */
  lemma LastShrinks(t: Tree, m: Key, n: Key, a: Tree, b: Tree, c: Tree, key: Key, end: Ending)
    requires ThreeLeaves(t, m, n, a, b, c) && n <= key && |Without(c.kvs, key)| >= 2
    requires Deleted(t, key, FOURS, end)
    ensures end.loan == None && ThreeLeaves(end.tree, m, n, a, b, LeafNode(c.id, Without(c.kvs, key)))
  {
    hide Without;
    ThreeDescent(t, m, n, a, b, c, key);
    ThreePlugged(t, m, n, a, b, c, 2, LeafNode(c.id, Without(c.kvs, key)));
  }

  /** The middle one comes up short: whatever the right one could spare, it borrows from the left one. */
  lemma MiddleBorrows(t: Tree, m: Key, n: Key, a: Tree, b: Tree, c: Tree, key: Key, end: Ending)
    requires ThreeLeaves(t, m, n, a, b, c) && m <= key < n && |Without(b.kvs, key)| == 1 && |a.kvs| == 3
    requires Without(b.kvs, key)[0].key == m
    requires Deleted(t, key, FOURS, end)
    ensures end.loan.Some? && !end.loan.value.fromRight
    ensures end.tree.InnerNode? && end.tree.keys == [EMPTY_KEY, a.kvs[2].key, n]
    ensures end.tree.kids == [LeafNode(a.id, a.kvs[..2]), LeafNode(b.id, [a.kvs[2]] + Without(b.kvs, key)), c]
  {
    hide Without;
    ThreeDescent(t, m, n, a, b, c, key);
    var b' := LeafNode(b.id, Without(b.kvs, key));
    var around := AroundLeaf(t, 1);
    assert around.left == [a] && around.right == [c];
    var l := Loan(FamilyOf(around, b', true), 0, false);
    assert l.f == Family(Top, t.id, [EMPTY_KEY, m, n], [], a, b', [c]);
    assert end == Lent(l) && LoanShape(l);
    var p := BorrowedParent(l.f, false);
    assert end.tree == p;
    var (x, y) := BorrowedPair(a, b', false);
    assert y.kvs[0] == a.kvs[2];
    assert p.kids == [] + [x, y] + [c] == [x, y, c];
    assert [EMPTY_KEY, m, n][1 := a.kvs[2].key] == [EMPTY_KEY, a.kvs[2].key, n];
  }

  lemma NineSorted()
    ensures Sorted([Pair(1), Pair(2), Pair(5), Pair(6)] + [Pair(7)])
    ensures Sorted([Pair(5), Pair(6), Pair(7)] + [Pair(8)]) && Sorted([Pair(5), Pair(6), Pair(7), Pair(8)] + [Pair(9)])
    ensures Sorted([Pair(7), Pair(8), Pair(9)] + [Pair(10)]) && Sorted([Pair(1), Pair(2)] + [Pair(3)])
  {
  }

  method SixTwos() returns (index: BPlusTreeIndex, ghost a: PageId, ghost b: PageId)
    ensures fresh(index) && index.Valid() && index.cfg == FOURS && index.rootPageId != INVALID_PAGE_ID
    ensures TwoLeaves(index.tree, 5, LeafNode(a, [Pair(1), Pair(2)]),
                      LeafNode(b, [Pair(5), Pair(6), Pair(7), Pair(8)]))
    ensures forall k | k in index.Contents() :: k in [1, 2, 5, 6, 7, 8]
  {
    NineSorted();
    hide Inserted, Sorted, BPlusTreeIndex.Valid, BPlusTreeIndex.Contents, BPlusTreeIndex.Pairs;
    hide BPlusTreeIndex.Searchable;
    index := OneLeaf([1, 2, 5, 6]);
    assert index.tree.kvs == [Pair(1), Pair(2), Pair(5), Pair(6)];
    ghost var t4 := index.tree;
    index.Insert(7, RID);
    LeafSplits(t4, Pair(7), index.tree);
    ghost var t5 := index.tree;
    a, b := t4.id, t5.kids[1].id;
    assert t4.kvs[..2] == [Pair(1), Pair(2)] && t4.kvs[2..] + [Pair(7)] == [Pair(5), Pair(6), Pair(7)];
    index.Insert(8, RID);
    RightGrows(t5, 5, LeafNode(a, [Pair(1), Pair(2)]), LeafNode(b, [Pair(5), Pair(6), Pair(7)]), Pair(8), index.tree);
    assert [Pair(5), Pair(6), Pair(7)] + [Pair(8)] == [Pair(5), Pair(6), Pair(7), Pair(8)];
  }

  method NineInserted() returns (index: BPlusTreeIndex, ghost a: PageId, ghost b: PageId, ghost c: PageId)
    ensures fresh(index) && index.Valid() && index.cfg == FOURS && index.rootPageId != INVALID_PAGE_ID
    ensures ThreeLeaves(index.tree, 5, 7, LeafNode(a, [Pair(1), Pair(2), Pair(3)]), LeafNode(b, [Pair(5), Pair(6)]),
                        LeafNode(c, [Pair(7), Pair(8), Pair(9), Pair(10)]))
  {
    NineSorted();
    hide Inserted, Sorted, BPlusTreeIndex.Valid, BPlusTreeIndex.Contents, BPlusTreeIndex.Pairs;
    hide BPlusTreeIndex.Searchable;
    index, a, b := SixTwos();
    ghost var t6, left := index.tree, LeafNode(a, [Pair(1), Pair(2)]);
    ghost var full := LeafNode(b, [Pair(5), Pair(6), Pair(7), Pair(8)]);
    index.Insert(9, RID);
    RightSplits(t6, 5, left, full, Pair(9), index.tree);
    ghost var t7 := index.tree;
    c := t7.kids[2].id;
    ghost var middle := LeafNode(b, [Pair(5), Pair(6)]);
    assert full.kvs[..2] == middle.kvs && full.kvs[2..] + [Pair(9)] == [Pair(7), Pair(8), Pair(9)];
    index.Insert(10, RID);
    OneGrows(t7, 5, 7, left, middle, LeafNode(c, [Pair(7), Pair(8), Pair(9)]), 2, Pair(10), index.tree);
    ghost var t8, right := index.tree, LeafNode(c, [Pair(7), Pair(8), Pair(9), Pair(10)]);
    assert [Pair(7), Pair(8), Pair(9)] + [Pair(10)] == right.kvs;
    index.Insert(3, RID);
    OneGrows(t8, 5, 7, left, middle, right, 0, Pair(3), index.tree);
    assert [Pair(1), Pair(2)] + [Pair(3)] == [Pair(1), Pair(2), Pair(3)];
  }

  lemma SevenAndSixOut()
    ensures Without([Pair(7), Pair(8), Pair(9), Pair(10)], 7) == [Pair(8), Pair(9), Pair(10)]
    ensures Without([Pair(5), Pair(6)], 6) == [Pair(5)]
  {
    WithoutOne([Pair(7), Pair(8), Pair(9), Pair(10)], 7, 0);
    WithoutOne([Pair(5), Pair(6)], 6, 1);
  }

  lemma EightFound(t: Tree, a: PageId, b: PageId, c: PageId)
    requires t.InnerNode? && t.keys == [EMPTY_KEY, 3, 7]
    requires t.kids == [LeafNode(a, [Pair(1), Pair(2)]), LeafNode(b, [Pair(3), Pair(5)]),
                        LeafNode(c, [Pair(8), Pair(9), Pair(10)])]
    ensures Shaped(t) && Search(t, 8) == Some(RID)
  {
    assert Shaped(t.kids[0]) && Shaped(t.kids[1]) && Shaped(t.kids[2]);
    NodeShaped(t);
    RouteIs(t.keys, 8, 2);
    SearchInto(t, 8);
  }

  /**
   * Insert 1, 2, 5, 6, 7, 8, 9, 10 and 3, delete 7 and then 6: the leaf of 5 and 6 comes up short between two leaves
   * that can both spare a pair. It borrows from the left one, under whose separator all is well, and 8 is still found.
   */
  method LeftAskedFirst() returns (r: Option<RecordId>, ghost fromLeft: bool)
    ensures r == Some(RID) && fromLeft
  {
    hide Deleted, DeletedBy, Shaped, Search, AllFound, Exact, Outcome, LoanShape, Flat, Without, ToMap, Sorted, Ordered;
    hide Stored, Owned, Placed, LoanDue, MergeDue;
    SevenAndSixOut();
    var index;
    ghost var a, b, c, loan, merges;
    index, a, b, c := NineInserted();
    ghost var before, left := index.tree, LeafNode(a, [Pair(1), Pair(2), Pair(3)]);
    ghost var middle, right := LeafNode(b, [Pair(5), Pair(6)]), LeafNode(c, [Pair(7), Pair(8), Pair(9), Pair(10)]);
    loan, merges := index.Delete(7);
    LastShrinks(before, 5, 7, left, middle, right, 7, Ending(index.tree, loan));
    before, right := index.tree, LeafNode(c, [Pair(8), Pair(9), Pair(10)]);
    loan, merges := index.Delete(6);
    MiddleBorrows(before, 5, 7, left, middle, right, 6, Ending(index.tree, loan));
    fromLeft := !loan.value.fromRight;
    assert left.kvs[..2] == [Pair(1), Pair(2)] && [left.kvs[2]] + [Pair(5)] == [Pair(3), Pair(5)];
    EightFound(index.tree, a, b, c);
    r := index.Get(8);
  }

  // ---- one deletion from an index in order ------------------------------------------------------------

  function LeftPage(): Tree {
    InnerNode(2, [EMPTY_KEY, 10, 20],
              [LeafNode(4, [Pair(1), Pair(2)]), LeafNode(5, [Pair(10), Pair(11)]), LeafNode(6, [Pair(20), Pair(21)])])
  }

  function RightPage(): Tree {
    InnerNode(3, [30, 40], [LeafNode(7, [Pair(30), Pair(31)]), LeafNode(8, [Pair(40), Pair(41)])])
  }

  /** Five leaves of two below two inner pages: nothing to spare but on the left inner page. */
  function FiveLeaves(): Tree { InnerNode(1, [EMPTY_KEY, 30], [LeftPage(), RightPage()]) }

  function EightPages(): Pages {
    map[1 := Internal([KV(EMPTY_KEY, 2), KV(30, 3)], 4),
        2 := Internal([KV(EMPTY_KEY, 4), KV(10, 5), KV(20, 6)], 4), 3 := Internal([KV(30, 7), KV(40, 8)], 4),
        4 := Leaf([Pair(1), Pair(2)], 4, 5), 5 := Leaf([Pair(10), Pair(11)], 4, 6),
        6 := Leaf([Pair(20), Pair(21)], 4, 7), 7 := Leaf([Pair(30), Pair(31)], 4, 8),
        8 := Leaf([Pair(40), Pair(41)], 4, INVALID_PAGE_ID)]
  }

  lemma LeftOrdered()
    ensures Ordered(LeftPage(), 1, EMPTY_KEY, Some(30), FOURS) && Fits(LeftPage(), FOURS)
  {
    var t := LeftPage();
    forall i | 0 <= i < |t.kids|
      ensures Fits(t.kids[i], FOURS)
              && Ordered(t.kids[i], 0, KidLo(t.keys, i, EMPTY_KEY), KidHi(t.keys, i, Some(30)), FOURS)
    {
    }
  }

  lemma RightOrdered()
    ensures Ordered(RightPage(), 1, 30, None, FOURS) && Fits(RightPage(), FOURS)
  {
    var t := RightPage();
    forall i | 0 <= i < |t.kids|
      ensures Fits(t.kids[i], FOURS) && Ordered(t.kids[i], 0, KidLo(t.keys, i, 30), KidHi(t.keys, i, None), FOURS)
    {
    }
  }

  lemma FiveOrdered()
    ensures WellFormed(FiveLeaves(), 2, FOURS)
  {
    LeftOrdered();
    RightOrdered();
    hide Fits, LeftPage, RightPage;
    var t := FiveLeaves();
    forall i | 0 <= i < |t.kids|
      ensures Fits(t.kids[i], FOURS)
              && Ordered(t.kids[i], 1, KidLo(t.keys, i, EMPTY_KEY), KidHi(t.keys, i, None), FOURS)
    {
    }
  }

  /** An inner page over one leaf more than the list so far. */
  lemma ListGrows(pages: Pages, t: Tree, rest: seq<Tree>, next: PageId)
    requires Stored(pages, t, FirstOf(rest, next), FOURS) && ListStored(pages, rest, next, FOURS)
    ensures ListStored(pages, [t] + rest, next, FOURS)
  {
    assert ([t] + rest)[1..] == rest;
  }

  lemma LeftStored()
    ensures Stored(EightPages(), LeftPage(), 7, FOURS)
  {
    var t, pages := LeftPage(), EightPages();
    var a, b, c := t.kids[0], t.kids[1], t.kids[2];
    assert Stored(pages, a, 5, FOURS) && Stored(pages, b, 6, FOURS) && Stored(pages, c, 7, FOURS);
    assert Entries(t.keys, t.kids) == [KV(EMPTY_KEY, 4), KV(10, 5), KV(20, 6)];
    hide Stored, ListStored;
    ListStoredOne(pages, c, 7, FOURS);
    ListGrows(pages, b, [c], 7);
    ListGrows(pages, a, [b] + [c], 7);
    assert t.kids == [a] + ([b] + [c]);
    KidsOfList(pages, t, 7, FOURS);
    InnerStored(pages, t, 7, FOURS);
  }

  lemma RightStored()
    ensures Stored(EightPages(), RightPage(), INVALID_PAGE_ID, FOURS)
  {
    var t, pages := RightPage(), EightPages();
    var a, b := t.kids[0], t.kids[1];
    assert Stored(pages, a, 8, FOURS) && Stored(pages, b, INVALID_PAGE_ID, FOURS);
    assert Entries(t.keys, t.kids) == [KV(30, 7), KV(40, 8)];
    hide Stored, ListStored;
    ListStoredOne(pages, b, INVALID_PAGE_ID, FOURS);
    ListGrows(pages, a, [b], INVALID_PAGE_ID);
    assert t.kids == [a] + [b];
    KidsOfList(pages, t, INVALID_PAGE_ID, FOURS);
    InnerStored(pages, t, INVALID_PAGE_ID, FOURS);
  }

  lemma FiveStored()
    ensures Stored(EightPages(), FiveLeaves(), INVALID_PAGE_ID, FOURS)
  {
    LeftStored();
    RightStored();
    var t, pages, l, r := FiveLeaves(), EightPages(), LeftPage(), RightPage();
    assert Entries(t.keys, t.kids) == [KV(EMPTY_KEY, 2), KV(30, 3)];
    assert FirstOf([r], INVALID_PAGE_ID) == 7;
    hide Stored, ListStored;
    ListStoredOne(pages, r, INVALID_PAGE_ID, FOURS);
    ListGrows(pages, l, [r], INVALID_PAGE_ID);
    assert t.kids == [l] + [r];
    KidsOfList(pages, t, INVALID_PAGE_ID, FOURS);
    InnerStored(pages, t, INVALID_PAGE_ID, FOURS);
  }

  lemma LeafId(t: Tree)
    requires t.LeafNode?
    ensures Ids(t) == multiset{t.id}
  {
  }

  lemma TwoIds(t: Tree, a: Tree, b: Tree)
    requires t.InnerNode? && t.kids == [a] + [b]
    ensures Ids(t) == multiset{t.id} + (Ids(a) + Ids(b))
  {
    IdsAppend([a], [b]);
    assert [a][1..] == [] && [b][1..] == [];
  }

  lemma ThreeIds(t: Tree, a: Tree, b: Tree, c: Tree)
    requires t.InnerNode? && t.kids == [a] + [b] + [c]
    ensures Ids(t) == multiset{t.id} + (Ids(a) + Ids(b) + Ids(c))
  {
    IdsAround([a], b, [c]);
    assert [a][1..] == [] && [c][1..] == [];
  }

  lemma FiveOwned()
    ensures Owned(EightPages(), Ids(FiveLeaves()))
  {
    var l, r := LeftPage().kids, RightPage().kids;
    LeafId(l[0]);
    LeafId(l[1]);
    LeafId(l[2]);
    LeafId(r[0]);
    LeafId(r[1]);
    hide Ids;
    assert l == [l[0]] + [l[1]] + [l[2]] && r == [r[0]] + [r[1]];
    ThreeIds(LeftPage(), l[0], l[1], l[2]);
    TwoIds(RightPage(), r[0], r[1]);
    assert FiveLeaves().kids == [LeftPage()] + [RightPage()];
    TwoIds(FiveLeaves(), LeftPage(), RightPage());
    EightOwned();
  }

  lemma EightOwned()
    ensures Owned(EightPages(), multiset{1} + ((multiset{2} + (multiset{4} + multiset{5} + multiset{6}))
                                               + (multiset{3} + (multiset{7} + multiset{8}))))
  {
  }

  function LastMerged(): Tree { LeafNode(7, [Pair(30), Pair(31), Pair(40)]) }

  /** Once its two leaves are one, the right inner page is short. */
  function Shortened(): Tree { InnerNode(3, [30], [LastMerged()]) }

  /** It takes the left page's last leaf behind its own, under a lesser key. */
  function Jumbled(): Tree {
    var l := LeftPage();
    InnerNode(1, [EMPTY_KEY, 1],
              [InnerNode(2, [EMPTY_KEY, 10], [l.kids[0], l.kids[1]]),
               InnerNode(3, [30, 20], [LastMerged(), l.kids[2]])])
  }

  ghost function RootHole(): Context { Frame(Top, 1, [EMPTY_KEY, 30], [LeftPage()], []) }

  ghost function LeafHole(): Context { Frame(RootHole(), 3, [30, 40], [RightPage().kids[0]], []) }

  lemma FiveDescent()
    requires Shaped(FiveLeaves())
    ensures Descent(Top, FiveLeaves(), 41) == (LeafHole(), RightPage().kids[1])
  {
    var t, r := FiveLeaves(), RightPage();
    assert t.kids[1] == r && t.kids[..1] == [LeftPage()] && t.kids[2..] == [];
    assert r.kids[..1] == [r.kids[0]] && r.kids[2..] == [];
    RouteIs(t.keys, 41, 1);
    RouteIs(r.keys, 41, 1);
    assert Down(Top, t, 1) == RootHole() && Down(RootHole(), r, 1) == LeafHole();
    assert Shaped(r);
    hide Shaped, Route, FiveLeaves, RightPage, LeftPage, RootHole, LeafHole;
    assert Descent(Top, t, 41) == Descent(RootHole(), r, 41);
    assert Descent(RootHole(), r, 41) == Descent(LeafHole(), r.kids[1], 41);
  }

  /** The leaf of 40 is merged with the one before it. */
  lemma LeavesMerge()
    ensures var t' := LeafNode(8, [Pair(40)]);
            Mended(LeafHole(), t', 0, FOURS) == Mended(RootHole(), Shortened(), 1, FOURS)
  {
    var c, t' := LeafHole(), LeafNode(8, [Pair(40)]);
    var f := FamilyOf(c, t', true);
    var a := RightPage().kids[0];
    assert f == Family(RootHole(), 3, [30, 40], [], a, t', []);
    assert Merged(a, t') == LastMerged();
    assert MergedParent(f) == Shortened();
    hide RootHole, Shortened;
  }

  ghost function LastLoan(): Loan {
    Loan(Family(Top, 1, [EMPTY_KEY, 30], [], LeftPage(), Shortened(), []), 1, false)
  }

  /** The inner page then borrows from the left. */
  lemma PagesLend()
    ensures Mended(RootHole(), Shortened(), 1, FOURS) == Ending(Jumbled(), Some(LastLoan()))
  {
    var l, c := LastLoan(), RootHole();
    assert FamilyOf(c, Shortened(), true) == l.f;
    assert LoanShape(l);
    LentJumbled();
    assert Outcome(l) == Jumbled();
    hide Outcome, LoanShape, Jumbled;
  }

  lemma LentJumbled()
    requires LendShape(LastLoan().f, false)
    ensures LentParent(LastLoan().f, false) == Jumbled()
  {
    var f, l, r := LastLoan().f, LeftPage(), Shortened();
    var first, x := Slots(r)[0], Slots(l)[2];
    assert Slots(r) == [first] && Slots(r)[1..] == [];
    TakenFirst(Slots(r), x);
    assert TakenIn(Slots(r), x) == [first, x];
    assert Slots(l)[..2] == [KV(EMPTY_KEY, l.kids[0]), KV(10, l.kids[1])];
    assert LeastKey(LenderFirst(f, false)) == 1 by { FlatLeaf(l.kids[0]); }
    hide LeastKey, TakenIn, StableSort;
    var (a, b) := LentPair(l, r, false);
    assert a == Jumbled().kids[0] && b == Jumbled().kids[1];
    assert [] + [a, b] + [] == [a, b];
  }

  /** 30 is stored, but a search for it is led to the leaf of 20 and 21. */
  lemma ThirtyLost()
    ensures Shaped(Jumbled()) && Search(Jumbled(), 30) == None && Pair(30) in Flat(Jumbled())
  {
    var t, l := Jumbled(), LeftPage();
    var b := t.kids[1];
    assert Shaped(LastMerged()) && Shaped(l.kids[0]) && Shaped(l.kids[1]) && Shaped(l.kids[2]);
    NodeShaped(t.kids[0]);
    NodeShaped(b);
    NodeShaped(t);
    RouteIs(t.keys, 30, 1);
    RouteIs(b.keys, 30, 1);
    SearchInto(t, 30);
    SearchInto(b, 30);
    var kvs := [Pair(20), Pair(21)];
    assert kvs[1..] == [Pair(21)] && [Pair(21)][1..] == [];
    assert FindIn(kvs, 30) == None;
    hide Flat, Shaped, Search;
    FlatLeaf(LastMerged());
    KidStored(b, 0, Pair(30));
    KidStored(t, 1, Pair(30));
  }

  lemma FortyOneOut()
    ensures Without(RightPage().kids[1].kvs, 41) == [Pair(40)]
  {
    WithoutOne([Pair(40), Pair(41)], 41, 1);
  }

  lemma FiveDeleted(end: Ending)
    requires Deleted(FiveLeaves(), 41, FOURS, end)
    ensures end == Ending(Jumbled(), Some(LastLoan()))
  {
    FiveDescent();
    FortyOneOut();
    LeavesMerge();
    PagesLend();
    hide Mended, Descent, LeafHole, RootHole, Jumbled, LastLoan, FiveLeaves, Without;
  }

  lemma FiveRoot()
    ensures FiveLeaves().id == 1
  {
  }

  method FiveIndex() returns (index: BPlusTreeIndex)
    ensures fresh(index) && index.Valid() && index.cfg == FOURS && index.rootPageId != INVALID_PAGE_ID
    ensures index.tree == FiveLeaves()
  {
    hide WellFormed, Stored, Owned, EightPages, FiveLeaves, Ids, Placed, Shaped, Flat, BPlusTreeIndex.Searchable;
    FiveRoot();
    FiveOrdered();
    FiveStored();
    FiveOwned();
    index := new BPlusTreeIndex(4, 4);
    index.pages, index.rootPageId, index.tree, index.height := EightPages(), 1, FiveLeaves(), 2;
  }

  /**
   * An index in order from which 41 is deleted: its leaf is merged away, the inner page above borrows a leaf from its
   * left sibling, and `get` no longer finds 30.
   */
  method LeftLendRuns() returns (r: Option<RecordId>, ghost kept: bool)
    ensures r == None && kept
  {
    ThirtyLost();
    hide Deleted, Shaped, Search, AllFound, Exact, Outcome, LoanShape, Flat, Without, Placed, FiveLeaves, Jumbled;
    hide LastLoan, BPlusTreeIndex.Valid, BPlusTreeIndex.Searchable;
    var index := FiveIndex();
    ghost var loan, merges := index.Delete(41);
    FiveDeleted(Ending(index.tree, loan));
    kept := Pair(30) in index.Pairs();
    r := index.Get(30);
  }
}
