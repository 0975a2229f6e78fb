/** The B+ tree index over stored pages (storage/index.rs): lookup, insertion and deletion. */
module Index {
  import opened Prelude
  import opened KeyValues
  import opened IndexPage
  import opened IndexTree
  import opened IndexStore
  import opened IndexMerge
  import opened IndexSearch
  import opened IndexBorrow
  import opened IndexLend
  import opened IndexDelete

  /** A decoded page being worked on in memory. */
  datatype BPlusTreePage = InternalObj(inner: InternalPage) | LeafObj(leaf: LeafPage)

  ghost predicate ValidPage(p: BPlusTreePage)
    reads match p case InternalObj(i) => {i as object} case LeafObj(l) => {l as object}
  {
    match p
    case InternalObj(i) => i.Valid()
    case LeafObj(l) => l.Valid()
  }

  ghost function ValueOf(p: BPlusTreePage): TreePage
    reads match p case InternalObj(i) => {i as object} case LeafObj(l) => {l as object}
  {
    match p
    case InternalObj(i) => i.Value()
    case LeafObj(l) => l.Value()
  }

  ghost function ObjectOf(p: BPlusTreePage): object {
    match p
    case InternalObj(i) => i
    case LeafObj(l) => l
  }

  /** A descent for `key` has reached subtree `t`, leaving context `c` behind. */
  ghost predicate Reached(pages: Pages, c: Context, t: Tree, h: nat, cfg: Config, key: Key) {
    && OrderedContext(c, h, cfg)
    && Ordered(t, h, Lo(c), Hi(c), cfg) && FitsHole(c, t, cfg)
    && Lo(c) <= key && Below(key, Hi(c))
    && Stored(pages, t, NextId(c), cfg)
    && ContextStored(pages, c, t.id, FirstLeaf(t), cfg)
    && Owned(pages, Ids(t) + ContextIds(c))
  }

  /** The slot a search follows leads to the subtree whose bounds contain the key. */
  lemma RouteBounds(t: Tree, h: nat, lo: Key, hi: Option<Key>, cfg: Config, key: Key, i: nat)
    requires t.InnerNode? && Ordered(t, h, lo, hi, cfg) && lo <= key && Below(key, hi)
    requires Routes(Entries(t.keys, t.kids), key, i)
    ensures i < |t.kids| == |t.keys|
    ensures KidLo(t.keys, i, lo) <= key && Below(key, KidHi(t.keys, i, hi))
  {
    var e := Entries(t.keys, t.kids);
    assert i >= 1 ==> e[i].key == t.keys[i];
    assert i + 1 < |t.keys| ==> e[i + 1].key == t.keys[i + 1];
  }

  lemma ReachedDown(pages: Pages, c: Context, t: Tree, h: nat, cfg: Config, key: Key, i: nat)
    requires Reached(pages, c, t, h, cfg, key) && t.InnerNode?
    requires Routes(Entries(t.keys, t.kids), key, i)
    ensures i < |t.kids| && h > 0
    ensures Reached(pages, Down(c, t, i), t.kids[i], h - 1, cfg, key)
    ensures Plug(Down(c, t, i), t.kids[i]) == Plug(c, t)
  {
    hide Ordered, OrderedContext, Stored, ContextStored, Routes, Owned, Ids, ContextIds, Plug, Lo, Hi, NextId;
    hide FirstLeaf;
    RouteBounds(t, h, Lo(c), Hi(c), cfg, key, i);
    ZipDown(c, t, h, cfg, i);
    StoredDown(pages, c, t, cfg, i);
    DownIds(c, t, i);
  }

  /** Slots 1.. of a stored inner page are sorted, and it has at least two of them in all. */
  lemma EntriesSorted(t: Tree, h: nat, lo: Key, hi: Option<Key>, cfg: Config)
    requires t.InnerNode? && Ordered(t, h, lo, hi, cfg)
    ensures SlotsSorted(Entries(t.keys, t.kids)) && |Entries(t.keys, t.kids)| == |t.kids|
  {}

  lemma BelowMember(s: seq<KV<RecordId>>, key: Key, x: KV<RecordId>)
    requires AllBelow(s, key) && x in s
    ensures x.key < key
  {}

  lemma AboveMember(s: seq<KV<RecordId>>, key: Key, x: KV<RecordId>)
    requires NoneBelow(s, Some(key + 1)) && x in s
    ensures key < x.key
  {}

  /** The page a descent stands on, and what makes a binary search over it safe. */
  lemma ReachedPage(pages: Pages, c: Context, t: Tree, h: nat, cfg: Config, key: Key)
    requires Reached(pages, c, t, h, cfg, key)
    ensures t.id in pages && pages[t.id] == PageOf(t, NextId(c), cfg)
    ensures t.InnerNode? ==>
              var e := Entries(t.keys, t.kids);
              SlotsSorted(e) && 2 <= |e| == |t.kids| && forall i | 0 <= i < |e| :: e[i].val == t.kids[i].id
    ensures t.LeafNode? ==> h == 0
  {
    hide OrderedContext, ContextStored, Owned;
    if t.InnerNode? { EntriesSorted(t, h, Lo(c), Hi(c), cfg); }
  }

  /** A descent in any tree of sorted pages steps down to the subtree a search continues in. */
  lemma SearchDown(pages: Pages, c: Context, t: Tree, cfg: Config, key: Key, i: nat)
    requires Shaped(t) && t.InnerNode? && Placed(pages, t, cfg)
    requires Routes(Entries(t.keys, t.kids), key, i)
    ensures i < |t.kids| && Shaped(t.kids[i]) && Search(t, key) == Search(t.kids[i], key)
    ensures Placed(pages, t.kids[i], cfg) && Descent(c, t, key) == Descent(Down(c, t, i), t.kids[i], key)
    ensures Plug(Down(c, t, i), t.kids[i]) == Plug(c, t)
    ensures Entries(t.keys, t.kids)[i].val == t.kids[i].id
  {
    var e := Entries(t.keys, t.kids);
    assert i >= 1 ==> e[i].key == t.keys[i];
    assert forall j | i < j < |t.keys| :: e[j].key == t.keys[j];
    RouteIs(t.keys, key, i);
    hide Shaped, Search, Routes, Entries;
    assert t.kids[..i] + [t.kids[i]] + t.kids[i + 1..] == t.kids;
  }

  lemma LeafSearch(t: Tree, key: Key)
    requires Shaped(t) && t.LeafNode?
    ensures Search(t, key) == FindIn(t.kvs, key)
  {
  }

  /** What makes a binary search over a page safe. */
  lemma SearchPage(pages: Pages, t: Tree, cfg: Config)
    requires Shaped(t) && Placed(pages, t, cfg)
    ensures t.id in pages
    ensures t.InnerNode? ==>
              && pages[t.id] == Internal(Entries(t.keys, t.kids), cfg.internalMax)
              && SlotsSorted(Entries(t.keys, t.kids)) && 2 <= |Entries(t.keys, t.kids)|
    ensures t.LeafNode? ==> pages[t.id].Leaf? && pages[t.id].kvs == t.kvs && Sorted(t.kvs)
  {
  }

  lemma ReachedTop(pages: Pages, t: Tree, h: nat, cfg: Config, key: Key)
    requires WellFormed(t, h, cfg) && Stored(pages, t, INVALID_PAGE_ID, cfg) && Owned(pages, Ids(t))
    ensures Reached(pages, Top, t, h, cfg, key) && Plug(Top, t) == t
  {
    assert Ids(t) + ContextIds(Top) == Ids(t);
  }

  /** The leaf a descent ends at lies between smaller and larger pairs. */
  lemma LeafPlace(c: Context, t: Tree, h: nat, cfg: Config, key: Key)
    requires t.LeafNode? && OrderedContext(c, h, cfg)
    requires Lo(c) <= key && Below(key, Hi(c))
    ensures Flat(Plug(c, t)) == FlatBefore(c) + t.kvs + FlatAfter(c)
    ensures AllBelow(FlatBefore(c), key) && NoneBelow(FlatAfter(c), Some(key + 1))
  {
    PlugLeaves(c, t);
    FlatLeaf(t);
    ContextBounds(c, h, cfg);
  }

  /** The leaf a descent ends at holds every pair of the tree with that key. */
  lemma LeafDecides(c: Context, t: Tree, h: nat, cfg: Config, key: Key)
    requires t.LeafNode? && OrderedContext(c, h, cfg)
    requires Lo(c) <= key && Below(key, Hi(c))
    ensures forall x | x in Flat(Plug(c, t)) && x.key == key :: x in t.kvs
    ensures forall x | x in t.kvs :: x in Flat(Plug(c, t))
  {
    LeafPlace(c, t, h, cfg, key);
    forall x | x in Flat(Plug(c, t)) && x.key == key ensures x in t.kvs {
      if x in FlatBefore(c) {
        BelowMember(FlatBefore(c), key, x);
      } else if x in FlatAfter(c) {
        AboveMember(FlatAfter(c), key, x);
      }
    }
  }

  /** In a sorted list, a pair is listed exactly when the map binds it. */
  lemma MapMember(s: seq<KV<RecordId>>, x: KV<RecordId>)
    requires Sorted(s) && x in s
    ensures x.key in ToMap(s) && ToMap(s)[x.key] == x.val
  {
    var i :| 0 <= i < |s| && s[i] == x;
    ToMapAt(s, i);
  }

  lemma MapBinds(s: seq<KV<RecordId>>, key: Key)
    requires Sorted(s) && key in ToMap(s)
    ensures KV(key, ToMap(s)[key]) in s
  {
    ToMapFinds(s, key);
    var i :| 0 <= i < |s| && s[i].key == key;
    ToMapAt(s, i);
    assert s[i] == KV(key, ToMap(s)[key]);
  }

  /** Where a new pair goes inside its leaf. */
  lemma {:induction false} SplitPoint(s: seq<KV<RecordId>>, key: Key) returns (n: nat)
    requires Sorted(s) && forall x | x in s :: x.key != key
    ensures n <= |s|
    ensures forall i | 0 <= i < n :: s[i].key < key
    ensures forall i | n <= i < |s| :: key < s[i].key
  {
    if s == [] {
      n := 0;
    } else if s[|s| - 1].key < key {
      n := |s|;
    } else {
      n := SplitPoint(s[..|s| - 1], key);
      assert s[|s| - 1] in s;
    }
  }

  /** Sorting a new pair into its leaf puts it between the smaller and the larger ones. */
  lemma LeafSorts(kvs: seq<KV<RecordId>>, kv: KV<RecordId>) returns (n: nat)
    requires Sorted(kvs) && forall x | x in kvs :: x.key != kv.key
    ensures n <= |kvs| && StableSort(kvs + [kv]) == kvs[..n] + [kv] + kvs[n..]
    ensures Sorted(StableSort(kvs + [kv]))
  {
    hide InsertLast, StableSort, Ascending;
    n := SplitPoint(kvs, kv.key);
    SortedAscends(kvs);
    assert kvs == kvs[..n] + kvs[n..];
    StableSortPushed(kvs, kv);
    InsertLastSplits(kvs[..n], kvs[n..], kv);
  }

  lemma SortedAscends(s: seq<KV<RecordId>>)
    requires Sorted(s)
    ensures Ascending(s)
  {}

  lemma LeafInFlight(pages: Pages, c: Context, t: Tree, h: nat, cfg: Config, kv: KV<RecordId>, n: nat)
    requires Reached(pages, c, t, h, cfg, kv.key) && t.LeafNode? && n <= |t.kvs|
    requires Sorted(t.kvs[..n] + [kv] + t.kvs[n..])
    ensures InFlight(pages, c, LeafNode(t.id, t.kvs[..n] + [kv] + t.kvs[n..]), h, cfg)
  {
    hide OrderedContext, ContextStored, Owned, ContextIds, Plug;
    var t' := LeafNode(t.id, t.kvs[..n] + [kv] + t.kvs[n..]);
    assert Within(t'.kvs, Lo(c), Hi(c));
  }

  /** Adding a new pair to the leaf it belongs in: the whole tree gains that pair, in order. */
  lemma LeafGains(pages: Pages, c: Context, t: Tree, h: nat, cfg: Config, kv: KV<RecordId>)
    requires Reached(pages, c, t, h, cfg, kv.key) && t.LeafNode?
    requires Sorted(Flat(Plug(c, t))) && kv.key !in ToMap(Flat(Plug(c, t)))
    ensures var t' := LeafNode(t.id, StableSort(t.kvs + [kv]));
            && InFlight(pages, c, t', h, cfg)
            && Sorted(Flat(Plug(c, t')))
            && ToMap(Flat(Plug(c, t'))) == ToMap(Flat(Plug(c, t)))[kv.key := kv.val]
  {
    hide OrderedContext, ContextStored, Stored, InFlight, Owned, Plug, Lo, Hi, FlatBefore, FlatAfter, Flat;
    hide ToMap, StableSort;
    hide Sorted, AllBelow, NoneBelow, Within, ContextIds, Ids;
    var key := kv.key;
    LeafDecides(c, t, h, cfg, key);
    LeafPlace(c, t, h, cfg, key);
    var s := Flat(Plug(c, t));
    forall x | x in t.kvs ensures x.key != key { MapMember(s, x); }
    LeafIsSorted(t, h, Lo(c), Hi(c), cfg);
    var n := LeafSorts(t.kvs, kv);
    var t' := LeafNode(t.id, t.kvs[..n] + [kv] + t.kvs[n..]);
    LeafInFlight(pages, c, t, h, cfg, kv, n);
    LeafPlace(c, t', h, cfg, key);
    var before, after := FlatBefore(c) + t.kvs[..n], t.kvs[n..] + FlatAfter(c);
    assert s == before + after;
    assert Flat(Plug(c, t')) == before + [kv] + after;
    SortedAround(FlatBefore(c), t'.kvs, FlatAfter(c), s, before, kv, after);
    ToMapInsert(before, after, kv);
  }

  lemma LeafIsSorted(t: Tree, h: nat, lo: Key, hi: Option<Key>, cfg: Config)
    requires t.LeafNode? && Ordered(t, h, lo, hi, cfg)
    ensures Sorted(t.kvs)
  {}

  lemma SortedAround(a: seq<KV<RecordId>>, m: seq<KV<RecordId>>, b: seq<KV<RecordId>>, s: seq<KV<RecordId>>,
                     before: seq<KV<RecordId>>, kv: KV<RecordId>, after: seq<KV<RecordId>>)
    requires a + m + b == before + [kv] + after && s == before + after && Sorted(s)
    requires AllBelow(a, kv.key) && NoneBelow(b, Some(kv.key + 1)) && Sorted(m)
    requires |a| <= |before| && |b| <= |after|
    ensures Sorted(before + [kv] + after)
  {
    var r, n := before + [kv] + after, |before|;
    assert r[n] == kv && (a + m + b)[n] == kv;
    forall i | 0 <= i < n ensures r[i] == s[i] && r[i].key < kv.key {
      if i < |a| { assert (a + m + b)[i] == a[i]; } else { assert (a + m + b)[i] == m[i - |a|] && kv == m[n - |a|]; }
    }
    forall i | n < i < |r| ensures r[i] == s[i - 1] && kv.key < r[i].key {
      if i < |a| + |m| { assert (a + m + b)[i] == m[i - |a|] && kv == m[n - |a|]; }
      else { assert (a + m + b)[i] == b[i - |a| - |m|]; }
    }
  }

  lemma {:induction false} FreshIdExists(ids: set<PageId>)
    ensures exists id: PageId :: id != INVALID_PAGE_ID && id !in ids
  {
    var b := Bound(ids);
    assert b + 1 !in ids;
  }

  lemma {:induction false} Bound(ids: set<PageId>) returns (b: PageId)
    ensures forall id | id in ids :: id <= b
  {
    if ids == {} {
      b := 0;
    } else {
      var x :| x in ids;
      var b' := Bound(ids - {x});
      b := if x > b' then x else b';
      forall id | id in ids ensures id <= b { assert id == x || id in ids - {x}; }
    }
  }

  class BPlusTreeIndex {
    const cfg: Config
    var rootPageId: PageId
    var pages: Pages
    /** Pages no longer in the tree but still allocated, since they were in use when they were to be deleted. */
    var orphans: Pages
    ghost var tree: Tree
    ghost var height: nat

    ghost predicate Valid() reads this {
      && cfg.internalMax >= 3 && cfg.leafMax >= 1
      && if rootPageId == INVALID_PAGE_ID then pages == map[] else
           && tree.id == rootPageId
           && WellFormed(tree, height, cfg)
           && Stored(pages, tree, INVALID_PAGE_ID, cfg)
           && Owned(pages, Ids(tree))
    }

    /** All pairs of the index, left to right. */
    ghost function Pairs(): seq<KV<RecordId>> reads this {
      if rootPageId == INVALID_PAGE_ID then [] else Flat(tree)
    }

    /** The finite map the index stands for. */
    ghost function Contents(): map<Key, RecordId> reads this { ToMap(Pairs()) }

    constructor (internalMaxSize: nat, leafMaxSize: nat)
      ensures internalMaxSize >= 3 && leafMaxSize >= 1 ==> Valid()
      ensures Searchable() && rootPageId == INVALID_PAGE_ID && Contents() == map[] && pages == map[] && orphans == map[]
      ensures cfg == Config(internalMaxSize, leafMaxSize)
    {
      cfg := Config(internalMaxSize, leafMaxSize);
      rootPageId, pages, orphans := INVALID_PAGE_ID, map[], map[];
      tree, height := LeafNode(INVALID_PAGE_ID, []), 0;
    }

    /** Any page id that is not in use. */
    method NewPage() returns (id: PageId)
      ensures id != INVALID_PAGE_ID && id !in pages && id !in orphans
    {
      FreshIdExists(pages.Keys + orphans.Keys);
      id :| id != INVALID_PAGE_ID && id !in pages.Keys + orphans.Keys;
    }

    method DecodePage(page: TreePage) returns (p: BPlusTreePage)
      ensures fresh(ObjectOf(p)) && ValidPage(p) && ValueOf(p) == page
    {
      if page.Internal? {
        var i := new InternalPage.Decode(page);
        p := InternalObj(i);
      } else {
        var l := new LeafPage.Decode(page);
        p := LeafObj(l);
      }
    }

    method FetchTreePage(id: PageId) returns (p: BPlusTreePage)
      requires id in pages
      ensures fresh(ObjectOf(p)) && ValidPage(p) && ValueOf(p) == pages[id]
    {
      p := DecodePage(pages[id]);
    }

    /** Encodes the page and stores it under `id`. */
    method SetData(id: PageId, p: BPlusTreePage)
      modifies this`pages
      ensures pages == old(pages)[id := old(ValueOf(p))]
    {
      match p
      case InternalObj(i) => pages := pages[id := Internal(i.slots, i.maxSize)];
      case LeafObj(l) => pages := pages[id := Leaf(l.slots, l.maxSize, l.nextPageId)];
    }

    /** What lookups need: sorted pages, wherever their separators lead. */
    ghost predicate Searchable() reads this {
      rootPageId != INVALID_PAGE_ID ==>
        tree.id == rootPageId && Shaped(tree) && Placed(pages, tree, cfg)
    }

    lemma ValidSearchable()
      requires Valid()
      ensures Searchable()
    {
      if rootPageId != INVALID_PAGE_ID {
        OrderedShaped(tree, height, EMPTY_KEY, None, cfg);
        StoredPlaced(pages, tree, INVALID_PAGE_ID, cfg);
      }
    }

    /**
     Descends for `key`, remembering the pages passed on the way: to the leaf a search looks into, which in a tree in
     order is the one responsible for the key.
     */
    method FindLeafPage(key: Key) returns (leafId: PageId, readSet: seq<PageId>, ghost c: Context, ghost t: Tree)
      requires Searchable() && rootPageId != INVALID_PAGE_ID
      ensures Plug(c, t) == tree && readSet == Path(c) && t.LeafNode? && leafId == t.id
      ensures leafId in pages && pages[leafId].Leaf? && pages[leafId].kvs == t.kvs
      ensures Sorted(t.kvs) && Search(tree, key) == FindIn(t.kvs, key) && Descent(Top, tree, key) == (c, t)
      ensures Valid() ==> Reached(pages, c, t, 0, cfg, key)
    {
      hide Reached, Plug, WellFormed, Stored, Owned, Entries, SlotsSorted, Shaped, Search, Valid, Placed;
      leafId, readSet := rootPageId, [];
      c, t := Top, tree;
      ghost var h := height;
      Starting(key);
      SearchPage(pages, t, cfg);
      var curr := FetchTreePage(rootPageId);
      while curr.InternalObj?
        invariant Plug(c, t) == tree && readSet == Path(c) && leafId == t.id
        invariant Shaped(t) && Placed(pages, t, cfg) && Search(tree, key) == Search(t, key)
        invariant Descent(Top, tree, key) == Descent(c, t, key)
        invariant Valid() ==> Reached(pages, c, t, h, cfg, key)
        invariant fresh(ObjectOf(curr)) && ValidPage(curr) && t.id in pages && ValueOf(curr) == pages[t.id]
        decreases t
      {
        readSet := readSet + [leafId];
        SearchPage(pages, t, cfg);
        var next := curr.inner.LookUp(key);
        ghost var i :| Routes(curr.inner.slots, key, i) && next == curr.inner.slots[i].val;
        SearchDown(pages, c, t, cfg, key, i);
        if Valid() { ReachedDown(pages, c, t, h, cfg, key, i); }
        c, t, h := Down(c, t, i), t.kids[i], if h > 0 then h - 1 else 0;
        SearchPage(pages, t, cfg);
        curr := FetchTreePage(next);
        leafId := next;
      }
      SearchPage(pages, t, cfg);
      if Valid() { ReachedPage(pages, c, t, h, cfg, key); }
      LeafSearch(t, key);
    }

    lemma Starting(key: Key)
      requires Searchable() && rootPageId != INVALID_PAGE_ID
      ensures Plug(Top, tree) == tree && NextId(Top) == INVALID_PAGE_ID
      ensures Valid() ==> Reached(pages, Top, tree, height, cfg, key)
    {
      if Valid() { ReachedTop(pages, tree, height, cfg, key); }
    }

    /** The record bound to `key`, if any: what a search finds, and in a tree in order the key's own binding. */
    method Get(key: Key) returns (r: Option<RecordId>)
      requires Searchable()
      ensures rootPageId != INVALID_PAGE_ID ==> r == Search(tree, key)
      ensures rootPageId != INVALID_PAGE_ID && AllFound(tree) ==> r == FindIn(Pairs(), key)
      ensures Valid() ==> r == if key in Contents() then Some(Contents()[key]) else None
    {
      if rootPageId == INVALID_PAGE_ID {
        return None;
      }
      var leafId, _, c, t := FindLeafPage(key);
      var leaf := new LeafPage.Decode(pages[leafId]);
      r := leaf.LookUp(key);
      FindInIs(t.kvs, key);
      if Valid() { SearchBinds(c, t, key); }
    }

    /** In a tree in order a search of the responsible leaf yields what the map binds. */
    lemma SearchBinds(c: Context, t: Tree, key: Key)
      requires Valid() && rootPageId != INVALID_PAGE_ID && Plug(c, t) == tree
      requires t.LeafNode? && Reached(pages, c, t, 0, cfg, key)
      ensures FindIn(t.kvs, key) == if key in Contents() then Some(Contents()[key]) else None
    {
      hide OrderedContext, ContextStored, Stored, Owned, Plug, ToMap, Flat, Lo, Hi, ContextIds, Ids;
      LeafIsSorted(t, 0, Lo(c), Hi(c), cfg);
      FindInIs(t.kvs, key);
      LeafDecides(c, t, 0, cfg, key);
      OrderedFlat(tree, height, EMPTY_KEY, None, cfg);
      if key in ToMap(Flat(tree)) { MapBinds(Flat(tree), key); }
      forall i | 0 <= i < |t.kvs| && t.kvs[i].key == key
        ensures key in ToMap(Flat(tree)) && ToMap(Flat(tree))[key] == t.kvs[i].val
      {
        MapMember(Flat(tree), t.kvs[i]);
      }
    }

    /** The first pair below page `id`, which holds subtree `t`. */
    method FindSubtreeMinLeafKv(id: PageId, ghost t: Tree, ghost next: PageId, ghost h: nat,
                                ghost lo: Key, ghost hi: Option<Key>)
      returns (kv: KV<RecordId>)
      requires Stored(pages, t, next, cfg) && t.id == id && Ordered(t, h, lo, hi, cfg) && Least(t) <= Size(t)
      ensures Flat(t) != [] && kv == Flat(t)[0]
    {
      OrderedFlat(t, h, lo, hi, cfg);
      var curr := FetchTreePage(id);
      ghost var s, sNext, sh, slo, shi := t, next, h, lo, hi;
      while curr.InternalObj?
        invariant Stored(pages, s, sNext, cfg) && Ordered(s, sh, slo, shi, cfg) && Least(s) <= Size(s)
        invariant Flat(s) != [] && Flat(s)[0] == Flat(t)[0]
        invariant fresh(ObjectOf(curr)) && ValidPage(curr) && ValueOf(curr) == pages[s.id]
        decreases sh
      {
        ghost var kid := s.kids[0];
        assert KidsStored(pages, s, sNext, cfg) && ListStored(pages, s.kids, sNext, cfg);
        assert Stored(pages, kid, FirstOf(s.kids[1..], sNext), cfg);
        assert curr.inner.slots[0].val == kid.id;
        assert s.kids == [kid] + s.kids[1..];
        FlatAllAppend([kid], s.kids[1..]);
        LeavesAllOne(kid);
        OrderedFlat(kid, sh - 1, slo, KidHi(s.keys, 0, shi), cfg);
        sNext := FirstOf(s.kids[1..], sNext);
        shi := KidHi(s.keys, 0, shi);
        s, sh := kid, sh - 1;
        var nextId := curr.inner.slots[0].val;
        curr := FetchTreePage(nextId);
      }
      FlatLeaf(s);
      kv := curr.leaf.slots[0];
    }

    /** Moves the right half of an overfull page to a new page and returns the separator for the parent. */
    method Split(page: BPlusTreePage, ghost c: Context, ghost t: Tree, ghost h: nat) returns (kv: KV<PageId>)
      requires ValidPage(page) && ValueOf(page) == PageOf(t, NextId(c), cfg)
      requires cfg.internalMax >= 3 && cfg.leafMax >= 1
      requires InFlight(pages, c, t, h, cfg) && Size(t) == MaxSize(t, cfg) + 1
      requires ObjectOf(page) != this
      modifies this`pages, ObjectOf(page)
      ensures ValidPage(page)
      ensures Splitting(old(pages), c, t, kv.val, h, cfg)
      ensures var tr := RightHalf(t, kv.val);
              && Flat(tr) != [] && kv.key == Flat(tr)[0].key
              && pages == old(pages)[kv.val := PageOf(tr, NextId(c), cfg)]
              && ValueOf(page) == PageOf(LeftHalf(t), FirstLeaf(tr), cfg)
    {
      hide InFlight, Halved, OrderedContext, Ordered, Stored, KidsStored, ContextStored, Owned, Ids;
      hide ContextIds, StableSort, Flat, NextId, Lo, Hi;
      var newPageId := NewPage();
      SplitParts(pages, c, t, newPageId, h, cfg);
      ghost var tr := RightHalf(t, newPageId);
      match page
      case LeafObj(leaf) =>
        var newLeaf := new LeafPage(cfg.leafMax);
        var tail := leaf.SplitOff(leaf.currentSize / 2);
        assert [] + tail == tail;
        newLeaf.BatchInsert(tail);
        newLeaf.nextPageId := leaf.nextPageId;
        leaf.nextPageId := newPageId;
        pages := pages[newPageId := Leaf(newLeaf.slots, newLeaf.maxSize, newLeaf.nextPageId)];
        FlatLeaf(tr);
        kv := KV(newLeaf.slots[0].key, newPageId);
      case InternalObj(inner) =>
        var newInner := new InternalPage(cfg.internalMax);
        var tail := inner.SplitOff(inner.currentSize / 2);
        assert [] + tail == tail;
        newInner.BatchInsert(tail);
        pages := pages[newPageId := Internal(newInner.slots, newInner.maxSize)];
        var minKv := FindSubtreeMinLeafKv(newPageId, tr, NextId(c), h, Flat(tr)[0].key, Hi(c));
        kv := KV(minKv.key, newPageId);
    }

    /** Finds the leaf for a new key and adds the pair there, still in memory. */
    method InsertIntoLeaf(key: Key, rid: RecordId)
      returns (p: BPlusTreePage, leafId: PageId, readSet: seq<PageId>, full: bool, ghost c: Context, ghost t: Tree)
      requires Valid() && rootPageId != INVALID_PAGE_ID && key !in Contents()
      ensures fresh(ObjectOf(p)) && Climbing(p, leafId, readSet, full, c, t, 0)
      ensures Sorted(Flat(Plug(c, t))) && ToMap(Flat(Plug(c, t))) == Contents()[key := rid]
      ensures forall after :: ClimbsTo(c, t, cfg, after) ==> Inserted(tree, KV(key, rid), cfg, after)
    {
      hide ClimbsTo;
      hide InFlight, Reached, StableSort, Flat, NextId, Plug, ToMap, WellFormed, Sorted, Path, Stored, Owned;
      ValidSearchable();
      leafId, readSet, c, t := FindLeafPage(key);
      LeafPageOf(pages, c, t, 0, cfg, key);
      var leaf := new LeafPage.Decode(pages[leafId]);
      leaf.Insert(key, rid);
      p := LeafObj(leaf);
      TreeSorted(tree, height, cfg);
      LeafGains(pages, c, t, 0, cfg, KV(key, rid));
      RootOf(c, t);
      t := LeafNode(t.id, StableSort(t.kvs + [KV(key, rid)]));
      FlightSize(pages, c, t, 0, cfg);
      RootOf(c, t);
      full := leaf.IsFull();
    }

    /** Adds the promoted separator to the parent page, still in memory. */
    method InsertIntoParent(parentId: PageId, kv: KV<PageId>, ghost pages0: Pages, ghost c: Context, ghost t: Tree,
        ghost h: nat)
      returns (p: BPlusTreePage)
      requires c.Frame? && parentId == c.id && Splitting(pages0, c, t, kv.val, h, cfg)
      requires Flat(RightHalf(t, kv.val)) != [] && kv.key == Flat(RightHalf(t, kv.val))[0].key
      requires pages == SplitPages(pages0, t, kv.val, NextId(c), cfg)
      ensures p.InternalObj? && fresh(p.inner) && p.inner.Valid()
      ensures |c.left| < |c.keys|
      ensures var n := Adopt(c, LeftHalf(t), kv.key, RightHalf(t, kv.val));
              && p.inner.Value() == PageOf(n, NextId(c.up), cfg)
              && InFlight(pages, c.up, n, h + 1, cfg)
              && Flat(Plug(c.up, n)) == Flat(Plug(c, t))
    {
      hide InFlight, Splitting, Flat, Plug, StableSort, SplitPages, Entries, FrameEntries, LeftHalf, RightHalf;
      ParentStep(pages0, c, t, kv.val, h, cfg);
      var parent := new InternalPage.Decode(pages[parentId]);
      parent.Insert(kv.key, kv.val);
      p := InternalObj(parent);
    }

    /** Puts a new root page above the two halves of the old root. */
    method GrowRoot(kv: KV<PageId>, ghost pages0: Pages, ghost t: Tree, ghost h: nat)
      returns (p: BPlusTreePage, newRootId: PageId)
      requires rootPageId == t.id && Splitting(pages0, Top, t, kv.val, h, cfg)
      requires Flat(RightHalf(t, kv.val)) != [] && kv.key == Flat(RightHalf(t, kv.val))[0].key
      requires pages == SplitPages(pages0, t, kv.val, INVALID_PAGE_ID, cfg)
      modifies this`pages, this`rootPageId
      ensures p.InternalObj? && fresh(p.inner) && p.inner.Valid()
      ensures rootPageId == newRootId != INVALID_PAGE_ID && old(pages).Keys <= pages.Keys
      ensures var n := NewRoot(t, kv.val, newRootId);
              && p.inner.Value() == PageOf(n, INVALID_PAGE_ID, cfg)
              && InFlight(pages, Top, n, h + 1, cfg)
              && Flat(n) == Flat(t)
    {
      hide InFlight, Splitting, Flat, StableSort, SplitPages, Entries, LeftHalf, RightHalf;
      newRootId := NewPage();
      RootStep(pages0, t, kv.val, newRootId, h, cfg);
      var newRoot := new InternalPage(cfg.internalMax);
      newRoot.Insert(EMPTY_KEY, rootPageId);
      newRoot.Insert(kv.key, kv.val);
      p := InternalObj(newRoot);
      SetData(newRootId, p);
      rootPageId := newRootId;
    }

    method StartNewTree(key: Key, rid: RecordId)
      requires Valid() && rootPageId == INVALID_PAGE_ID
      modifies this`pages, this`rootPageId, this`tree, this`height
      ensures Valid() && rootPageId != INVALID_PAGE_ID && Contents() == map[key := rid]
      ensures tree == LeafNode(rootPageId, [KV(key, rid)])
    {
      var newPageId := NewPage();
      var leaf := new LeafPage(cfg.leafMax);
      leaf.Insert(key, rid);
      var kv := KV(key, rid);
      assert [] + [kv] == [kv];
      StableSortFixed([kv]);
      pages := pages[newPageId := Leaf(leaf.slots, leaf.maxSize, leaf.nextPageId)];
      rootPageId := newPageId;
      tree, height := LeafNode(newPageId, [kv]), 0;
      FlatLeaf(tree);
      assert [kv][..0] == [];
      assert ToMap([kv]) == map[][key := rid];
    }

    /** An insertion is working on page `p`, which stands at the hole of `c`, and still has `path` above it. */
    ghost predicate Climbing(p: BPlusTreePage, id: PageId, path: seq<PageId>, full: bool, c: Context, t: Tree, h: nat)
      reads this, ObjectOf(p)
    {
      && cfg.internalMax >= 3 && cfg.leafMax >= 1
      && ValidPage(p) && ValueOf(p) == PageOf(t, NextId(c), cfg)
      && InFlight(pages, c, t, h, cfg)
      && id == t.id && path == Path(c)
      && rootPageId == (if c.Top? then t.id else Path(c)[0]) && rootPageId != INVALID_PAGE_ID
      && Size(t) <= MaxSize(t, cfg) + 1 && (full <==> Size(t) == MaxSize(t, cfg) + 1)
    }

    /** One round of the split loop: halve the full page, then move on to its parent or to a new root. */
    method SplitPage(page: BPlusTreePage, pageId: PageId, path: seq<PageId>, ghost c0: Context, ghost t0: Tree,
        ghost h0: nat)
      returns (curr: BPlusTreePage, currId: PageId, readSet: seq<PageId>, full: bool, ghost c: Context,
        ghost t: Tree, ghost h: nat)
      requires Climbing(page, pageId, path, true, c0, t0, h0) && ObjectOf(page) != this
      modifies this`pages, this`rootPageId, ObjectOf(page)
      ensures fresh(ObjectOf(curr)) && Climbing(curr, currId, readSet, full, c, t, h)
      ensures Flat(Plug(c, t)) == Flat(Plug(c0, t0))
      ensures forall after :: ClimbsTo(c, t, cfg, after) ==> ClimbsTo(c0, t0, cfg, after)
      ensures old(pages).Keys <= pages.Keys
      ensures |readSet| < |path| || (path == [] == readSet && !full)
    {
      hide InFlight, Splitting, StableSort, Flat, NextId, Lo, Hi, Plug, RightHalf, LeftHalf;
      ghost var pages0 := pages;
      var internalKv := Split(page, c0, t0, h0);
      ghost var q := internalKv.val;
      SetData(pageId, page);
      HalfId(t0);
      assert pages == SplitPages(pages0, t0, q, NextId(c0), cfg);
      if path != [] {
        var parentId := path[|path| - 1];
        readSet := path[..|path| - 1];
        assert parentId == c0.id && readSet == Path(c0.up);
        curr := InsertIntoParent(parentId, internalKv, pages0, c0, t0, h0);
        c, t, h := c0.up, Adopt(c0, LeftHalf(t0), internalKv.key, RightHalf(t0, q)), h0 + 1;
        currId := parentId;
      } else {
        assert c0 == Top && pageId == rootPageId;
        PlugTop(t0);
        NextTop();
        readSet := [];
        curr, currId := GrowRoot(internalKv, pages0, t0, h0);
        c, t, h := Top, NewRoot(t0, q, currId), h0 + 1;
        PlugTop(t);
      }
      full := curr.inner.IsFull();
      FlightSize(pages, c, t, h, cfg);
    }

    /** Binds a new key. Page ids handed out earlier stay in use. */
    method Insert(key: Key, rid: RecordId)
      requires Valid() && key !in Contents()
      modifies this`pages, this`rootPageId, this`tree, this`height
      ensures Valid() && rootPageId != INVALID_PAGE_ID
      ensures Contents() == old(Contents())[key := rid]
      ensures if old(rootPageId) == INVALID_PAGE_ID then tree == LeafNode(rootPageId, [KV(key, rid)])
              else Inserted(old(tree), KV(key, rid), cfg, tree)
      ensures old(pages).Keys <= pages.Keys
    {
      if rootPageId == INVALID_PAGE_ID {
        StartNewTree(key, rid);
        return;
      }
      hide Climbing, Flat, Plug, ToMap, WellFormed, Stored, Owned, Inserted, ClimbsTo;
      var curr, currId, readSet, full, c, t := InsertIntoLeaf(key, rid);
      ghost var h := 0;
      while full
        invariant fresh(ObjectOf(curr)) && Climbing(curr, currId, readSet, full, c, t, h)
        invariant Sorted(Flat(Plug(c, t))) && ToMap(Flat(Plug(c, t))) == old(Contents())[key := rid]
        invariant forall after :: ClimbsTo(c, t, cfg, after) ==> Inserted(old(tree), KV(key, rid), cfg, after)
        invariant old(pages).Keys <= pages.Keys
        decreases |readSet| + if full then 1 else 0
      {
        curr, currId, readSet, full, c, t, h := SplitPage(curr, currId, readSet, c, t, h);
      }
      Finish(curr, currId, readSet, c, t, h);
    }

    /** Writes back the last page, which no longer overflows. */
    method Finish(p: BPlusTreePage, id: PageId, ghost path: seq<PageId>, ghost c: Context, ghost t: Tree, ghost h: nat)
      requires Climbing(p, id, path, false, c, t, h)
      modifies this`pages, this`tree, this`height
      ensures Valid() && Pairs() == Flat(Plug(c, t)) && tree == Plug(c, t) && ClimbsTo(c, t, cfg, tree)
      ensures old(pages).Keys <= pages.Keys
    {
      hide InFlight, OrderedContext, ContextStored, Owned, Ids, ContextIds, Flat, NextId, Plug, WellFormed, Stored;
      ghost var h' := Landed(pages, c, t, h, cfg);
      SetData(id, p);
      tree, height := Plug(c, t), h';
      RootOf(c, t);
    }

    /** Moves everything on the right page onto the left one and frees the right page. */
    method JoinPages(leftId: PageId, rightId: PageId, rightPinned: bool, ghost f: Family, ghost h: nat)
      requires CanMerge(f, h, cfg) && FamilyStored(pages, f, cfg)
      requires leftId == f.tl.id && rightId == f.tr.id
      modifies this`pages, this`orphans
      ensures pages == MergedPages(old(pages), f, cfg)
      ensures rightId in old(pages)
      ensures orphans == if rightPinned then old(orphans)[rightId := old(pages)[rightId]] else old(orphans)
    {
      hide Ordered, OrderedContext, Stored, ContextStored, Owned, Flat, StableSort, Merged, Fits, Size, NextId;
      FamilyKinds(f, h, cfg);
      MergePageFacts(pages, f, h, cfg);
      ghost var next := FirstOf(f.right, NextId(f.up));
      var leftPage := FetchTreePage(leftId);
      var rightPage := FetchTreePage(rightId);
      if leftPage.InternalObj? {
        var kvs := rightPage.inner.slots;
        var minLeafKv := FindSubtreeMinLeafKv(kvs[0].val, f.tr.kids[0], FirstOf(f.tr.kids[1..], next), h - 1,
                                              Sep(f), KidHi(f.tr.keys, 0, PairHi(f)));
        kvs := kvs[0 := KV(minLeafKv.key, kvs[0].val)];
        leftPage.inner.BatchInsert(kvs);
      } else {
        leftPage.leaf.BatchInsert(rightPage.leaf.slots);
        leftPage.leaf.nextPageId := rightPage.leaf.nextPageId;
      }
      assert ValueOf(leftPage) == PageOf(Merged(f.tl, f.tr), next, cfg);
      SetData(leftId, leftPage);
      DeletePage(rightId, rightPinned);
    }

    /** Takes a page out of use; one that is pinned stays allocated. */
    method DeletePage(id: PageId, pinned: bool)
      requires id in pages
      modifies this`pages, this`orphans
      ensures pages == old(pages) - {id}
      ensures orphans == if pinned then old(orphans)[id := old(pages)[id]] else old(orphans)
    {
      if pinned {
        orphans := orphans[id := pages[id]];
      }
      pages := pages - {id};
    }

    /**
     Joins an underfull page with its sibling into the left one, frees the right page unless somebody is using it, and
     drops its entry from the parent. A root left with a single child gives way to it but stays allocated, since it is
     in use right then.
     */
    method Merge(parentId: PageId, leftId: PageId, rightId: PageId, rightPinned: bool, ghost f: Family, ghost h: nat)
      returns (newParentId: PageId)
      requires cfg.internalMax >= 3 && cfg.leafMax >= 1
      requires CanMerge(f, h, cfg) && FamilyStored(pages, f, cfg)
      requires parentId == f.id && leftId == f.tl.id && rightId == f.tr.id
      requires rootPageId == Plug(f.up, Parent(f)).id
      modifies this
      ensures rightId !in pages && rightId in old(pages) && parentId in old(pages)
      ensures var kept := if rightPinned then old(orphans)[rightId := old(pages)[rightId]] else old(orphans);
              orphans == if newParentId == leftId then kept[parentId := old(pages)[parentId]] else kept
      ensures |f.left| + 1 < |f.keys|
      ensures tree.id == rootPageId != INVALID_PAGE_ID && Pairs() == Flat(Plug(f.up, Parent(f)))
      ensures if f.up == Top && f.left == [] && f.right == []
              then newParentId == leftId && tree == Merged(f.tl, f.tr) && Valid()
              else newParentId == parentId && tree == Plug(f.up, MergedParent(f))
                   && Loose(pages, f.up, MergedParent(f), h + 1, cfg)
                   && (FitsHole(f.up, MergedParent(f), cfg) ==> Valid())
    {
      hide Ordered, OrderedContext, Stored, ContextStored, Owned, Flat, Plug, StableSort, Merged, Fits, Size;
      hide FitsHole, Loose, WellFormed, NextId;
      hide FamilyOrdered, FamilyStored, FamilyStoredIds, Ids, ContextIds, KidsStored;
      FamilyKinds(f, h, cfg);
      FamilyPages(pages, f, h, cfg);
      ghost var pages0 := pages;
      JoinPages(leftId, rightId, rightPinned, f, h);
      JoinKeepsParent(pages0, f, h, cfg);
      MergedStored(pages0, f, h, cfg);
      var parent := new InternalPage.Decode(pages[parentId]);
      MergedEntries(pages0, f, h, cfg);
      parent.DeletePageId(rightId);
      RootOf(f.up, Parent(f));
      StoredOwns(pages0, f, cfg);
      RootIsParent(pages0, f);
      if parentId == rootPageId && parent.currentSize == 1 {
        CollapseRoot(parentId, leftId, pages0, f, h);
        newParentId := leftId;
      } else {
        WriteParent(parentId, parent, pages0, f, h);
        newParentId := parentId;
      }
    }

    /** The merged page takes the place of a root that has no other child left. */
    method CollapseRoot(parentId: PageId, leftId: PageId, ghost pages0: Pages, ghost f: Family, ghost h: nat)
      requires cfg.internalMax >= 3 && cfg.leafMax >= 1
      requires CanMerge(f, h, cfg) && FamilyStored(pages0, f, cfg) && pages == MergedPages(pages0, f, cfg)
      requires parentId == f.id && leftId == f.tl.id && f.up == Top && f.left == [] && f.right == []
      modifies this
      ensures parentId in old(pages) && orphans == old(orphans)[parentId := old(pages)[parentId]]
      ensures tree == Merged(f.tl, f.tr) && Valid() && rootPageId == leftId != INVALID_PAGE_ID
      ensures Flat(tree) == Flat(Plug(f.up, Parent(f))) && f.tr.id !in pages
    {
      hide Ordered, OrderedContext, Stored, ContextStored, Owned, Flat, Plug, Merged, Fits, Size, FitsHole;
      hide Loose, WellFormed, NextId, CanMerge, FamilyStored;
      MergedCollapse(pages0, f, h, cfg);
      MergedId(f.tl, f.tr);
      RightPageFreed(pages0, f, h, cfg);
      PlugTop(Parent(f));
      JoinKeepsParent(pages0, f, h, cfg);
      rootPageId := leftId;
      DeletePage(parentId, true);
      tree := Merged(f.tl, f.tr);
      height := LooseFits(pages, Top, tree, h, cfg);
      PlugTop(tree);
    }

    method WriteParent(parentId: PageId, parent: InternalPage, ghost pages0: Pages, ghost f: Family, ghost h: nat)
      requires cfg.internalMax >= 3 && cfg.leafMax >= 1
      requires CanMerge(f, h, cfg) && FamilyStored(pages0, f, cfg) && pages == MergedPages(pages0, f, cfg)
      requires parentId == f.id && |f.left| + 1 < |f.keys|
      requires parent.Value() == PageOf(MergedParent(f), NextId(f.up), cfg)
      requires rootPageId == Plug(f.up, Parent(f)).id
      modifies this`pages, this`tree, this`height
      ensures tree == Plug(f.up, MergedParent(f)) && Loose(pages, f.up, MergedParent(f), h + 1, cfg)
      ensures FitsHole(f.up, MergedParent(f), cfg) ==> Valid()
      ensures tree.id == rootPageId != INVALID_PAGE_ID
      ensures Flat(tree) == Flat(Plug(f.up, Parent(f))) && f.tr.id !in pages
    {
      hide Ordered, OrderedContext, Stored, ContextStored, Owned, Flat, Plug, Merged, Fits, Size, FitsHole;
      hide Loose, WellFormed, NextId, CanMerge, FamilyStored;
      MergedLoose(pages0, f, h, cfg);
      RightPageFreed(pages0, f, h, cfg);
      SetData(parentId, InternalObj(parent));
      tree := Plug(f.up, MergedParent(f));
      RootOf(f.up, Parent(f));
      RootOf(f.up, MergedParent(f));
      RootNonzero(pages0, f, cfg);
      if FitsHole(f.up, MergedParent(f), cfg) {
        height := LooseFits(pages, f.up, MergedParent(f), h + 1, cfg);
      }
    }

    /** Takes the first pair of the right sibling; returns the keys to exchange in the parent. */
    method MoveFirst(pageId: PageId, borrowedId: PageId) returns (oldKey: Key, newKey: Key)
      requires pageId in pages && pages[pageId].Leaf? && borrowedId in pages && pages[borrowedId].Leaf?
      requires pageId != borrowedId && |pages[borrowedId].kvs| >= 2
      modifies this`pages
      ensures var p, b := old(pages)[pageId], old(pages)[borrowedId];
              && oldKey == b.kvs[0].key && newKey == b.kvs[1].key
              && pages == old(pages)[pageId := p.(kvs := StableSort(p.kvs + [b.kvs[0]]))]
                                    [borrowedId := b.(kvs := b.kvs[1..])]
    {
      var borrowed := new LeafPage.Decode(pages[borrowedId]);
      var page := new LeafPage.Decode(pages[pageId]);
      var moved := borrowed.ReverseSplitOff(0);
      page.Insert(moved[0].key, moved[0].val);
      oldKey, newKey := moved[0].key, borrowed.slots[0].key;
      SetData(pageId, LeafObj(page));
      SetData(borrowedId, LeafObj(borrowed));
    }

    /** Takes the last pair of the left sibling. */
    method MoveLast(pageId: PageId, borrowedId: PageId) returns (oldKey: Key, newKey: Key)
      requires pageId in pages && pages[pageId].Leaf? && borrowedId in pages && pages[borrowedId].Leaf?
      requires pageId != borrowedId && |pages[borrowedId].kvs| >= 1 && |pages[pageId].kvs| >= 1
      modifies this`pages
      ensures var p, b := old(pages)[pageId], old(pages)[borrowedId];
              var n := |b.kvs| - 1;
              var s := StableSort(p.kvs + [b.kvs[n]]);
              && oldKey == s[1].key && newKey == s[0].key
              && pages == old(pages)[pageId := p.(kvs := s)][borrowedId := b.(kvs := b.kvs[..n])]
    {
      var borrowed := new LeafPage.Decode(pages[borrowedId]);
      var page := new LeafPage.Decode(pages[pageId]);
      var moved := borrowed.SplitOff(borrowed.currentSize - 1);
      page.Insert(moved[0].key, moved[0].val);
      oldKey, newKey := page.slots[1].key, page.slots[0].key;
      SetData(pageId, LeafObj(page));
      SetData(borrowedId, LeafObj(borrowed));
    }

    /**
     Moves one pair between two sibling leaves, from the right one's front (`minMax`) or the left one's back,
     and re-keys the parent by searching for the key the separator is expected to have.
     */
    method BorrowLeaf(parentId: PageId, pageId: PageId, borrowedId: PageId, minMax: bool, ghost f: Family, ghost h: nat)
      requires cfg.internalMax >= 3 && cfg.leafMax >= 1
      requires CanBorrow(f, h, minMax, cfg) && FamilyStored(pages, f, cfg)
      requires parentId == f.id
      requires if minMax then pageId == f.tl.id && borrowedId == f.tr.id else pageId == f.tr.id && borrowedId == f.tl.id
      requires rootPageId == Plug(f.up, Parent(f)).id
      modifies this`pages, this`tree, this`height
      ensures rootPageId == old(rootPageId) && rootPageId != INVALID_PAGE_ID
      ensures tree == Plug(f.up, BorrowedParent(f, minMax))
      ensures Pairs() == Flat(Plug(f.up, Parent(f)))
      ensures Searchable() && Owned(pages, Ids(tree))
      ensures FindsMoved(tree, f, minMax) && (AllFound(tree) <==> Sep(f) == f.tr.kvs[0].key)
      ensures Sep(f) == f.tr.kvs[0].key && FitsHole(f.up, Parent(f), cfg) ==> Valid()
    {
      hide Ordered, OrderedContext, Stored, ContextStored, Owned, Flat, Plug, StableSort, Fits, FitsHole;
      hide WellFormed, NextId, BorrowedPair, BorrowedParent, Loose, FamilyOrdered;
      hide FamilyStored, Ids, Entries, Shaped, FindsMoved, Placed, AllFound;
      BorrowParent(f, h, minMax, cfg);
      BorrowPages(pages, f, h, minMax, cfg);
      BorrowPair(f, h, minMax, cfg);
      ghost var pages0 := pages;
      var oldKey, newKey;
      if minMax {
        oldKey, newKey := MoveFirst(pageId, borrowedId);
      } else {
        oldKey, newKey := MoveLast(pageId, borrowedId);
      }
      MovedPages(pages0, f, h, minMax, cfg);
      var parent := new InternalPage.Decode(pages[parentId]);
      parent.ReplaceKey(oldKey, newKey);
      SetData(parentId, InternalObj(parent));
      assert pages == BorrowedPages(pages0, f, minMax, cfg);
      BorrowedStored(pages0, f, h, minMax, cfg);
      BorrowedWhole(pages, f, h, minMax, cfg);
      BorrowFinds(f, h, minMax, cfg);
      BorrowExactly(f, h, minMax, cfg);
      tree := Plug(f.up, BorrowedParent(f, minMax));
      RootOf(f.up, Parent(f));
      RootOf(f.up, BorrowedParent(f, minMax));
      if Sep(f) == f.tr.kvs[0].key && FitsHole(f.up, Parent(f), cfg) {
        BorrowExact(f, h, minMax, cfg);
        height := BorrowedFits(pages, f, h, minMax, cfg);
      }
    }

    /** Takes the first subtree of the right sibling; returns the keys to exchange in the parent. */
    method MoveFirstKid(pageId: PageId, borrowedId: PageId, ghost kid: Tree, ghost next: PageId, ghost h: nat,
        ghost lo: Key, ghost hi: Option<Key>)
      returns (oldKey: Key, newKey: Key)
      requires pageId in pages && pages[pageId].Internal? && pages[pageId].entries != []
      requires borrowedId in pages && pages[borrowedId].Internal? && |pages[borrowedId].entries| >= 2
      requires pageId != borrowedId && pages[borrowedId].entries[1].val == kid.id
      requires Stored(pages, kid, next, cfg) && Ordered(kid, h, lo, hi, cfg) && Least(kid) <= Size(kid)
      modifies this`pages
      ensures Flat(kid) != [] && newKey == Flat(kid)[0].key
      ensures var p, b := old(pages)[pageId], old(pages)[borrowedId];
              && oldKey == b.entries[0].key
              && pages == old(pages)[pageId := p.(entries := TakenIn(p.entries, b.entries[0]))]
                                    [borrowedId := b.(entries := b.entries[1..])]
    {
      hide Stored, Ordered, StableSort, Flat;
      var borrowed := new InternalPage.Decode(pages[borrowedId]);
      var page := new InternalPage.Decode(pages[pageId]);
      var moved := borrowed.ReverseSplitOff(0);
      page.Insert(moved[0].key, moved[0].val);
      var minLeafKv := FindSubtreeMinLeafKv(borrowed.slots[0].val, kid, next, h, lo, hi);
      oldKey, newKey := moved[0].key, minLeafKv.key;
      SetData(pageId, InternalObj(page));
      SetData(borrowedId, InternalObj(borrowed));
    }

    /** Takes the last subtree of the left sibling. The new key is looked up below the lender, as in the source. */
    method MoveLastKid(pageId: PageId, borrowedId: PageId, ghost kid: Tree, ghost next: PageId, ghost h: nat,
        ghost lo: Key, ghost hi: Option<Key>)
      returns (oldKey: Key, newKey: Key)
      requires pageId in pages && pages[pageId].Internal? && pages[pageId].entries != []
      requires borrowedId in pages && pages[borrowedId].Internal? && |pages[borrowedId].entries| >= 2
      requires pageId != borrowedId && pages[borrowedId].entries[0].val == kid.id
      requires Stored(pages, kid, next, cfg) && Ordered(kid, h, lo, hi, cfg) && Least(kid) <= Size(kid)
      modifies this`pages
      ensures Flat(kid) != [] && newKey == Flat(kid)[0].key
      ensures var p, b := old(pages)[pageId], old(pages)[borrowedId];
              var n := |b.entries| - 1;
              && oldKey == p.entries[0].key
              && pages == old(pages)[pageId := p.(entries := TakenIn(p.entries, b.entries[n]))]
                                    [borrowedId := b.(entries := b.entries[..n])]
    {
      hide Stored, Ordered, StableSort, Flat;
      var borrowed := new InternalPage.Decode(pages[borrowedId]);
      var page := new InternalPage.Decode(pages[pageId]);
      var moved := borrowed.SplitOff(borrowed.currentSize - 1);
      var minKey := page.slots[0].key;
      page.Insert(moved[0].key, moved[0].val);
      var minLeafKv := FindSubtreeMinLeafKv(borrowed.slots[0].val, kid, next, h, lo, hi);
      oldKey, newKey := minKey, minLeafKv.key;
      SetData(pageId, InternalObj(page));
      SetData(borrowedId, InternalObj(borrowed));
    }

    /**
     Moves one subtree between two sibling inner pages, from the right one's front (`minMax`) or the left one's back,
     and re-keys the parent by searching for the key the separator is expected to have.
     */
    method BorrowInner(parentId: PageId, pageId: PageId, borrowedId: PageId, minMax: bool, ghost f: Family,
        ghost h: nat)
      requires cfg.internalMax >= 3 && cfg.leafMax >= 1
      requires CanLend(f, h, minMax, cfg) && FamilyStored(pages, f, cfg)
      requires parentId == f.id
      requires if minMax then pageId == f.tl.id && borrowedId == f.tr.id else pageId == f.tr.id && borrowedId == f.tl.id
      requires rootPageId == Plug(f.up, Parent(f)).id
      modifies this`pages, this`tree, this`height
      ensures rootPageId == old(rootPageId) && rootPageId != INVALID_PAGE_ID && LendShape(f, minMax)
      ensures tree == Plug(f.up, LentParent(f, minMax)) && pages == LentPages(old(pages), f, minMax, cfg)
      ensures multiset(Pairs()) == multiset(Flat(Plug(f.up, Parent(f))))
      ensures Placed(pages, tree, cfg) && (Shaped(tree) ==> Searchable())
      ensures AllFound(tree) <==> Harmless(f, minMax)
      ensures Harmless(f, minMax) ==> Pairs() == Flat(Plug(f.up, Parent(f)))
      ensures Settled(f, minMax, cfg) ==> Valid()
    {
      hide Ordered, OrderedContext, Stored, ContextStored, Owned, Flat, Plug, StableSort, Fits, FitsHole, Placed;
      hide WellFormed, NextId, LentPair, LentParent, FamilyOrdered, FamilyStored, Ids, Entries, Shaped, AllFound;
      hide TakenIn, CanLend, LeastKey, Settled, Harmless;
      ghost var pages0 := pages;
      LendPages(pages, f, h, minMax, cfg);
      ghost var next, lo, hi := LenderKid(pages, f, h, minMax, cfg);
      ghost var kid := LenderFirst(f, minMax);
      KidPages(pages, f, h, minMax, cfg);
      MovedKid(pages, f, h, minMax, cfg);
      var oldKey, newKey;
      if minMax {
        oldKey, newKey := MoveFirstKid(pageId, borrowedId, kid, next, h - 1, lo, hi);
      } else {
        oldKey, newKey := MoveLastKid(pageId, borrowedId, kid, next, h - 1, lo, hi);
      }
      LentIs(f, minMax);
      RekeyedEntries(f, h, minMax, cfg);
      var parent := new InternalPage.Decode(pages[parentId]);
      parent.ReplaceKey(oldKey, newKey);
      SetData(parentId, InternalObj(parent));
      assert pages == LentPages(pages0, f, minMax, cfg);
      ghost var h' := LentResult(pages0, f, h, minMax, cfg);
      LentRoot(pages0, f, minMax, cfg);
      tree, height := Plug(f.up, LentParent(f, minMax)), h';
    }

    /**
     Declined exactly when the lender holds no more than half, and then nothing changes. A leaf that came up short must
     have come short by one, as after a single deletion.
     */
    method Borrow(parentId: PageId, pageId: PageId, borrowedId: PageId, minMax: bool, ghost f: Family, ghost h: nat)
      returns (done: bool)
      requires cfg.internalMax >= 3 && cfg.leafMax >= 2
      requires FamilyOrdered(f, h, cfg) && FamilyStored(pages, f, cfg)
      requires f.tl.LeafNode? ==>
                 && f.tr.LeafNode? && f.tr.kvs != [] && Size(Lender(f, minMax)) <= cfg.leafMax
                 && cfg.leafMax / 2 <= Size(Borrower(f, minMax)) + 1 <= cfg.leafMax
      requires parentId == f.id && pageId == Borrower(f, minMax).id && borrowedId == Lender(f, minMax).id
      requires rootPageId == Plug(f.up, Parent(f)).id
      modifies this`pages, this`tree, this`height
      ensures done <==> Size(Lender(f, minMax)) > MaxSize(Lender(f, minMax), cfg) / 2
      ensures !done ==> unchanged(this)
      ensures done ==> rootPageId != INVALID_PAGE_ID
      ensures !done && Size(Borrower(f, minMax)) + 1 == MaxSize(f.tl, cfg) / 2 && Fits(Lender(f, minMax), cfg) ==>
                CanMerge(f, h, cfg)
      ensures done && f.tl.LeafNode? ==>
                && CanBorrow(f, h, minMax, cfg) && tree == Plug(f.up, BorrowedParent(f, minMax))
                && Pairs() == Flat(Plug(f.up, Parent(f))) && Searchable() && FindsMoved(tree, f, minMax)
                && (AllFound(tree) <==> Sep(f) == f.tr.kvs[0].key)
                && (Sep(f) == f.tr.kvs[0].key && FitsHole(f.up, Parent(f), cfg) ==> Valid())
      ensures done && f.tl.InnerNode? ==>
                && CanLend(f, h, minMax, cfg) && LendShape(f, minMax) && tree == Plug(f.up, LentParent(f, minMax))
                && multiset(Pairs()) == multiset(Flat(Plug(f.up, Parent(f)))) && (Shaped(tree) ==> Searchable())
                && (AllFound(tree) <==> Harmless(f, minMax))
                && (Harmless(f, minMax) ==> Pairs() == Flat(Plug(f.up, Parent(f))))
                && (Settled(f, minMax, cfg) ==> Valid())
    {
      hide Ordered, OrderedContext, Stored, ContextStored, Owned, Flat, Plug, FitsHole, WellFormed, BorrowedPair;
      hide BorrowedParent, FamilyOrdered, FamilyStored, Shaped, FindsMoved, Placed, LentPair, LentParent, AllFound;
      hide Valid, Fits, Settled, Harmless, LentPages;
      LenderPage(pages, f, h, minMax, cfg);
      DeclinedCanMerge(f, h, minMax, cfg);
      var borrowed := FetchTreePage(borrowedId);
      if borrowed.InternalObj? {
        if borrowed.inner.currentSize <= borrowed.inner.maxSize / 2 {
          return false;
        }
        LenderLends(f, h, minMax, cfg);
        BorrowInner(parentId, pageId, borrowedId, minMax, f, h);
      } else {
        if borrowed.leaf.currentSize <= borrowed.leaf.maxSize / 2 {
          return false;
        }
        LenderSpares(f, h, minMax, cfg);
        BorrowLeaf(parentId, pageId, borrowedId, minMax, f, h);
      }
      done := true;
    }

    /** A page short by one asks one sibling for an entry; declined, the two pages fit on one. */
    method TryBorrow(parentId: PageId, currId: PageId, siblingId: PageId, minMax: bool, ghost c: Context, ghost t: Tree,
        ghost h: nat)
      returns (done: bool, ghost loan: Loan)
      requires cfg.internalMax >= 4 && cfg.leafMax >= 4
      requires Shrunk(pages, c, t, h, cfg) && c.Frame? && Size(t) + 1 == MaxSize(t, cfg) / 2
      requires if minMax then c.right != [] && siblingId == c.right[0].id
               else c.left != [] && siblingId == c.left[|c.left| - 1].id
      requires currId == t.id && parentId == c.id && rootPageId == Plug(c, t).id
      modifies this`pages, this`tree, this`height
      ensures loan == Loan(FamilyOf(c, t, !minMax), h, minMax)
      ensures done <==> Spares(if minMax then c.right[0] else c.left[|c.left| - 1], cfg)
      ensures !done ==> unchanged(this) && CanMerge(loan.f, h, cfg)
      ensures done ==> LoanShape(loan) && tree == Outcome(loan) && (AllFound(tree) <==> Exact(loan))
      ensures done ==> (Shaped(tree) ==> Searchable()) && rootPageId != INVALID_PAGE_ID
      ensures done ==> multiset(Pairs()) == multiset(Flat(Plug(c, t)))
      ensures done && Exact(loan) ==> Pairs() == Flat(Plug(c, t))
    {
      hide OrderedContext, Ordered, Stored, ContextStored, Owned, Flat, Plug, FamilyOrdered, FamilyStored, FitsHole;
      hide BorrowedParent, LentParent, Shaped, AllFound, FindsMoved, CanMerge, Placed, Harmless, Settled, LentPages;
      loan := Loan(FamilyOf(c, t, !minMax), h, minMax);
      FamilyFrom(pages, c, t, h, cfg, !minMax);
      PairOrdered(loan.f, h, cfg);
      done := Borrow(parentId, currId, siblingId, minMax, loan.f, h);
    }

    /** Merges a page short by one with a sibling that has none to spare; then the parent may be short. */
    method MergeWith(parentId: PageId, currId: PageId, siblingId: PageId, withLeft: bool, pinned: bool,
        ghost c: Context, ghost t: Tree, ghost h: nat)
      returns (newId: PageId, ghost c': Context, ghost t': Tree, ghost h': nat)
      requires cfg.internalMax >= 4 && cfg.leafMax >= 4
      requires Shrunk(pages, c, t, h, cfg) && c.Frame?
      requires if withLeft then c.left != [] && siblingId == c.left[|c.left| - 1].id
               else c.right != [] && siblingId == c.right[0].id
      requires CanMerge(FamilyOf(c, t, withLeft), h, cfg)
      requires currId == t.id && parentId == c.id && rootPageId == Plug(c, t).id
      modifies this
      ensures Shrunk(pages, c', t', h', cfg) && newId == t'.id && tree == Plug(c', t')
      ensures tree.id == rootPageId != INVALID_PAGE_ID && Pairs() == Flat(Plug(c, t))
      ensures var f := FamilyOf(c, t, withLeft);
              && c' == c.up && |f.left| + 1 < |f.keys|
              && if c.up.Top? && f.left == [] && f.right == [] then t' == Merged(f.tl, f.tr)
                 else t' == MergedParent(f) && h' == h + 1
    {
      hide OrderedContext, Ordered, Stored, ContextStored, Owned, Flat, Plug, FamilyStored, FitsHole, Merged, Loose;
      hide WellFormed, CanMerge, Fits;
      ghost var f := FamilyOf(c, t, withLeft);
      FamilyFrom(pages, c, t, h, cfg, withLeft);
      var leftId, rightId := if withLeft then siblingId else currId, if withLeft then currId else siblingId;
      var busy := Chance();
      newId := Merge(parentId, leftId, rightId, busy || (pinned && withLeft), f, h);
      if f.up == Top && f.left == [] && f.right == [] {
        c', t', h' := Top, tree, height;
        WholeShrunk(pages, tree, height, cfg);
        MergedId(f.tl, f.tr);
      } else {
        c', t', h' := c.up, MergedParent(f), h + 1;
        MergedShrinks(pages, f, h, cfg);
      }
    }

    /**
     One round for a page short by one: it borrows from its left sibling, else from its right one, else it is merged
     with one of them, and then the parent may be short.
     */
    method FillUp(currId: PageId, parentId: PageId, pinned: bool, ghost c: Context, ghost t: Tree, ghost h: nat)
      returns (done: bool, newId: PageId, ghost loan: Loan, ghost c': Context, ghost t': Tree, ghost h': nat)
      requires cfg.internalMax >= 4 && cfg.leafMax >= 4
      requires Shrunk(pages, c, t, h, cfg) && c.Frame? && Size(t) + 1 == MaxSize(t, cfg) / 2
      requires currId == t.id && parentId == c.id && tree == Plug(c, t) && tree.id == rootPageId
      modifies this
      ensures done ==> LoanShape(loan) && tree == Outcome(loan) && (AllFound(tree) <==> Exact(loan))
      ensures done ==> (Shaped(tree) ==> Searchable()) && multiset(Pairs()) == multiset(Flat(Plug(c, t)))
      ensures done && Exact(loan) ==> Pairs() == Flat(Plug(c, t))
      ensures !done ==> Shrunk(pages, c', t', h', cfg) && newId == t'.id && tree == Plug(c', t')
      ensures !done ==> tree.id == rootPageId && Pairs() == Flat(Plug(c, t)) && c' == c.up
      ensures rootPageId != INVALID_PAGE_ID
      ensures Mended(c, t, h, cfg) == if done then Ending(tree, Some(loan)) else Mended(c', t', h', cfg)
      ensures done ==> LoanDue(loan, cfg) && Borrows(loan) == t && Plug(c, t) == Plug(loan.f.up, Parent(loan.f))
      ensures !done ==>
                (c.left != [] || c.right != []) && MergeDue(Merging(FamilyOf(c, t, c.left != []), c.left != []), cfg)
    {
      hide Shrunk, Loose, OrderedContext, Flat, Plug, Shaped, AllFound, Exact, LoanShape, Outcome, CanMerge;
      hide FrameEntries, LoanDue, MergeDue, Borrows;
      SiblingsOf(c, t, h);
      MendingContext(c, t, h);
      var parent := new InternalPage.Decode(pages[parentId]);
      var left, right := parent.SiblingPageIds(currId);
      assert FirstAt(parent.slots, currId, |c.left|);
      newId, c', t', h', done := currId, c, t, h, false;
      if left.Some? {
        done, loan := TryBorrow(parentId, currId, left.value, false, c, t, h);
        if done {
          LoanIsDue(c, t, h, cfg, false);
          return;
        }
      }
      if right.Some? {
        done, loan := TryBorrow(parentId, currId, right.value, true, c, t, h);
        if done {
          LoanIsDue(c, t, h, cfg, true);
          return;
        }
      }
      MergeRepairs(c, t, h, cfg);
      if left.Some? {
        newId, c', t', h' := MergeWith(parentId, currId, left.value, true, pinned, c, t, h);
      } else {
        newId, c', t', h' := MergeWith(parentId, currId, right.value, false, pinned, c, t, h);
      }
      PlugTop(t');
    }

    /** What the parent page says about the page at the hole; it always has a sibling. */
    lemma SiblingsOf(c: Context, t: Tree, h: nat)
      requires c.Frame? && Shrunk(pages, c, t, h, cfg)
      ensures c.left != [] || c.right != []
      ensures c.id in pages && pages[c.id].Internal?
      ensures var e, n := pages[c.id].entries, |c.left|;
              && |e| == n + 1 + |c.right| && FirstAt(e, t.id, n)
              && (n > 0 ==> e[n - 1].val == c.left[n - 1].id) && (c.right != [] ==> e[n + 1].val == c.right[0].id)
    {
      SiblingIds(pages, c, t, h, cfg);
    }

    /** Takes the pair out of the leaf responsible for the key and writes the leaf back. */
    method DeleteFromLeaf(key: Key)
      returns (p: BPlusTreePage, leafId: PageId, readSet: seq<PageId>, ghost c: Context, ghost t: Tree)
      requires Valid() && rootPageId != INVALID_PAGE_ID
      modifies this`pages, this`tree
      ensures fresh(ObjectOf(p)) && Mending(p, leafId, readSet, c, t, 0)
      ensures Flat(tree) == Without(old(Pairs()), key)
      ensures Taken(old(tree), key, c, t) && Deleted(old(tree), key, cfg, Mended(c, t, 0, cfg))
    {
      hide Flat, NextId, Plug, WellFormed, Sorted, Path, Stored, Owned, OrderedContext, ContextStored, Ordered, Without;
      hide Shrunk, Mended, Reached, Shaped, Search, FindIn, Descent, Placed, FirstLeaf;
      ValidSearchable();
      leafId, readSet, c, t := FindLeafPage(key);
      LeafPageOf(pages, c, t, 0, cfg, key);
      var leaf := new LeafPage.Decode(pages[leafId]);
      leaf.Delete(key);
      p := LeafObj(leaf);
      TakenOut(c, t, key, leaf.slots);
      SetData(leafId, p);
      t := LeafNode(t.id, Without(t.kvs, key));
      tree := Plug(c, t);
    }

    /** The pair is gone from its leaf and from the tree. */
    lemma TakenOut(c: Context, t: Tree, key: Key, left: seq<KV<RecordId>>)
      requires Valid() && rootPageId != INVALID_PAGE_ID && Plug(c, t) == tree && t.LeafNode?
      requires Reached(pages, c, t, 0, cfg, key) && Sorted(t.kvs)
      requires (forall i | 0 <= i < |t.kvs| :: t.kvs[i].key != key) ==> left == t.kvs
      requires forall i | 0 <= i < |t.kvs| :: t.kvs[i].key == key ==> left == t.kvs[..i] + t.kvs[i + 1..]
      ensures left == Without(t.kvs, key)
      ensures var t' := LeafNode(t.id, left);
              && Shrunk(pages[t.id := PageOf(t', NextId(c), cfg)], c, t', 0, cfg)
              && Flat(Plug(c, t')) == Without(Pairs(), key) && Plug(c, t').id == rootPageId
    {
      LeafWithout(t.kvs, key, left);
      LeafShrinks(pages, c, t, cfg, key);
      hide *;
      RootOf(c, t);
      RootOf(c, LeafNode(t.id, left));
    }

    /** A deletion stands on page `p` at the hole of `c`, which may be short by one, and still has `path` above it. */
    ghost predicate Mending(p: BPlusTreePage, id: PageId, path: seq<PageId>, c: Context, t: Tree, h: nat)
      reads this, ObjectOf(p)
    {
      && ValidPage(p) && ValueOf(p) == PageOf(t, NextId(c), cfg)
      && Shrunk(pages, c, t, h, cfg) && id == t.id && path == Path(c)
      && tree == Plug(c, t) && tree.id == rootPageId != INVALID_PAGE_ID
    }

    /** Fewer entries than half a page. */
    method IsShort(p: BPlusTreePage, ghost t: Tree, ghost next: PageId) returns (short: bool)
      requires ValidPage(p) && ValueOf(p) == PageOf(t, next, cfg)
      ensures short <==> Size(t) < MaxSize(t, cfg) / 2
    {
      match p
      case InternalObj(inner) => short := inner.currentSize < inner.maxSize / 2;
      case LeafObj(leaf) => short := leaf.currentSize < leaf.maxSize / 2;
    }

    /**
     Deletes a key, then fills pages that came up short from the leaf upwards: a borrow ends it, a merge may leave the
     parent short. The pairs left are those with other keys, and every search is right afterwards if and only if it did
     not end with a borrow, or that one was exact.
     */
    method Delete(key: Key) returns (ghost loan: Option<Loan>, ghost merges: seq<Merging>)
      requires Valid() && cfg.internalMax >= 4 && cfg.leafMax >= 4
      modifies this
      ensures rootPageId == INVALID_PAGE_ID <==> old(rootPageId) == INVALID_PAGE_ID
      ensures multiset(Pairs()) == multiset(Without(old(Pairs()), key))
      ensures loan.None? ==> Valid() || (tree.LeafNode? && Pairs() == [])
      ensures loan.Some? ==> LoanShape(loan.value) && tree == Outcome(loan.value) && rootPageId != INVALID_PAGE_ID
      ensures loan.None? || Exact(loan.value) ==> Pairs() == Without(old(Pairs()), key)
      ensures rootPageId != INVALID_PAGE_ID ==> (AllFound(tree) <==> loan.None? || Exact(loan.value))
      ensures rootPageId != INVALID_PAGE_ID && AllFound(tree) ==>
                forall k: Key :: FindIn(Pairs(), k) == if k == key then None else FindIn(old(Pairs()), k)
      ensures rootPageId != INVALID_PAGE_ID ==> Deleted(old(tree), key, cfg, Ending(tree, loan))
      ensures rootPageId != INVALID_PAGE_ID ==> DeletedBy(old(tree), key, merges, cfg, Ending(tree, loan))
      ensures loan.Some? ==> LoanDue(loan.value, cfg)
      ensures forall i | 0 <= i < |merges| :: MergeDue(merges[i], cfg)
      ensures Shaped(tree) ==> Searchable()
    {
      hide Flat, Plug, Shrunk, Shaped, AllFound, Exact, LoanShape, Outcome, WellFormed, Stored, Owned, Without, Path;
      hide Placed, Mended, Deleted, DeletedBy, FindIn, Taken, LoanDue, MergeDue;
      ValidSearchable();
      hide Valid, Searchable;
      forall k ensures FindIn(Without(Pairs(), key), k) == if k == key then None else FindIn(Pairs(), k) {
        WithoutFinds(Pairs(), key, k);
      }
      loan, merges := None, [];
      if rootPageId == INVALID_PAGE_ID {
        assert Without([], key) == [] by { WithoutNone([], key); }
        return;
      }
      var curr, currId, readSet, c, t := DeleteFromLeaf(key);
      ghost var h := 0;
      ghost var end := Mended(c, t, 0, cfg);
      merges := Repairs(old(tree), key, c, t);
      var short := IsShort(curr, t, NextId(c));
      var pinned := true;
      while rootPageId != currId && short
        invariant fresh(ObjectOf(curr)) && Mending(curr, currId, readSet, c, t, h)
        invariant short <==> Size(t) < MaxSize(t, cfg) / 2
        invariant Flat(tree) == Without(old(Pairs()), key) && Mended(c, t, h, cfg) == end
        decreases |readSet|
      {
        MendingAbove(c, t, h);
        var parentId := readSet[|readSet| - 1];
        readSet := readSet[..|readSet| - 1];
        var done, newId;
        ghost var l, c', t', h';
        done, newId, l, c', t', h' := FillUp(currId, parentId, pinned, c, t, h);
        if done {
          loan := Some(l);
          return;
        }
        c, t, h, currId, pinned := c', t', h', newId, false;
        TopPage(c, t, h);
        curr := FetchTreePage(newId);
        short := IsShort(curr, t, NextId(c));
      }
      Settle(c, t, h);
    }

    /** How the tree that lacks the pair is going to be repaired. */
    lemma Repairs(before: Tree, key: Key, c: Context, t: Tree) returns (merges: seq<Merging>)
      requires Shrunk(pages, c, t, 0, cfg) && Taken(before, key, c, t)
      ensures DeletedBy(before, key, merges, cfg, Mended(c, t, 0, cfg))
      ensures Mended(c, t, 0, cfg).loan.Some? ==> LoanDue(Mended(c, t, 0, cfg).loan.value, cfg)
      ensures forall i | 0 <= i < |merges| :: MergeDue(merges[i], cfg)
    {
      MendingContext(c, t, 0);
      merges := MendedRepairs(c, t, 0, cfg);
      RepairsDue(Plug(c, t), t, merges, cfg, Mended(c, t, 0, cfg));
    }

    lemma MendingContext(c: Context, t: Tree, h: nat)
      requires Shrunk(pages, c, t, h, cfg)
      ensures OrderedContext(c, h, cfg)
    {
    }

    lemma TopPage(c: Context, t: Tree, h: nat)
      requires Shrunk(pages, c, t, h, cfg)
      ensures t.id in pages && pages[t.id] == PageOf(t, NextId(c), cfg)
    {
    }

    /** A page that is not the root is not at the top, and it is the root only there. */
    lemma MendingAbove(c: Context, t: Tree, h: nat)
      requires Shrunk(pages, c, t, h, cfg) && tree == Plug(c, t)
      ensures c.Top? <==> tree.id == t.id
      ensures c.Frame? ==> |Path(c)| > 0 && Path(c)[|Path(c)| - 1] == c.id && Path(c)[..|Path(c)| - 1] == Path(c.up)
      ensures c.Frame? && Size(t) < MaxSize(t, cfg) / 2 ==> Size(t) + 1 == MaxSize(t, cfg) / 2
    {
      RootOf(c, t);
      if c.Frame? {
        PathIn(c);
        OnceOnly(pages, c, t);
      }
    }

    /** Nothing is short any more. */
    ghost method Settle(c: Context, t: Tree, h: nat)
      requires Shrunk(pages, c, t, h, cfg) && tree == Plug(c, t) && tree.id == rootPageId != INVALID_PAGE_ID
      requires cfg.internalMax >= 4 && cfg.leafMax >= 4
      requires rootPageId == t.id || MaxSize(t, cfg) / 2 <= Size(t)
      modifies this`height
      ensures Valid() || (tree.LeafNode? && Pairs() == [])
      ensures AllFound(tree) && Searchable() && Mended(c, t, h, cfg) == Ending(tree, None)
    {
      MendingAbove(c, t, h);
      ShrunkFits(pages, c, t, h, cfg);
      if FitsHole(c, t, cfg) {
        height := LooseFits(pages, c, t, h, cfg);
        WholeFound(tree, height, cfg);
        ValidSearchable();
      } else {
        Emptied(pages, t, h, cfg);
      }
    }
  }

  ghost function Lender(f: Family, fromRight: bool): Tree { if fromRight then f.tr else f.tl }

  ghost function Borrower(f: Family, fromRight: bool): Tree { if fromRight then f.tl else f.tr }

  /** Where a page came up short by one and its sibling has no entry to spare, the two fit on one page. */
  lemma DeclinedCanMerge(f: Family, h: nat, fromRight: bool, cfg: Config)
    requires FamilyOrdered(f, h, cfg)
    ensures var short, lender := Borrower(f, fromRight), Lender(f, fromRight);
            && Size(short) + 1 == MaxSize(short, cfg) / 2
            && Fits(lender, cfg) && Size(lender) <= MaxSize(lender, cfg) / 2 ==>
              CanMerge(f, h, cfg)
  {
    PairOrdered(f, h, cfg);
    hide Ordered, FamilyOrdered;
  }

  lemma LenderSpares(f: Family, h: nat, fromRight: bool, cfg: Config)
    requires FamilyOrdered(f, h, cfg) && f.tl.LeafNode? && f.tr.LeafNode? && f.tr.kvs != [] && cfg.leafMax >= 2
    requires cfg.leafMax / 2 < Size(Lender(f, fromRight)) <= cfg.leafMax
    requires cfg.leafMax / 2 <= Size(Borrower(f, fromRight)) + 1 <= cfg.leafMax
    ensures CanBorrow(f, h, fromRight, cfg)
  {
    hide FamilyOrdered;
  }

  lemma LenderLends(f: Family, h: nat, fromRight: bool, cfg: Config)
    requires FamilyOrdered(f, h, cfg) && f.tl.InnerNode? && cfg.internalMax / 2 < Size(Lender(f, fromRight))
    requires cfg.internalMax >= 3
    ensures CanLend(f, h, fromRight, cfg)
  {
    PairOrdered(f, h, cfg);
  }

  lemma LenderPage(pages: Pages, f: Family, h: nat, fromRight: bool, cfg: Config)
    requires FamilyOrdered(f, h, cfg) && FamilyStored(pages, f, cfg)
    ensures f.tl.LeafNode? <==> f.tr.LeafNode?
    ensures var l := Lender(f, fromRight);
            && l.id in pages
            && (l.LeafNode? ==> pages[l.id].Leaf? && pages[l.id].kvs == l.kvs && pages[l.id].maxSize == cfg.leafMax)
            && (l.InnerNode? ==> pages[l.id].Internal? && |pages[l.id].entries| == Size(l)
                                 && pages[l.id].maxSize == cfg.internalMax)
  {
    PairOrdered(f, h, cfg);
    hide ContextStored, Owned, FamilyOrdered;
    FamilyLists(pages, f, cfg);
  }

  /** What the pages of the two siblings hold, and what sorting them together gives. */
  lemma MergePageFacts(pages: Pages, f: Family, h: nat, cfg: Config)
    requires CanMerge(f, h, cfg) && FamilyStored(pages, f, cfg)
    ensures var next := FirstOf(f.right, NextId(f.up));
            && f.id in pages && pages[f.id] == PageOf(Parent(f), NextId(f.up), cfg)
            && f.tl.id in pages && pages[f.tl.id] == PageOf(f.tl, FirstLeaf(f.tr), cfg)
            && f.tr.id in pages && pages[f.tr.id] == PageOf(f.tr, next, cfg)
            && f.tl.id != f.tr.id && f.tl.id != INVALID_PAGE_ID && f.id != INVALID_PAGE_ID
            && (f.tl.LeafNode? ==>
                  && f.tr.LeafNode? && Merged(f.tl, f.tr).LeafNode?
                  && StableSort(f.tl.kvs + f.tr.kvs) == Merged(f.tl, f.tr).kvs)
            && (f.tl.InnerNode? ==>
                  && h > 0 && |f.tr.kids| > 0 && |f.tr.keys| > 0
                  && Stored(pages, f.tr.kids[0], FirstOf(f.tr.kids[1..], next), cfg)
                  && Ordered(f.tr.kids[0], h - 1, Sep(f), KidHi(f.tr.keys, 0, PairHi(f)), cfg)
                  && Least(f.tr.kids[0]) <= Size(f.tr.kids[0])
                  && Flat(f.tr.kids[0]) != []
                  && var l, r, m := Entries(f.tl.keys, f.tl.kids), Entries(f.tr.keys, f.tr.kids), Merged(f.tl, f.tr);
                  && |r| > 0 && r[0].val == f.tr.kids[0].id
                  && m.InnerNode?
                  && StableSort(l + r[0 := KV(Flat(f.tr.kids[0])[0].key, r[0].val)]) == Entries(m.keys, m.kids))
  {
    FamilyKinds(f, h, cfg);
    FamilyLists(pages, f, cfg);
    FamilyIds(f);
    FreeOwned(pages, f.tl.id, f.tr.id, Leaf([], 0, 0), Others(f));
    assert f.id in Others(f);
    MergedOrdered(f, h, cfg);
    if f.tl.LeafNode? {
      StableSortFixed(Merged(f.tl, f.tr).kvs);
    } else {
      MergeInnerFacts(pages, f, h, cfg);
    }
  }

  /** Joining two pages leaves the page of their parent as it is. */
  lemma JoinKeepsParent(pages: Pages, f: Family, h: nat, cfg: Config)
    requires CanMerge(f, h, cfg) && FamilyStored(pages, f, cfg)
    ensures var pages' := MergedPages(pages, f, cfg);
            f.id in pages && f.id in pages' && pages'[f.id] == pages[f.id] && f.id != f.tl.id && f.tr.id in pages
  {
    FamilyPages(pages, f, h, cfg);
    MergePageFacts(pages, f, h, cfg);
    FamilyIds(f);
    FreeOwned(pages, f.tl.id, f.tr.id, Leaf([], 0, 0), Others(f));
    assert f.id in Others(f);
  }

  lemma MergedId(tl: Tree, tr: Tree)
    ensures Merged(tl, tr).id == tl.id
  {}

  lemma RightPageFreed(pages: Pages, f: Family, h: nat, cfg: Config)
    requires CanMerge(f, h, cfg) && FamilyStored(pages, f, cfg)
    ensures f.tl.id != INVALID_PAGE_ID && f.tr.id != f.id && f.tr.id !in MergedPages(pages, f, cfg)
  {
    FamilyPages(pages, f, h, cfg);
  }

  /** The root page id of a stored family is a real page id. */
  lemma LentRoot(pages: Pages, f: Family, fromRight: bool, cfg: Config)
    requires LendShape(f, fromRight) && FamilyStored(pages, f, cfg)
    ensures Plug(f.up, LentParent(f, fromRight)).id == Plug(f.up, Parent(f)).id != INVALID_PAGE_ID
  {
    LentIs(f, fromRight);
    hide LentPair, LentParent, FamilyStored, Plug;
    RootOf(f.up, Parent(f));
    RootOf(f.up, LentParent(f, fromRight));
    RootNonzero(pages, f, cfg);
  }

  lemma RootNonzero(pages: Pages, f: Family, cfg: Config)
    requires FamilyStored(pages, f, cfg)
    ensures (if f.up.Top? then f.id else Path(f.up)[0]) != INVALID_PAGE_ID
  {
    assert f.id in Ids(Parent(f)) + ContextIds(f.up);
    if f.up.Frame? {
      PathIn(f.up);
      assert Path(f.up)[0] in Ids(Parent(f)) + ContextIds(f.up);
    }
  }

  lemma FamilyPages(pages: Pages, f: Family, h: nat, cfg: Config)
    requires FamilyOrdered(f, h, cfg) && FamilyStored(pages, f, cfg)
    ensures f.id in pages && pages[f.id] == Internal(Entries(f.keys, Parent(f).kids), cfg.internalMax)
    ensures f.tl.id != INVALID_PAGE_ID && f.id != INVALID_PAGE_ID && f.id != f.tr.id
  {
    FamilyLists(pages, f, cfg);
    FamilyIds(f);
    FreeOwned(pages, f.tl.id, f.tr.id, Leaf([], 0, 0), Others(f));
    assert f.id in Others(f);
  }

  lemma MergeInnerFacts(pages: Pages, f: Family, h: nat, cfg: Config)
    requires FamilyOrdered(f, h, cfg) && f.tl.InnerNode?
    requires KidsStored(pages, f.tr, FirstOf(f.right, NextId(f.up)), cfg)
    requires Ordered(Merged(f.tl, f.tr), h, PairLo(f), PairHi(f), cfg)
    ensures var next := FirstOf(f.right, NextId(f.up));
            && f.tr.InnerNode? && h > 0 && |f.tr.kids| > 0 && |f.tr.keys| > 0
            && Stored(pages, f.tr.kids[0], FirstOf(f.tr.kids[1..], next), cfg)
            && Ordered(f.tr.kids[0], h - 1, Sep(f), KidHi(f.tr.keys, 0, PairHi(f)), cfg)
            && Least(f.tr.kids[0]) <= Size(f.tr.kids[0])
            && Flat(f.tr.kids[0]) != []
            && var l, r, m := Entries(f.tl.keys, f.tl.kids), Entries(f.tr.keys, f.tr.kids), Merged(f.tl, f.tr);
            && |r| > 0 && r[0].val == f.tr.kids[0].id
            && m.InnerNode?
            && StableSort(l + r[0 := KV(Flat(f.tr.kids[0])[0].key, r[0].val)]) == Entries(m.keys, m.kids)
  {
    FamilyKinds(f, h, cfg);
    var kid, tr := f.tr.kids[0], f.tr;
    assert ListStored(pages, tr.kids, FirstOf(f.right, NextId(f.up)), cfg);
    OrderedFlat(kid, h - 1, Sep(f), KidHi(tr.keys, 0, PairHi(f)), cfg);
    FlatFirst(tr);
    var l, r, m := Entries(f.tl.keys, f.tl.kids), Entries(tr.keys, tr.kids), Merged(f.tl, tr);
    MergedEntryList(f.tl, tr);
    WholeAscending(m.keys, m.kids, PairLo(f), PairHi(f));
    StableSortFixed(Entries(m.keys, m.kids));
  }

  lemma FlatFirst(t: Tree)
    requires t.InnerNode? && t.kids != [] && Flat(t.kids[0]) != []
    ensures Flat(t) != [] && Flat(t)[0] == Flat(t.kids[0])[0]
  {
    assert t.kids == [t.kids[0]] + t.kids[1..];
    FlatAllAppend([t.kids[0]], t.kids[1..]);
    LeavesAllOne(t.kids[0]);
    FlatInner(t);
  }

  lemma MergedEntryList(tl: Tree, tr: Tree)
    requires tl.InnerNode? && tr.InnerNode? && |tl.keys| == |tl.kids| && |tr.keys| == |tr.kids| > 0 && Flat(tr) != []
    ensures var l, r, m := Entries(tl.keys, tl.kids), Entries(tr.keys, tr.kids), Merged(tl, tr);
            l + r[0 := KV(Flat(tr)[0].key, r[0].val)] == Entries(m.keys, m.kids)
  {
    hide Flat;
    var l, r, m := Entries(tl.keys, tl.kids), Entries(tr.keys, tr.kids), Merged(tl, tr);
    var a, z := l + r[0 := KV(Flat(tr)[0].key, r[0].val)], Entries(m.keys, m.kids);
    forall i | 0 <= i < |z| ensures a[i] == z[i] {
      if i >= |l| { assert m.kids[i] == tr.kids[i - |l|]; }
    }
  }

  lemma WholeAscending(keys: seq<Key>, kids: seq<Tree>, lo: Key, hi: Option<Key>)
    requires |keys| == |kids| && KeysOk(keys, lo, hi)
    ensures Ascending(Entries(keys, kids))
  {}

  /** The parent page is the root page exactly when nothing is above it. */
  lemma RootIsParent(pages: Pages, f: Family)
    requires FamilyStoredIds(pages, f)
    ensures f.up.Frame? ==> Path(f.up)[0] != f.id
  {
    if f.up.Frame? {
      PathIn(f.up);
      var ids := Ids(Parent(f)) + ContextIds(f.up);
      assert ids[f.id] <= 1;
      assert f.id in Ids(Parent(f));
    }
  }

  lemma StoredOwns(pages: Pages, f: Family, cfg: Config)
    requires FamilyStored(pages, f, cfg)
    ensures FamilyStoredIds(pages, f)
  {}

  ghost predicate FamilyStoredIds(pages: Pages, f: Family) { Owned(pages, Ids(Parent(f)) + ContextIds(f.up)) }

  lemma {:induction false} PathIn(c: Context)
    requires c.Frame?
    ensures Path(c)[0] in ContextIds(c)
  {
    if c.up.Frame? { PathIn(c.up); }
  }

  lemma HalfId(t: Tree)
    ensures LeftHalf(t).id == t.id
  {}

  lemma RightId(t: Tree, q: PageId)
    ensures RightHalf(t, q).id == q
  {}

  lemma PlugTop(t: Tree)
    ensures Plug(Top, t) == t
  {}

  lemma NextTop()
    ensures NextId(Top) == INVALID_PAGE_ID
  {}

  lemma TreeSorted(t: Tree, h: nat, cfg: Config)
    requires WellFormed(t, h, cfg)
    ensures Sorted(Flat(t))
  {
    OrderedFlat(t, h, EMPTY_KEY, None, cfg);
  }

  lemma LeafPageOf(pages: Pages, c: Context, t: Tree, h: nat, cfg: Config, key: Key)
    requires Reached(pages, c, t, h, cfg, key) && t.LeafNode?
    ensures t.id in pages && pages[t.id] == PageOf(t, NextId(c), cfg)
  {}

  lemma {:induction false} RootOf(c: Context, t: Tree)
    ensures Plug(c, t).id == if c.Top? then t.id else Path(c)[0]
    decreases c
  {
    if c.Frame? {
      RootOf(c.up, InnerNode(c.id, c.keys, c.left + [t] + c.right));
    }
  }

  lemma EntriesCut(keys: seq<Key>, kids: seq<Tree>, mid: nat)
    requires |keys| == |kids| && mid <= |kids|
    ensures Entries(keys, kids)[..mid] == Entries(keys[..mid], kids[..mid])
    ensures Entries(keys, kids)[mid..] == Entries(keys[mid..], kids[mid..])
  {}

  lemma TailAscending(keys: seq<Key>, kids: seq<Tree>, lo: Key, hi: Option<Key>, mid: nat)
    requires |keys| == |kids| && 1 <= mid <= |kids| && KeysOk(keys, lo, hi)
    ensures Ascending(Entries(keys[mid..], kids[mid..]))
  {}

  /** Cutting the stored entries in the middle gives the entries of the two halves, still sorted. */
  lemma InnerSplitParts(t: Tree, q: PageId, h: nat, lo: Key, hi: Option<Key>, cfg: Config)
    requires t.InnerNode? && Ordered(t, h, lo, hi, cfg) && 2 <= Size(t)
    ensures var e, mid, tl, tr := Entries(t.keys, t.kids), Size(t) / 2, LeftHalf(t), RightHalf(t, q);
            && |e| == Size(t)
            && e[..mid] == Entries(tl.keys, tl.kids)
            && e[mid..] == Entries(tr.keys, tr.kids)
            && StableSort(e[mid..]) == e[mid..]
  {
    hide Entries, StableSort, Ascending, KeysOk;
    var mid := Size(t) / 2;
    EntriesSorted(t, h, lo, hi, cfg);
    EntriesCut(t.keys, t.kids, mid);
    TailAscending(t.keys, t.kids, lo, hi, mid);
    StableSortFixed(Entries(t.keys, t.kids)[mid..]);
  }

  lemma KidsAmong(t: Tree, c: Context)
    requires t.InnerNode?
    ensures IdsAll(t.kids) <= Ids(t) + ContextIds(c)
  {}

  lemma RightStored(pages: Pages, c: Context, t: Tree, q: PageId, h: nat, cfg: Config)
    requires Splitting(pages, c, t, q, h, cfg)
    ensures var tr := RightHalf(t, q);
            Stored(pages[q := PageOf(tr, NextId(c), cfg)], tr, NextId(c), cfg)
  {
    hide OrderedContext, Ordered, ContextStored, Owned, Entries, Same, PageOf, Ids, IdsAll, ContextIds, FirstLeaf;
    var tl, tr := LeftHalf(t), RightHalf(t, q);
    var pages' := pages[q := PageOf(tr, NextId(c), cfg)];
    GrowOwned(pages, Ids(t) + ContextIds(c), q, PageOf(tr, NextId(c), cfg));
    if t.InnerNode? {
      KidsAmong(t, c);
      SamePart(pages, pages', Ids(t) + ContextIds(c), IdsAll(t.kids));
      KidsFrame(pages, pages', t, NextId(c), cfg);
      assert tl.kids + tr.kids == t.kids;
      ListStoredAppend(pages', tl.kids, tr.kids, NextId(c), cfg);
    }
  }

  /** Everything `Split` needs to know about the page it cuts in two. */
  lemma SplitParts(pages: Pages, c: Context, t: Tree, q: PageId, h: nat, cfg: Config)
    requires Splitting(pages, c, t, q, h, cfg)
    ensures var tl, tr, mid := LeftHalf(t), RightHalf(t, q), Size(t) / 2;
            && Flat(tr) != [] && Least(tr) <= Size(tr)
            && Ordered(tr, h, Flat(tr)[0].key, Hi(c), cfg)
            && Stored(pages[q := PageOf(tr, NextId(c), cfg)], tr, NextId(c), cfg)
            && (t.LeafNode? ==> StableSort(t.kvs[mid..]) == t.kvs[mid..])
            && (t.InnerNode? ==>
                  var e := Entries(t.keys, t.kids);
                  && |e| == Size(t)
                  && e[..mid] == Entries(tl.keys, tl.kids)
                  && e[mid..] == Entries(tr.keys, tr.kids)
                  && StableSort(e[mid..]) == e[mid..])
  {
    hide Stored, OrderedContext, Ordered, Flat, StableSort, Entries, KidsStored, ContextStored, Owned;
    HalvesOrdered(t, q, h, Lo(c), Hi(c), cfg);
    RightStored(pages, c, t, q, h, cfg);
    var tr := RightHalf(t, q);
    if t.LeafNode? {
      LeafIsSorted(tr, h, Flat(tr)[0].key, Hi(c), cfg);
      StableSortFixed(tr.kvs);
    } else {
      InnerSplitParts(t, q, h, Lo(c), Hi(c), cfg);
    }
  }

  /** How many entries the page in flight may hold. */
  lemma FlightSize(pages: Pages, c: Context, t: Tree, h: nat, cfg: Config)
    requires InFlight(pages, c, t, h, cfg)
    ensures Size(t) <= MaxSize(t, cfg) + 1
  {}

  /** After a split the stored parent page still shows the entries around the left half. */
  lemma ParentPage(pages: Pages, c: Context, t: Tree, q: PageId, h: nat, cfg: Config)
    requires Splitting(pages, c, t, q, h, cfg) && c.Frame?
    ensures var m := Flat(RightHalf(t, q));
            && m != [] && Lo(c) < m[0].key && Below(m[0].key, Hi(c)) && OrderedContext(c, h, cfg)
    ensures var pages' := SplitPages(pages, t, q, NextId(c), cfg);
            c.id in pages' && pages'[c.id] == Internal(FrameEntries(c, t.id), cfg.internalMax)
    ensures |c.left| < |c.keys|
  {
    SplitStored(pages, c, t, q, h, cfg);
    HalvesOrdered(t, q, h, Lo(c), Hi(c), cfg);
  }

  /** One round below the root: what the parent page holds, what it becomes, and the tree it leaves in flight. */
  lemma ParentStep(pages: Pages, c: Context, t: Tree, q: PageId, h: nat, cfg: Config)
    requires Splitting(pages, c, t, q, h, cfg) && c.Frame?
    ensures Flat(RightHalf(t, q)) != [] && |c.left| < |c.keys|
    ensures var pages', tl, tr := SplitPages(pages, t, q, NextId(c), cfg), LeftHalf(t), RightHalf(t, q);
            var m, e := Flat(tr)[0].key, FrameEntries(c, t.id);
            var p := Adopt(c, tl, m, tr);
            && c.id in pages' && pages'[c.id] == Internal(e, cfg.internalMax)
            && e != [] && [e[0]] + StableSort(e[1..] + [KV(m, q)]) == Entries(p.keys, p.kids)
            && InFlight(pages', c.up, p, h + 1, cfg)
            && Flat(Plug(c.up, p)) == Flat(Plug(c, t))
  {
    hide Splitting, InFlight, OrderedContext, Flat, Plug, Lo, Hi, StableSort, Entries, FrameEntries;
    ParentPage(pages, c, t, q, h, cfg);
    HalfId(t);
    RightId(t, q);
    AdoptEntries(c, LeftHalf(t), Flat(RightHalf(t, q))[0].key, RightHalf(t, q), h, cfg);
    SplitUnderParent(pages, c, t, q, h, cfg);
  }

  /** One round at the root: the two entries of the new root and the tree it leaves in flight. */
  lemma RootStep(pages: Pages, t: Tree, q: PageId, r: PageId, h: nat, cfg: Config)
    requires Splitting(pages, Top, t, q, h, cfg)
    requires r !in SplitPages(pages, t, q, INVALID_PAGE_ID, cfg) && r != INVALID_PAGE_ID
    ensures Flat(RightHalf(t, q)) != [] && NextId(Top) == INVALID_PAGE_ID
    ensures var p, kv := NewRoot(t, q, r), KV(Flat(RightHalf(t, q))[0].key, q);
            && Entries(p.keys, p.kids) == [KV(EMPTY_KEY, t.id)] + StableSort([KV(EMPTY_KEY, t.id)][1..] + [kv])
            && InFlight(SplitPages(pages, t, q, INVALID_PAGE_ID, cfg)[r := PageOf(p, INVALID_PAGE_ID, cfg)],
                        Top, p, h + 1, cfg)
            && Flat(p) == Flat(t)
  {
    hide Splitting, InFlight, Flat, StableSort, RightHalf;
    SplitRoot(pages, t, q, r, h, cfg);
    var kv := KV(Flat(RightHalf(t, q))[0].key, q);
    RootEntries(t, q, r, kv);
  }

  lemma RootEntries(t: Tree, q: PageId, r: PageId, kv: KV<PageId>)
    requires Flat(RightHalf(t, q)) != [] && kv == KV(Flat(RightHalf(t, q))[0].key, q)
    ensures var p := NewRoot(t, q, r);
            Entries(p.keys, p.kids) == [KV(EMPTY_KEY, t.id)] + StableSort([KV(EMPTY_KEY, t.id)][1..] + [kv])
  {
    hide Flat;
    assert [KV(EMPTY_KEY, t.id)][1..] + [kv] == [kv];
    StableSortFixed([kv]);
  }

  lemma SwapWrites(pages: Pages, a: PageId, b: PageId, x: TreePage, y: TreePage)
    requires a != b
    ensures pages[a := x][b := y] == pages[b := y][a := x]
  {}

  /** The pages a borrow reads. */
  lemma BorrowPages(pages: Pages, f: Family, h: nat, minMax: bool, cfg: Config)
    requires CanBorrow(f, h, minMax, cfg) && FamilyStored(pages, f, cfg)
    ensures f.tl.LeafNode? && f.tr.LeafNode? && f.tr.kvs != []
    ensures if minMax then |f.tr.kvs| >= 2 else |f.tl.kvs| >= 2
    ensures f.tl.id in pages && pages[f.tl.id] == Leaf(f.tl.kvs, cfg.leafMax, f.tr.id)
    ensures f.tr.id in pages && pages[f.tr.id] == Leaf(f.tr.kvs, cfg.leafMax, FirstOf(f.right, NextId(f.up)))
    ensures f.id in pages && pages[f.id] == Internal(Entries(f.keys, Parent(f).kids), cfg.internalMax)
    ensures f.id != f.tl.id && f.id != f.tr.id && f.tl.id != f.tr.id && f.id != INVALID_PAGE_ID
            && f.tl.id != INVALID_PAGE_ID
  {
    FamilyPages(pages, f, h, cfg);
    FamilyLists(pages, f, cfg);
    FamilyIds(f);
    FreeOwned(pages, f.tl.id, f.tr.id, Leaf([], 0, 0), Others(f));
    assert f.id in Others(f);
  }

  /** What sorting the moved pair in gives. */
  lemma BorrowPair(f: Family, h: nat, minMax: bool, cfg: Config)
    requires CanBorrow(f, h, minMax, cfg)
    ensures var (a, b) := BorrowedPair(f.tl, f.tr, minMax);
            && a.LeafNode? && b.LeafNode? && a.id == f.tl.id && b.id == f.tr.id && b.kvs != []
            && (minMax ==> StableSort(f.tl.kvs + [f.tr.kvs[0]]) == a.kvs && b.kvs == f.tr.kvs[1..])
            && (!minMax ==>
                  var n := |f.tl.kvs| - 1;
                  && StableSort(f.tr.kvs + [f.tl.kvs[n]]) == b.kvs && a.kvs == f.tl.kvs[..n]
                  && |b.kvs| >= 2 && b.kvs[1] == f.tr.kvs[0])
  {
    BorrowSorts(f, h, minMax, cfg);
  }

  /** The two leaves as the borrow writes them. */
  lemma MovedPages(pages: Pages, f: Family, h: nat, minMax: bool, cfg: Config)
    requires CanBorrow(f, h, minMax, cfg) && FamilyStored(pages, f, cfg)
    ensures f.tl.LeafNode? && f.tr.LeafNode? && (if minMax then |f.tr.kvs| >= 2 else |f.tl.kvs| >= 2)
    ensures f.tl.id in pages && f.tr.id in pages && pages[f.tl.id].Leaf? && pages[f.tr.id].Leaf?
    ensures pages[f.tl.id].kvs == f.tl.kvs && pages[f.tr.id].kvs == f.tr.kvs
    ensures var (a, b) := BorrowedPair(f.tl, f.tr, minMax);
            var p, q, n := pages[f.tl.id], pages[f.tr.id], |f.tl.kvs| - 1;
            var written := pages[a.id := PageOf(a, b.id, cfg)][b.id := PageOf(b, FirstOf(f.right, NextId(f.up)), cfg)];
            && b.LeafNode? && b.kvs != []
            && (minMax ==>
                  && b.kvs[0].key == f.tr.kvs[1].key
                  && written == pages[f.tl.id := p.(kvs := StableSort(p.kvs + [q.kvs[0]]))]
                                     [f.tr.id := q.(kvs := q.kvs[1..])])
            && (!minMax ==>
                  && f.tr.kvs != []
                  && var s := StableSort(q.kvs + [p.kvs[n]]);
                  && s[1].key == f.tr.kvs[0].key && s[0].key == b.kvs[0].key
                  && written == pages[f.tr.id := q.(kvs := s)][f.tl.id := p.(kvs := p.kvs[..n])])
  {
    hide FamilyStored, StableSort, FirstOf, NextId, BorrowedPair, FamilyOrdered, Entries, Fits;
    BorrowPages(pages, f, h, minMax, cfg);
    BorrowPair(f, h, minMax, cfg);
    hide CanBorrow;
    var (a, b) := BorrowedPair(f.tl, f.tr, minMax);
    var next := FirstOf(f.right, NextId(f.up));
    assert PageOf(a, b.id, cfg) == Leaf(a.kvs, cfg.leafMax, f.tr.id);
    assert PageOf(b, next, cfg) == Leaf(b.kvs, cfg.leafMax, next);
    if !minMax {
      SwapWrites(pages, a.id, b.id, PageOf(a, b.id, cfg), PageOf(b, next, cfg));
    }
  }

  /** What searching the parent for the old key and re-keying it gives. */
  lemma BorrowParent(f: Family, h: nat, minMax: bool, cfg: Config)
    requires CanBorrow(f, h, minMax, cfg)
    ensures |f.left| + 1 < |f.keys|
    ensures var e := Entries(f.keys, Parent(f).kids);
            && |e| != 1 && SlotsSorted(e)
            && (forall j | 1 <= j < |e| :: e[j].key == f.tr.kvs[0].key ==> j == |f.left| + 1)
            && |f.left| + 1 < |e| && e[|f.left| + 1].key == Sep(f)
    ensures var (a, b) := BorrowedPair(f.tl, f.tr, minMax);
            var e, p := Entries(f.keys, Parent(f).kids), BorrowedParent(f, minMax);
            && p.InnerNode? && p.id == f.id && b.LeafNode? && b.kvs != []
            && Entries(p.keys, p.kids) ==
               if Sep(f) == f.tr.kvs[0].key then e[|f.left| + 1 := KV(b.kvs[0].key, e[|f.left| + 1].val)] else e
  {
    FamilyKinds(f, h, cfg);
    BorrowSearch(f, h, minMax, cfg);
    BorrowEntries(f, minMax);
  }

  lemma SortsLast(s: seq<KV<RecordId>>, x: KV<RecordId>)
    requires Sorted(s) && forall i | 0 <= i < |s| :: s[i].key < x.key
    ensures StableSort(s + [x]) == s + [x]
  {
    hide StableSort;
    StableSortFixed(s + [x]);
  }

  lemma BorrowSorts(f: Family, h: nat, minMax: bool, cfg: Config)
    requires CanBorrow(f, h, minMax, cfg)
    ensures minMax ==> StableSort(f.tl.kvs + [f.tr.kvs[0]]) == f.tl.kvs + [f.tr.kvs[0]]
    ensures !minMax ==> var n := |f.tl.kvs| - 1; StableSort(f.tr.kvs + [f.tl.kvs[n]]) == [f.tl.kvs[n]] + f.tr.kvs
  {
    hide StableSort;
    if minMax {
      SortsLast(f.tl.kvs, f.tr.kvs[0]);
    } else {
      StableSortFirst(f.tr.kvs, f.tl.kvs[|f.tl.kvs| - 1]);
    }
  }

  lemma BorrowSearch(f: Family, h: nat, minMax: bool, cfg: Config)
    requires CanBorrow(f, h, minMax, cfg)
    ensures var e := Entries(f.keys, Parent(f).kids);
            && |e| == |f.keys| && |e| != 1 && SlotsSorted(e)
            && (forall j | 1 <= j < |e| :: e[j].key == f.tr.kvs[0].key ==> j == |f.left| + 1)
  {
    var e, i := Entries(f.keys, Parent(f).kids), |f.left|;
    assert forall j | 0 <= j < |e| :: e[j].key == f.keys[j];
    var k := f.tr.kvs[0].key;
    assert Sep(f) <= k && Below(k, PairHi(f));
    assert forall j | i + 2 <= j < |e| :: k < f.keys[i + 2] <= f.keys[j];
  }

  lemma BorrowEntries(f: Family, minMax: bool)
    requires f.tl.LeafNode? && f.tr.LeafNode? && f.tr.kvs != [] && |f.keys| == |f.left| + 2 + |f.right|
    requires if minMax then |f.tr.kvs| >= 2 else |f.tl.kvs| >= 2
    ensures var (a, b) := BorrowedPair(f.tl, f.tr, minMax);
            var e, p := Entries(f.keys, Parent(f).kids), BorrowedParent(f, minMax);
            && |e| == |f.keys| && e[|f.left| + 1].key == Sep(f)
            && Entries(p.keys, p.kids) ==
               if Sep(f) == f.tr.kvs[0].key then e[|f.left| + 1 := KV(b.kvs[0].key, e[|f.left| + 1].val)] else e
  {
    var (a, b) := BorrowedPair(f.tl, f.tr, minMax);
    var e, p, i := Entries(f.keys, Parent(f).kids), BorrowedParent(f, minMax), |f.left|;
    forall j | 0 <= j < |e| ensures p.kids[j].id == Parent(f).kids[j].id {
      if j < i { assert p.kids[j] == f.left[j]; } else if j > i + 1 { assert p.kids[j] == f.right[j - i - 2]; }
    }
  }

  lemma BorrowedWhole(pages: Pages, f: Family, h: nat, minMax: bool, cfg: Config)
    requires CanBorrow(f, h, minMax, cfg)
    requires var p := BorrowedParent(f, minMax);
             && Stored(pages, p, NextId(f.up), cfg) && ContextStored(pages, f.up, p.id, FirstLeaf(p), cfg)
             && Owned(pages, Ids(p) + ContextIds(f.up))
    ensures var t := Plug(f.up, BorrowedParent(f, minMax));
            && Stored(pages, t, INVALID_PAGE_ID, cfg) && Placed(pages, t, cfg) && Owned(pages, Ids(t))
            && Flat(t) == Flat(Plug(f.up, Parent(f)))
            && t.id != INVALID_PAGE_ID
  {
    UpOrdered(f, h, cfg);
    BorrowedFlat(f, minMax);
    var p := BorrowedParent(f, minMax);
    hide *;
    PluggedWhole(pages, f.up, p, Parent(f), h, cfg);
  }

  /** A stored subtree with the same pairs in place of another. */
  lemma PluggedWhole(pages: Pages, c: Context, p: Tree, before: Tree, h: nat, cfg: Config)
    requires OrderedContext(c, h + 1, cfg) && Stored(pages, p, NextId(c), cfg)
    requires ContextStored(pages, c, p.id, FirstLeaf(p), cfg) && Owned(pages, Ids(p) + ContextIds(c))
    requires Flat(p) == Flat(before)
    ensures var t := Plug(c, p);
            && Stored(pages, t, INVALID_PAGE_ID, cfg) && Placed(pages, t, cfg) && Owned(pages, Ids(t))
            && Flat(t) == Flat(Plug(c, before))
            && t.id != INVALID_PAGE_ID
  {
    hide *;
    StoredPlug(pages, c, p, h + 1, cfg);
    StoredPlaced(pages, Plug(c, p), INVALID_PAGE_ID, cfg);
    OwnedTop(pages, Plug(c, p));
    PlugLeaves(c, p);
    PlugLeaves(c, before);
  }

  lemma OwnedTop(pages: Pages, t: Tree)
    ensures Owned(pages, Ids(t)) ==> t.id != INVALID_PAGE_ID
  {
    assert t.id in Ids(t);
  }

  lemma BorrowedFits(pages: Pages, f: Family, h: nat, minMax: bool, cfg: Config) returns (h': nat)
    requires CanBorrow(f, h, minMax, cfg) && FitsHole(f.up, Parent(f), cfg)
    requires Ordered(BorrowedParent(f, minMax), h + 1, Lo(f.up), Hi(f.up), cfg)
    ensures WellFormed(Plug(f.up, BorrowedParent(f, minMax)), h', cfg)
  {
    hide Ordered;
    h' := PlugWellFormed(f.up, BorrowedParent(f, minMax), h + 1, cfg);
  }
}
