/** What a descent finds, also in a tree whose separators no longer bound its subtrees. */
module IndexSearch {
  import opened Prelude
  import opened KeyValues
  import opened IndexPage
  import opened IndexTree
  import opened IndexStore
  import opened IndexMerge

  /** Sorted pages with something to choose between; separators need not bound anything. */
  ghost predicate Shaped(t: Tree)
    decreases t
  {
    match t
    case LeafNode(_, kvs) => Sorted(kvs)
    case InnerNode(_, keys, kids) =>
      && 2 <= |keys| == |kids|
      && (forall i, j | 1 <= i < j < |keys| :: keys[i] < keys[j])
      && (forall i | 0 <= i < |kids| :: Shaped(kids[i]))
  }

  /** The last slot whose key is not above `key`, or slot zero. */
  ghost function Route(keys: seq<Key>, key: Key): (r: nat)
    requires keys != []
    ensures r < |keys|
  {
    var n := |keys| - 1;
    if n == 0 || keys[n] <= key then n else Route(keys[..n], key)
  }

  lemma {:induction false} RouteIs(keys: seq<Key>, key: Key, r: nat)
    requires r < |keys| && (r >= 1 ==> keys[r] <= key) && forall j | r < j < |keys| :: key < keys[j]
    ensures Route(keys, key) == r
  {
    var n := |keys| - 1;
    if r < n {
      RouteIs(keys[..n], key, r);
    }
  }

  ghost function FindIn(kvs: seq<KV<RecordId>>, key: Key): Option<RecordId> {
    if kvs == [] then None else if kvs[0].key == key then Some(kvs[0].val) else FindIn(kvs[1..], key)
  }

  lemma {:induction false} FindInIs(kvs: seq<KV<RecordId>>, key: Key)
    requires Sorted(kvs)
    ensures forall i | 0 <= i < |kvs| && kvs[i].key == key :: FindIn(kvs, key) == Some(kvs[i].val)
    ensures (forall i | 0 <= i < |kvs| :: kvs[i].key != key) ==> FindIn(kvs, key) == None
  {
    if kvs != [] {
      FindInIs(kvs[1..], key);
      assert forall i | 0 < i < |kvs| :: kvs[i] == kvs[1..][i - 1];
    }
  }

  /** Following the separators down and looking into one leaf. */
  ghost function Search(t: Tree, key: Key): Option<RecordId>
    requires Shaped(t)
    decreases t
  {
    match t
    case LeafNode(_, kvs) => FindIn(kvs, key)
    case InnerNode(_, keys, kids) => Search(kids[Route(keys, key)], key)
  }

  /** Where following the separators ends, and what is left behind on the way. */
  ghost function Descent(c: Context, t: Tree, key: Key): (Context, Tree)
    requires Shaped(t)
    decreases t
  {
    if t.LeafNode? then (c, t)
    else
      var r := Route(t.keys, key);
      Descent(Down(c, t, r), t.kids[r], key)
  }

  /** The tree after an insertion: the leaf a descent ends at takes in the pair, and overfull pages are split. */
  ghost predicate Inserted(before: Tree, kv: KV<RecordId>, cfg: Config, after: Tree) {
    && Shaped(before)
    && var (c, t) := Descent(Top, before, kv.key);
       t.LeafNode? && ClimbsTo(c, LeafNode(t.id, StableSort(t.kvs + [kv])), cfg, after)
  }

  /** Every node sits on its own page, wherever leaves lead next. */
  ghost predicate Placed(pages: Pages, t: Tree, cfg: Config)
    decreases t
  {
    && t.id in pages
    && match t
       case LeafNode(_, kvs) => pages[t.id].Leaf? && pages[t.id].kvs == kvs && pages[t.id].maxSize == cfg.leafMax
       case InnerNode(_, keys, kids) =>
         && pages[t.id] == Internal(Entries(keys, kids), cfg.internalMax)
         && forall i | 0 <= i < |kids| :: Placed(pages, kids[i], cfg)
  }

  lemma {:induction false} StoredPlaced(pages: Pages, t: Tree, next: PageId, cfg: Config)
    requires Stored(pages, t, next, cfg)
    ensures Placed(pages, t, cfg)
    decreases t, 1
  {
    if t.InnerNode? {
      ListPlaced(pages, t.kids, next, cfg);
    }
  }

  lemma {:induction false} ListPlaced(pages: Pages, ts: seq<Tree>, next: PageId, cfg: Config)
    requires ListStored(pages, ts, next, cfg)
    ensures forall i | 0 <= i < |ts| :: Placed(pages, ts[i], cfg)
    decreases ts, 0
  {
    if ts != [] {
      StoredPlaced(pages, ts[0], FirstOf(ts[1..], next), cfg);
      ListPlaced(pages, ts[1..], next, cfg);
      assert forall i | 0 < i < |ts| :: ts[i] == ts[1..][i - 1];
    }
  }

  /** In an ordered tree every page is shaped. */
  lemma {:induction false} OrderedShaped(t: Tree, h: nat, lo: Key, hi: Option<Key>, cfg: Config)
    requires Ordered(t, h, lo, hi, cfg) && Least(t) <= Size(t)
    ensures Shaped(t)
    decreases t
  {
    if t.InnerNode? {
      forall i | 0 <= i < |t.kids| ensures Shaped(t.kids[i]) {
        KidOrdered(t, h, lo, hi, cfg, i);
        OrderedShaped(t.kids[i], h - 1, KidLo(t.keys, i, lo), KidHi(t.keys, i, hi), cfg);
      }
    }
  }

  lemma ShapedUp(c: Context, t: Tree, h: nat, cfg: Config)
    requires c.Frame? && OrderedContext(c, h, cfg) && Shaped(t)
    ensures Shaped(InnerNode(c.id, c.keys, c.left + [t] + c.right))
  {
    var kids := c.left + [t] + c.right;
    forall i | 0 <= i < |kids| ensures Shaped(kids[i]) {
      if i < |c.left| {
        OrderedShaped(c.left[i], h, KidLo(c.keys, i, Lo(c.up)), KidHi(c.keys, i, Hi(c.up)), cfg);
      } else if i > |c.left| {
        var r := i - |c.left| - 1;
        OrderedShaped(c.right[r], h, KidLo(c.keys, |c.left| + 1 + r, Lo(c.up)),
                      KidHi(c.keys, |c.left| + 1 + r, Hi(c.up)), cfg);
      }
    }
  }

  /** A descent for a key between the bounds of a hole passes through it. */
  lemma {:induction false} SearchPlug(c: Context, t: Tree, h: nat, cfg: Config, key: Key)
    requires OrderedContext(c, h, cfg) && Shaped(t) && Lo(c) <= key && Below(key, Hi(c))
    ensures Shaped(Plug(c, t)) && Search(Plug(c, t), key) == Search(t, key)
    decreases c
  {
    if c.Frame? {
      var p := InnerNode(c.id, c.keys, c.left + [t] + c.right);
      ShapedUp(c, t, h, cfg);
      HoleRoute(c, h, cfg, key);
      assert p.kids[|c.left|] == t;
      SearchPlug(c.up, p, h + 1, cfg, key);
    }
  }

  lemma HoleRoute(c: Context, h: nat, cfg: Config, key: Key)
    requires c.Frame? && OrderedContext(c, h, cfg) && Lo(c) <= key && Below(key, Hi(c))
    ensures c.keys != [] && Route(c.keys, key) == |c.left| && Lo(c.up) <= key && Below(key, Hi(c.up))
  {
    RouteIs(c.keys, key, |c.left|);
  }

  // ---- after a pair has moved between two leaves --------------------------------------------------

  /** The pair a borrow moves. */
  ghost function Moved(f: Family, fromRight: bool): KV<RecordId>
    requires f.tl.LeafNode? && f.tr.LeafNode? && (if fromRight then f.tr.kvs != [] else f.tl.kvs != [])
  {
    if fromRight then f.tr.kvs[0] else f.tl.kvs[|f.tl.kvs| - 1]
  }

  lemma BorrowedShaped(f: Family, h: nat, fromRight: bool, cfg: Config)
    requires CanBorrow(f, h, fromRight, cfg)
    ensures Shaped(BorrowedParent(f, fromRight))
  {
    var p := BorrowedParent(f, fromRight);
    if Sep(f) == f.tr.kvs[0].key { BorrowKeys(f, h, fromRight, cfg); }
    PairShaped(f, h, fromRight, cfg);
    forall i | 0 <= i < |f.left| ensures Shaped(f.left[i]) {
      LeftSibling(f, h, cfg, i);
      OrderedShaped(f.left[i], h, KidLo(f.keys, i, Lo(f.up)), KidHi(f.keys, i, Hi(f.up)), cfg);
    }
    forall r | 0 <= r < |f.right| ensures Shaped(f.right[r]) {
      var i := |f.left| + 2 + r;
      RightSibling(f, h, cfg, r);
      OrderedShaped(f.right[r], h, KidLo(f.keys, i, Lo(f.up)), KidHi(f.keys, i, Hi(f.up)), cfg);
    }
    KidsShaped(f, fromRight);
    hide Shaped, Ordered, Fits, OrderedContext;
    assert 2 <= |p.keys| == |p.kids|;
    assert forall i, j | 1 <= i < j < |p.keys| :: p.keys[i] < p.keys[j];
    NodeShaped(p);
  }

  lemma NodeShaped(t: Tree)
    requires t.InnerNode? && 2 <= |t.keys| == |t.kids| && forall i, j | 1 <= i < j < |t.keys| :: t.keys[i] < t.keys[j]
    requires forall i | 0 <= i < |t.kids| :: Shaped(t.kids[i])
    ensures Shaped(t)
  {
  }

  lemma PairShaped(f: Family, h: nat, fromRight: bool, cfg: Config)
    requires CanBorrow(f, h, fromRight, cfg)
    ensures var (a, b) := BorrowedPair(f.tl, f.tr, fromRight); Shaped(a) && Shaped(b)
  {
    SepInside(f, h, cfg);
  }

  lemma KidsShaped(f: Family, fromRight: bool)
    requires f.tl.LeafNode? && f.tr.LeafNode? && f.tr.kvs != [] && |f.left| + 1 < |f.keys|
    requires if fromRight then |f.tr.kvs| >= 2 else |f.tl.kvs| >= 2
    requires var (a, b) := BorrowedPair(f.tl, f.tr, fromRight); Shaped(a) && Shaped(b)
    requires (forall i | 0 <= i < |f.left| :: Shaped(f.left[i]))
             && (forall i | 0 <= i < |f.right| :: Shaped(f.right[i]))
    ensures var p := BorrowedParent(f, fromRight); forall i | 0 <= i < |p.kids| :: Shaped(p.kids[i])
  {
    hide Shaped, BorrowedPair;
    var p := BorrowedParent(f, fromRight);
    forall i | 0 <= i < |p.kids| ensures Shaped(p.kids[i]) {
      if i > |f.left| + 1 { assert p.kids[i] == f.right[i - |f.left| - 2]; }
    }
  }

  /** Which of the two leaves a search for the moved pair looks into. */
  lemma MovedRoute(f: Family, h: nat, fromRight: bool, cfg: Config)
    requires CanBorrow(f, h, fromRight, cfg)
    ensures var keys, exact := BorrowedParent(f, fromRight).keys, Sep(f) == f.tr.kvs[0].key;
            keys != [] && Route(keys, Moved(f, fromRight).key) == |f.left| + if fromRight == exact then 0 else 1
  {
    var p, i, key := BorrowedParent(f, fromRight), |f.left|, Moved(f, fromRight).key;
    var exact := Sep(f) == f.tr.kvs[0].key;
    SepInside(f, h, cfg);
    assert PairLo(f) <= key && Below(key, PairHi(f));
    if exact { BorrowedLeaves(f, h, fromRight, cfg); }
    RouteIs(p.keys, key, i + if fromRight == exact then 0 else 1);
  }

  lemma MovedFound(f: Family, h: nat, fromRight: bool, cfg: Config)
    requires CanBorrow(f, h, fromRight, cfg)
    ensures var (a, b) := BorrowedPair(f.tl, f.tr, fromRight);
            var kv := Moved(f, fromRight);
            && FindIn(a.kvs, kv.key) == (if fromRight then Some(kv.val) else None)
            && FindIn(b.kvs, kv.key) == (if fromRight then None else Some(kv.val))
  {
    var (a, b) := BorrowedPair(f.tl, f.tr, fromRight);
    SepInside(f, h, cfg);
    FindInIs(a.kvs, Moved(f, fromRight).key);
    FindInIs(b.kvs, Moved(f, fromRight).key);
    if fromRight {
      assert a.kvs[|f.tl.kvs|] == Moved(f, fromRight);
    } else {
      assert b.kvs[0] == Moved(f, fromRight);
    }
  }

  /** A search finds the moved pair exactly when the separator was the right leaf's first key, and else nothing. */
  ghost predicate FindsMoved(t: Tree, f: Family, fromRight: bool) {
    && Shaped(t) && f.tl.LeafNode? && f.tr.LeafNode? && f.tr.kvs != [] && |f.left| + 1 < |f.keys|
    && (fromRight || f.tl.kvs != [])
    && var kv := Moved(f, fromRight);
       Search(t, kv.key) == if Sep(f) == f.tr.kvs[0].key then Some(kv.val) else None
  }

  /**
   * After a pair moved between two leaves, a search of the whole tree for it finds it if and only if the parent's
   * separator was exactly the right leaf's first key. With any other separator it is still stored, and lost.
   */
  lemma BorrowFinds(f: Family, h: nat, fromRight: bool, cfg: Config)
    requires CanBorrow(f, h, fromRight, cfg)
    ensures var t, kv := Plug(f.up, BorrowedParent(f, fromRight)), Moved(f, fromRight);
            && Shaped(t) && kv in Flat(t)
            && Search(t, kv.key) == (if Sep(f) == f.tr.kvs[0].key then Some(kv.val) else None)
            && FindsMoved(t, f, fromRight)
  {
    var p, kv := BorrowedParent(f, fromRight), Moved(f, fromRight);
    BorrowedShaped(f, h, fromRight, cfg);
    MovedRoute(f, h, fromRight, cfg);
    MovedFound(f, h, fromRight, cfg);
    var (a, b) := BorrowedPair(f.tl, f.tr, fromRight);
    assert p.kids[|f.left|] == a && p.kids[|f.left| + 1] == b;
    MovedInside(f, h, fromRight, cfg);
    MovedStored(f, fromRight);
    assert Search(p, kv.key) == if Sep(f) == f.tr.kvs[0].key then Some(kv.val) else None;
    hide Search, Shaped, Moved, BorrowedParent, BorrowedPair, Ordered, OrderedContext, Flat, FamilyOrdered;
    SearchPlug(f.up, p, h + 1, cfg, kv.key);
  }

  lemma MovedInside(f: Family, h: nat, fromRight: bool, cfg: Config)
    requires CanBorrow(f, h, fromRight, cfg)
    ensures Lo(f.up) <= Moved(f, fromRight).key && Below(Moved(f, fromRight).key, Hi(f.up))
    ensures OrderedContext(f.up, h + 1, cfg)
  {
    SepInside(f, h, cfg);
  }

  lemma MovedStored(f: Family, fromRight: bool)
    requires f.tl.LeafNode? && f.tr.LeafNode? && f.tr.kvs != [] && |f.left| + 1 < |f.keys|
    requires if fromRight then |f.tr.kvs| >= 2 else |f.tl.kvs| >= 2
    ensures Moved(f, fromRight) in Flat(Plug(f.up, BorrowedParent(f, fromRight)))
  {
    BorrowedFlat(f, fromRight);
    ParentFlat(f);
    FlatLeaf(f.tl);
    FlatLeaf(f.tr);
    PlugLeaves(f.up, BorrowedParent(f, fromRight));
    hide Flat, FlatAll, FlatBefore, FlatAfter, BorrowedParent;
    assert Moved(f, fromRight) in f.tl.kvs + f.tr.kvs;
  }
}
