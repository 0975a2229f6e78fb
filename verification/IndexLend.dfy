/** A subtree moved between two sibling inner pages, as the page store holds it. */
module IndexLend {
  import opened Prelude
  import opened KeyValues
  import opened IndexPage
  import opened IndexTree
  import opened IndexStore
  import opened IndexMerge
  import opened IndexSearch
  import opened IndexBorrow

  // ---- slots and the entries on a page ------------------------------------------------------------

  ghost function Kids(s: seq<KV<Tree>>): seq<Tree> { seq(|s|, i requires 0 <= i < |s| => s[i].val) }

  /** Slots as the page has them: subtrees by their page ids. */
  ghost function OnPage(s: seq<KV<Tree>>): seq<KV<PageId>> {
    seq(|s|, i requires 0 <= i < |s| => KV(s[i].key, s[i].val.id))
  }

  lemma {:induction false} InsertOnPage(s: seq<KV<Tree>>, x: KV<Tree>)
    ensures OnPage(InsertLast(s, x)) == InsertLast(OnPage(s), KV(x.key, x.val.id))
  {
    if s != [] && s[|s| - 1].key > x.key {
      var n := |s| - 1;
      InsertOnPage(s[..n], x);
      assert OnPage(s)[..n] == OnPage(s[..n]);
    }
  }

  lemma {:induction false} SortOnPage(s: seq<KV<Tree>>)
    ensures OnPage(StableSort(s)) == StableSort(OnPage(s))
  {
    if s != [] {
      var n := |s| - 1;
      SortOnPage(s[..n]);
      InsertOnPage(StableSort(s[..n]), s[n]);
      assert OnPage(s)[..n] == OnPage(s[..n]);
    }
  }

  lemma TakenOnPage(s: seq<KV<Tree>>, x: KV<Tree>)
    requires s != []
    ensures OnPage(TakenIn(s, x)) == TakenIn(OnPage(s), KV(x.key, x.val.id))
  {
    hide StableSort;
    SortOnPage(s[1..] + [x]);
    assert OnPage(s[1..] + [x]) == OnPage(s)[1..] + [KV(x.key, x.val.id)];
  }

  lemma EntriesOf(id: PageId, s: seq<KV<Tree>>)
    ensures var t := OfSlots(id, s); Entries(t.keys, t.kids) == OnPage(s) && t.kids == Kids(s)
  {
  }

  lemma EntriesAre(t: Tree)
    requires t.InnerNode? && |t.keys| == |t.kids|
    ensures Entries(t.keys, t.kids) == OnPage(Slots(t)) && t.kids == Kids(Slots(t))
  {
  }

  /** What the two pages hold after the move. */
  lemma LentEntries(f: Family, fromRight: bool)
    requires LendShape(f, fromRight)
    ensures var (a, b) := LentPair(f.tl, f.tr, fromRight);
            var l, r, n := Entries(f.tl.keys, f.tl.kids), Entries(f.tr.keys, f.tr.kids), |f.tl.kids| - 1;
            && |l| == n + 1 && |r| == |f.tr.kids|
            && Entries(a.keys, a.kids) == (if fromRight then TakenIn(l, r[0]) else l[..n])
            && Entries(b.keys, b.kids) == (if fromRight then r[1..] else TakenIn(r, l[n]))
  {
    hide TakenIn;
    EntriesAre(f.tl);
    EntriesAre(f.tr);
    var l, r, n := Slots(f.tl), Slots(f.tr), |f.tl.kids| - 1;
    if fromRight {
      TakenOnPage(l, r[0]);
      EntriesOf(f.tl.id, TakenIn(l, r[0]));
      EntriesOf(f.tr.id, r[1..]);
      assert OnPage(r[1..]) == OnPage(r)[1..];
    } else {
      TakenOnPage(r, l[n]);
      EntriesOf(f.tl.id, l[..n]);
      EntriesOf(f.tr.id, TakenIn(r, l[n]));
      assert OnPage(l[..n]) == OnPage(l)[..n];
    }
  }

  // ---- nothing gets lost --------------------------------------------------------------------------

  /** The same pages and the same pairs below, in whatever order. */
  ghost predicate SameBag(a: seq<Tree>, b: seq<Tree>) {
    IdsAll(a) == IdsAll(b) && multiset(FlatAll(a)) == multiset(FlatAll(b))
  }

  lemma BagAppend(a: seq<Tree>, b: seq<Tree>, a': seq<Tree>, b': seq<Tree>)
    requires SameBag(a, a') && SameBag(b, b')
    ensures SameBag(a + b, a' + b')
  {
    hide IdsAll, FlatAll;
    IdsAppend(a, b);
    IdsAppend(a', b');
    FlatAllAppend(a, b);
    FlatAllAppend(a', b');
  }

  lemma BagSwap(a: seq<Tree>, b: seq<Tree>)
    ensures SameBag(a + b, b + a)
  {
    hide IdsAll, FlatAll;
    IdsAppend(a, b);
    IdsAppend(b, a);
    FlatAllAppend(a, b);
    FlatAllAppend(b, a);
  }

  lemma {:induction false} InsertBag(s: seq<KV<Tree>>, x: KV<Tree>)
    ensures SameBag(Kids(InsertLast(s, x)), Kids(s) + [x.val])
  {
    if s == [] || s[|s| - 1].key <= x.key {
      assert Kids(s + [x]) == Kids(s) + [x.val];
    } else {
      hide SameBag;
      var n := |s| - 1;
      var p, y := s[..n], s[n];
      InsertBag(p, x);
      assert Kids(InsertLast(p, x) + [y]) == Kids(InsertLast(p, x)) + [y.val];
      assert Kids(s) == Kids(p) + [y.val];
      Itself([y.val]);
      Itself(Kids(p));
      BagAppend(Kids(InsertLast(p, x)), [y.val], Kids(p) + [x.val], [y.val]);
      BagSwap([x.val], [y.val]);
      BagAppend(Kids(p), [x.val] + [y.val], Kids(p), [y.val] + [x.val]);
      assert Kids(p) + [x.val] + [y.val] == Kids(p) + ([x.val] + [y.val]);
      assert Kids(s) + [x.val] == Kids(p) + ([y.val] + [x.val]);
      Onward(Kids(InsertLast(s, x)), Kids(p) + [x.val] + [y.val], Kids(s) + [x.val]);
    }
  }

  lemma Itself(a: seq<Tree>)
    ensures SameBag(a, a)
  {
  }

  lemma Onward(a: seq<Tree>, b: seq<Tree>, c: seq<Tree>)
    requires SameBag(a, b) && SameBag(b, c)
    ensures SameBag(a, c)
  {
  }

  lemma {:induction false} SortBag(s: seq<KV<Tree>>)
    ensures SameBag(Kids(StableSort(s)), Kids(s))
  {
    if s == [] {
      assert Kids(StableSort(s)) == Kids(s);
    } else {
      hide SameBag, InsertLast;
      var n := |s| - 1;
      var p, y := s[..n], s[n];
      SortBag(p);
      InsertBag(StableSort(p), y);
      Itself([y.val]);
      BagAppend(Kids(StableSort(p)), [y.val], Kids(p), [y.val]);
      assert Kids(s) == Kids(p) + [y.val];
      Onward(Kids(StableSort(s)), Kids(StableSort(p)) + [y.val], Kids(s));
    }
  }

  lemma TakenBag(s: seq<KV<Tree>>, x: KV<Tree>)
    requires s != []
    ensures SameBag(Kids(TakenIn(s, x)), Kids(s) + [x.val])
  {
    hide SameBag, StableSort;
    var rest := StableSort(s[1..] + [x]);
    SortBag(s[1..] + [x]);
    Itself([s[0].val]);
    BagAppend([s[0].val], Kids(rest), [s[0].val], Kids(s[1..] + [x]));
    assert Kids(TakenIn(s, x)) == [s[0].val] + Kids(rest);
    assert Kids(s) + [x.val] == [s[0].val] + Kids(s[1..] + [x]);
  }

  lemma LentBag(f: Family, fromRight: bool)
    requires LendShape(f, fromRight)
    ensures var (a, b) := LentPair(f.tl, f.tr, fromRight); SameBag(a.kids + b.kids, f.tl.kids + f.tr.kids)
  {
    hide SameBag, TakenIn;
    var (a, b) := LentPair(f.tl, f.tr, fromRight);
    var l, r, n := Slots(f.tl), Slots(f.tr), |f.tl.kids| - 1;
    EntriesAre(f.tl);
    EntriesAre(f.tr);
    if fromRight {
      var x := f.tr.kids[0];
      TakenBag(l, r[0]);
      Itself(b.kids);
      BagAppend(a.kids, b.kids, f.tl.kids + [x], b.kids);
      assert b.kids == f.tr.kids[1..];
      assert f.tl.kids + [x] + b.kids == f.tl.kids + f.tr.kids;
    } else {
      var x := f.tl.kids[n];
      TakenBag(r, l[n]);
      assert a.kids == f.tl.kids[..n];
      Itself(a.kids);
      BagAppend(a.kids, b.kids, a.kids, f.tr.kids + [x]);
      BagSwap(f.tr.kids, [x]);
      BagAppend(a.kids, f.tr.kids + [x], a.kids, [x] + f.tr.kids);
      assert a.kids + ([x] + f.tr.kids) == f.tl.kids + f.tr.kids;
      Onward(a.kids + b.kids, a.kids + (f.tr.kids + [x]), f.tl.kids + f.tr.kids);
    }
  }

  lemma BagAround<T>(l: seq<T>, m: seq<T>, m': seq<T>, r: seq<T>)
    requires multiset(m) == multiset(m')
    ensures multiset(l + m + r) == multiset(l + m' + r)
  {
  }

  lemma PairIds(f: Family)
    requires f.tl.InnerNode? && f.tr.InnerNode?
    ensures IdsAll(Parent(f).kids) ==
            IdsAll(f.left) + multiset{f.tl.id} + multiset{f.tr.id} + IdsAll(f.tl.kids + f.tr.kids) + IdsAll(f.right)
  {
    hide IdsAll;
    ParentIds(f);
    IdsAppend(f.tl.kids, f.tr.kids);
    hide Parent;
  }

  lemma LentIds(f: Family, fromRight: bool)
    requires LendShape(f, fromRight)
    ensures Ids(LentParent(f, fromRight)) == Ids(Parent(f))
  {
    var (a, b) := LentPair(f.tl, f.tr, fromRight);
    var g := f.(tl := a, tr := b);
    LentIs(f, fromRight);
    assert IdsAll(Parent(g).kids) == IdsAll(Parent(f).kids) by {
      LentBag(f, fromRight);
      hide Parent, LentPair, LentParent, LendShape, IdsAll, Ids, FlatAll;
      PairIds(f);
      PairIds(g);
    }
    hide LentPair, LentParent, IdsAll;
  }

  lemma LentPairs(f: Family, fromRight: bool)
    requires LendShape(f, fromRight)
    ensures multiset(Flat(LentParent(f, fromRight))) == multiset(Flat(Parent(f)))
  {
    var p := LentParent(f, fromRight);
    var (a, b) := LentPair(f.tl, f.tr, fromRight);
    var g := f.(tl := a, tr := b);
    LentBag(f, fromRight);
    LentIs(f, fromRight);
    hide LentPair, LentParent, Flat, FlatAll, IdsAll;
    FlatInner(p);
    FlatInner(Parent(g));
    PairFlat(f);
    PairFlat(g);
    BagAround(FlatAll(f.left), FlatAll(a.kids + b.kids), FlatAll(f.tl.kids + f.tr.kids), FlatAll(f.right));
  }

  lemma PairFlat(f: Family)
    requires f.tl.InnerNode? && f.tr.InnerNode?
    ensures Flat(Parent(f)) == FlatAll(f.left) + FlatAll(f.tl.kids + f.tr.kids) + FlatAll(f.right)
  {
    hide Flat, FlatAll;
    ParentFlat(f);
    FlatInner(f.tl);
    FlatInner(f.tr);
    FlatAllAppend(f.tl.kids, f.tr.kids);
    Associate(FlatAll(f.left), Flat(f.tl), Flat(f.tr), FlatAll(f.right));
  }

  /** Whichever way a subtree moves, the pages and the pairs of the tree stay the same. */
  lemma LentKeeps(f: Family, fromRight: bool)
    requires LendShape(f, fromRight)
    ensures var p := LentParent(f, fromRight);
            && Ids(p) == Ids(Parent(f))
            && multiset(Flat(Plug(f.up, p))) == multiset(Flat(Plug(f.up, Parent(f))))
  {
    LentIds(f, fromRight);
    LentPairs(f, fromRight);
    hide LentParent, Flat, Ids, Plug;
    PlugLeaves(f.up, LentParent(f, fromRight));
    PlugLeaves(f.up, Parent(f));
    BagAround(FlatBefore(f.up), Flat(LentParent(f, fromRight)), Flat(Parent(f)), FlatAfter(f.up));
  }

  // ---- storing the move ---------------------------------------------------------------------------

  /** The store after both pages and the parent are written back. */
  ghost function LentPages(pages: Pages, f: Family, fromRight: bool, cfg: Config): Pages
    requires LendShape(f, fromRight)
  {
    var (a, b) := LentPair(f.tl, f.tr, fromRight);
    pages[a.id := PageOf(a, INVALID_PAGE_ID, cfg)]
         [b.id := PageOf(b, INVALID_PAGE_ID, cfg)]
         [f.id := PageOf(LentParent(f, fromRight), INVALID_PAGE_ID, cfg)]
  }

  /** Ids of the pages the move leaves alone. */
  ghost function Beneath(f: Family): multiset<PageId> {
    IdsAll(f.left) + IdsAll(f.right) + KidIds(f.tl) + KidIds(f.tr) + ContextIds(f.up)
  }

  lemma LentWritten(pages: Pages, f: Family, fromRight: bool, cfg: Config)
    requires LendShape(f, fromRight) && Owned(pages, Ids(Parent(f)) + ContextIds(f.up))
    ensures var pages', p := LentPages(pages, f, fromRight, cfg), LentParent(f, fromRight);
            var (a, b) := LentPair(f.tl, f.tr, fromRight);
            && Same(pages, pages', Beneath(f))
            && Owned(pages', Ids(p) + ContextIds(f.up))
            && f.id in pages' && pages'[f.id] == PageOf(p, INVALID_PAGE_ID, cfg)
            && a.id in pages' && pages'[a.id] == PageOf(a, INVALID_PAGE_ID, cfg)
            && b.id in pages' && pages'[b.id] == PageOf(b, INVALID_PAGE_ID, cfg)
  {
    LentIs(f, fromRight);
    LentIds(f, fromRight);
    hide Same, Owned, LentParent, LentPair, Ids, IdsAll, PageOf, KidIds, ContextIds;
    var p := LentParent(f, fromRight);
    var (a, b) := LentPair(f.tl, f.tr, fromRight);
    FamilyIds(f);
    assert Ids(Parent(f)) + ContextIds(f.up) == multiset{a.id} + multiset{b.id} + multiset{f.id} + Beneath(f);
    ThreeWrites(pages, a.id, b.id, f.id, PageOf(a, INVALID_PAGE_ID, cfg), PageOf(b, INVALID_PAGE_ID, cfg),
                PageOf(p, INVALID_PAGE_ID, cfg), Beneath(f));
  }

  lemma BeneathParts(pages: Pages, pages': Pages, f: Family)
    requires Same(pages, pages', Beneath(f))
    ensures Same(pages, pages', IdsAll(f.left)) && Same(pages, pages', IdsAll(f.right))
    ensures Same(pages, pages', KidIds(f.tl)) && Same(pages, pages', KidIds(f.tr))
    ensures Same(pages, pages', ContextIds(f.up))
  {
    hide Same, IdsAll, KidIds, ContextIds;
    var a, b, c, d := IdsAll(f.left), IdsAll(f.right), KidIds(f.tl), KidIds(f.tr);
    SameSplit(pages, pages', a + b + c + d, ContextIds(f.up));
    SameSplit(pages, pages', a + b + c, d);
    SameSplit(pages, pages', a + b, c);
    SameSplit(pages, pages', a, b);
  }

  lemma TakenFrom<V>(s: seq<KV<V>>, x: KV<V>, y: KV<V>)
    requires s != [] && y in TakenIn(s, x)
    ensures y in s || y == x
  {
    hide StableSort;
    StableSortSorts(s[1..] + [x]);
    if y in StableSort(s[1..] + [x]) {
      assert y in multiset(StableSort(s[1..] + [x]));
      assert y in multiset(s[1..] + [x]);
    }
  }

  /** The two pages share out the subtrees they had between them. */
  lemma LentKids(f: Family, fromRight: bool, t: Tree)
    requires LendShape(f, fromRight)
    requires var (a, b) := LentPair(f.tl, f.tr, fromRight); t in a.kids || t in b.kids
    ensures t in f.tl.kids || t in f.tr.kids
  {
    hide TakenIn;
    var (a, b) := LentPair(f.tl, f.tr, fromRight);
    var l, r, n := Slots(f.tl), Slots(f.tr), |f.tl.kids| - 1;
    if fromRight && t in a.kids {
      var s := TakenIn(l, r[0]);
      var i :| 0 <= i < |s| && s[i].val == t;
      TakenFrom(l, r[0], s[i]);
    } else if !fromRight && t in b.kids {
      var s := TakenIn(r, l[n]);
      var i :| 0 <= i < |s| && s[i].val == t;
      TakenFrom(r, l[n], s[i]);
    }
  }

  lemma InnerPlaced(pages: Pages, t: Tree, cfg: Config)
    requires t.InnerNode? && t.id in pages && pages[t.id] == PageOf(t, INVALID_PAGE_ID, cfg)
    requires forall i | 0 <= i < |t.kids| :: Placed(pages, t.kids[i], cfg)
    ensures Placed(pages, t, cfg)
  {
  }

  lemma {:induction false} PlacedUp(pages: Pages, c: Context, t: Tree, first: PageId, cfg: Config)
    requires ContextStored(pages, c, t.id, first, cfg) && Placed(pages, t, cfg)
    ensures Placed(pages, Plug(c, t), cfg)
    decreases c
  {
    if c.Frame? {
      var p := InnerNode(c.id, c.keys, c.left + [t] + c.right);
      ListPlaced(pages, c.left, first, cfg);
      ListPlaced(pages, c.right, NextId(c.up), cfg);
      assert FrameEntries(c, t.id) == Entries(p.keys, p.kids);
      forall i | 0 <= i < |p.kids| ensures Placed(pages, p.kids[i], cfg) {
        if i > |c.left| { assert p.kids[i] == c.right[i - |c.left| - 1]; }
      }
      PlacedUp(pages, c.up, p, FrameFirst(c, first), cfg);
    }
  }

  lemma SubtreesPlaced(pages: Pages, f: Family, fromRight: bool, cfg: Config)
    requires LendShape(f, fromRight) && FamilyStored(pages, f, cfg)
    ensures var pages' := LentPages(pages, f, fromRight, cfg);
            && (forall t | t in f.left || t in f.right || t in f.tl.kids || t in f.tr.kids :: Placed(pages', t, cfg))
            && ContextStored(pages', f.up, f.id, FirstLeaf(Parent(f)), cfg)
  {
    var pages' := LentPages(pages, f, fromRight, cfg);
    var next := FirstOf(f.right, NextId(f.up));
    FamilyLists(pages, f, cfg);
    assert ListStored(pages, f.tl.kids, FirstLeaf(f.tr), cfg) && ListStored(pages, f.tr.kids, next, cfg);
    hide LentPages, Same, Owned, ContextStored, ListStored, Placed, IdsAll, ContextIds;
    LentWritten(pages, f, fromRight, cfg);
    BeneathParts(pages, pages', f);
    ListFrame(pages, pages', f.left, FirstLeaf(f.tl), cfg);
    ListFrame(pages, pages', f.right, NextId(f.up), cfg);
    ListFrame(pages, pages', f.tl.kids, FirstLeaf(f.tr), cfg);
    ListFrame(pages, pages', f.tr.kids, next, cfg);
    ListPlaced(pages', f.left, FirstLeaf(f.tl), cfg);
    ListPlaced(pages', f.right, NextId(f.up), cfg);
    ListPlaced(pages', f.tl.kids, FirstLeaf(f.tr), cfg);
    ListPlaced(pages', f.tr.kids, next, cfg);
    ContextFrame(pages, pages', f.up, f.id, FirstLeaf(Parent(f)), cfg);
  }

  /** Afterwards every page of the tree is in its place. */
  lemma LentPlaced(pages: Pages, f: Family, fromRight: bool, cfg: Config)
    requires LendShape(f, fromRight) && FamilyStored(pages, f, cfg)
    ensures Placed(LentPages(pages, f, fromRight, cfg), Plug(f.up, LentParent(f, fromRight)), cfg)
  {
    var pages', p := LentPages(pages, f, fromRight, cfg), LentParent(f, fromRight);
    var (a, b) := LentPair(f.tl, f.tr, fromRight);
    SubtreesPlaced(pages, f, fromRight, cfg);
    LentWritten(pages, f, fromRight, cfg);
    LentIs(f, fromRight);
    hide LentPages, LentPair, LentParent, Placed, FamilyStored, ContextStored, Plug, Owned, Same;
    forall i | 0 <= i < |a.kids| ensures Placed(pages', a.kids[i], cfg) { LentKids(f, fromRight, a.kids[i]); }
    forall i | 0 <= i < |b.kids| ensures Placed(pages', b.kids[i], cfg) { LentKids(f, fromRight, b.kids[i]); }
    InnerPlaced(pages', a, cfg);
    InnerPlaced(pages', b, cfg);
    forall i | 0 <= i < |p.kids| ensures Placed(pages', p.kids[i], cfg) {
      if i > |f.left| + 1 { assert p.kids[i] == f.right[i - |f.left| - 2]; }
    }
    InnerPlaced(pages', p, cfg);
    PlacedUp(pages', f.up, p, FirstLeaf(Parent(f)), cfg);
  }

  // ---- a move that does no harm -------------------------------------------------------------------

  lemma ListCut(pages: Pages, ts: seq<Tree>, next: PageId, cfg: Config)
    requires ListStored(pages, ts, next, cfg) && |ts| >= 2
    ensures ListStored(pages, [ts[0]], FirstOf(ts[1..], next), cfg) && ListStored(pages, ts[1..], next, cfg)
    ensures FirstOf(ts[1..], next) == FirstLeaf(ts[1])
  {
    ListStoredOne(pages, ts[0], FirstOf(ts[1..], next), cfg);
  }

  /** The two pages with their subtrees, chained to one another and to what follows. */
  lemma LentPairStored(pages: Pages, f: Family, h: nat, cfg: Config)
    requires CanLend(f, h, true, cfg) && LendShape(f, true) && Harmless(f, true) && FamilyStored(pages, f, cfg)
    ensures var pages' := LentPages(pages, f, true, cfg);
            var (a, b) := LentPair(f.tl, f.tr, true);
            && Stored(pages', a, FirstLeaf(b), cfg) && Stored(pages', b, FirstOf(f.right, NextId(f.up)), cfg)
            && FirstLeaf(a) == FirstLeaf(f.tl)
  {
    var pages', next := LentPages(pages, f, true, cfg), FirstOf(f.right, NextId(f.up));
    var (a, b) := LentPair(f.tl, f.tr, true);
    FamilyLists(pages, f, cfg);
    assert ListStored(pages, f.tl.kids, FirstLeaf(f.tr), cfg) && ListStored(pages, f.tr.kids, next, cfg);
    LentWritten(pages, f, true, cfg);
    LentRight(f, h, cfg);
    hide LentPages, Same, Owned, ContextStored, ListStored, IdsAll, ContextIds, FamilyOrdered, FamilyStored, LentParent;
    BeneathParts(pages, pages', f);
    ListFrame(pages, pages', f.tl.kids, FirstLeaf(f.tr), cfg);
    ListFrame(pages, pages', f.tr.kids, next, cfg);
    ListCut(pages', f.tr.kids, next, cfg);
    ListStoredAppend(pages', f.tl.kids, [f.tr.kids[0]], FirstLeaf(f.tr.kids[1]), cfg);
    KidsOfList(pages', a, FirstLeaf(b), cfg);
    KidsOfList(pages', b, next, cfg);
  }

  lemma LentStored(pages: Pages, f: Family, h: nat, cfg: Config)
    requires CanLend(f, h, true, cfg) && LendShape(f, true) && Harmless(f, true) && FamilyStored(pages, f, cfg)
    ensures var pages', p := LentPages(pages, f, true, cfg), LentParent(f, true);
            && Stored(pages', p, NextId(f.up), cfg)
            && ContextStored(pages', f.up, p.id, FirstLeaf(p), cfg)
            && Owned(pages', Ids(p) + ContextIds(f.up))
  {
    var pages', p, next := LentPages(pages, f, true, cfg), LentParent(f, true), NextId(f.up);
    var (a, b) := LentPair(f.tl, f.tr, true);
    FamilyLists(pages, f, cfg);
    LentPairStored(pages, f, h, cfg);
    LentWritten(pages, f, true, cfg);
    LentIs(f, true);
    assert FirstLeaf(p) == FirstLeaf(Parent(f)) by {
      assert Parent(f).kids[0] == if f.left == [] then f.tl else f.left[0];
      assert p.kids[0] == if f.left == [] then a else f.left[0];
    }
    hide LentPages, Same, Owned, ContextStored, ListStored, IdsAll, ContextIds, CanLend, FamilyStored, LentParent;
    hide LentPair, Harmless, Stored;
    BeneathParts(pages, pages', f);
    ListFrame(pages, pages', f.left, FirstLeaf(f.tl), cfg);
    ListFrame(pages, pages', f.right, next, cfg);
    ContextFrame(pages, pages', f.up, f.id, FirstLeaf(Parent(f)), cfg);
    ListStoredOne(pages', a, FirstLeaf(b), cfg);
    ListStoredAppend(pages', f.left, [a], FirstLeaf(b), cfg);
    ListStoredAround(pages', f.left + [a], b, f.right, next, cfg);
    KidsOfList(pages', p, next, cfg);
    InnerStored(pages', p, next, cfg);
  }

  lemma InnerStored(pages: Pages, t: Tree, next: PageId, cfg: Config)
    requires t.InnerNode? && t.id in pages && pages[t.id] == PageOf(t, INVALID_PAGE_ID, cfg)
    requires KidsStored(pages, t, next, cfg)
    ensures Stored(pages, t, next, cfg)
  {
  }

  /** The move does no harm and leaves pages of legal sizes. */
  ghost predicate Settled(f: Family, fromRight: bool, cfg: Config)
    requires LendShape(f, fromRight)
  {
    var (a, b) := LentPair(f.tl, f.tr, fromRight);
    Harmless(f, fromRight) && Fits(a, cfg) && Fits(b, cfg) && FitsHole(f.up, Parent(f), cfg)
  }

  lemma LentFits(f: Family, fromRight: bool, cfg: Config)
    requires LendShape(f, fromRight) && FitsHole(f.up, Parent(f), cfg)
    ensures FitsHole(f.up, LentParent(f, fromRight), cfg)
  {
    LentIs(f, fromRight);
    hide LentPair, LentParent;
    var p := LentParent(f, fromRight);
    assert Size(p) == Size(Parent(f)) && Least(p) == Least(Parent(f)) && MaxSize(p, cfg) == MaxSize(Parent(f), cfg);
  }

  /** Where the two pages hold enough as well, the whole index is in order. */
  lemma LentWhole(pages: Pages, f: Family, h: nat, cfg: Config) returns (h': nat)
    requires CanLend(f, h, true, cfg) && LendShape(f, true) && Harmless(f, true) && FamilyStored(pages, f, cfg)
    requires var (a, b) := LentPair(f.tl, f.tr, true); Fits(a, cfg) && Fits(b, cfg)
    requires FitsHole(f.up, Parent(f), cfg)
    ensures var t := Plug(f.up, LentParent(f, true));
            && WellFormed(t, h', cfg)
            && Stored(LentPages(pages, f, true, cfg), t, INVALID_PAGE_ID, cfg)
            && Owned(LentPages(pages, f, true, cfg), Ids(t))
  {
    LentApt(f, h, cfg);
    LentStored(pages, f, h, cfg);
    LentFits(f, true, cfg);
    Lending(f, h, true, cfg);
    assert OrderedContext(f.up, h + 1, cfg) by { UpOrdered(f, h, cfg); }
    var p, pages' := LentParent(f, true), LentPages(pages, f, true, cfg);
    hide *;
    h' := PlugWellFormed(f.up, p, h + 1, cfg);
    StoredPlug(pages', f.up, p, h + 1, cfg);
  }

  // ---- what the move reads and writes -------------------------------------------------------------

  /** The pages a move reads. */
  lemma LendPages(pages: Pages, f: Family, h: nat, fromRight: bool, cfg: Config)
    requires CanLend(f, h, fromRight, cfg) && FamilyStored(pages, f, cfg)
    ensures LendShape(f, fromRight)
    ensures f.tl.id in pages && pages[f.tl.id] == Internal(Entries(f.tl.keys, f.tl.kids), cfg.internalMax)
    ensures f.tr.id in pages && pages[f.tr.id] == Internal(Entries(f.tr.keys, f.tr.kids), cfg.internalMax)
    ensures f.id in pages && pages[f.id] == Internal(Entries(f.keys, Parent(f).kids), cfg.internalMax)
    ensures f.id != f.tl.id && f.id != f.tr.id && f.tl.id != f.tr.id && f.id != INVALID_PAGE_ID
  {
    LendShaped(f, h, fromRight, cfg);
    FamilyLists(pages, f, cfg);
    FamilyIds(f);
    FreeOwned(pages, f.tl.id, f.tr.id, Leaf([], 0, 0), Others(f));
    assert f.id in Others(f);
    assert f.id in Ids(Parent(f));
  }

  lemma KidAt(pages: Pages, t: Tree, i: nat, h: nat, lo: Key, hi: Option<Key>, follows: PageId, cfg: Config)
    requires t.InnerNode? && i < |t.kids| && ListStored(pages, t.kids, follows, cfg) && Ordered(t, h, lo, hi, cfg)
    ensures var kid := t.kids[i];
            && h > 0 && i < |t.keys| && Stored(pages, kid, FirstOf(t.kids[i + 1..], follows), cfg)
            && Ordered(kid, h - 1, KidLo(t.keys, i, lo), KidHi(t.keys, i, hi), cfg)
            && Least(kid) <= Size(kid) && Flat(kid) != []
  {
    hide Stored, ListStored, Flat;
    KidOrdered(t, h, lo, hi, cfg, i);
    hide Ordered;
    assert t.kids == t.kids[..i] + [t.kids[i]] + t.kids[i + 1..];
    ListStoredAround(pages, t.kids[..i], t.kids[i], t.kids[i + 1..], follows, cfg);
    OrderedFlat(t.kids[i], h - 1, KidLo(t.keys, i, lo), KidHi(t.keys, i, hi), cfg);
  }

  /** The subtree whose least key the parent is re-keyed to is stored and in order. */
  lemma LenderKid(pages: Pages, f: Family, h: nat, fromRight: bool, cfg: Config)
      returns (next: PageId, lo: Key, hi: Option<Key>)
    requires CanLend(f, h, fromRight, cfg) && FamilyStored(pages, f, cfg)
    ensures LendShape(f, fromRight) && h > 0
    ensures var kid := LenderFirst(f, fromRight);
            && Stored(pages, kid, next, cfg) && Ordered(kid, h - 1, lo, hi, cfg) && Least(kid) <= Size(kid)
            && Flat(kid) != [] && LeastKey(kid) == Flat(kid)[0].key
  {
    LendShaped(f, h, fromRight, cfg);
    FamilyLists(pages, f, cfg);
    hide FamilyOrdered, FamilyStored, Ordered, Stored, ListStored, CanLend, Flat;
    if fromRight {
      var follows := FirstOf(f.right, NextId(f.up));
      KidAt(pages, f.tr, 1, h, Sep(f), PairHi(f), follows, cfg);
      next, lo, hi := FirstOf(f.tr.kids[2..], follows), KidLo(f.tr.keys, 1, Sep(f)), KidHi(f.tr.keys, 1, PairHi(f));
    } else {
      var follows, low, high := FirstLeaf(f.tr), PairLo(f), Some(Sep(f));
      KidAt(pages, f.tl, 0, h, low, high, follows, cfg);
      next, lo, hi := FirstOf(f.tl.kids[1..], follows), KidLo(f.tl.keys, 0, low), KidHi(f.tl.keys, 0, high);
    }
  }

  lemma EntriesRekeyed(keys: seq<Key>, kids: seq<Tree>, kids': seq<Tree>, oldKey: Key, newKey: Key)
    requires |keys| == |kids| == |kids'| && (forall i, j | 1 <= i < j < |keys| :: keys[i] < keys[j])
    requires forall i | 0 <= i < |kids| :: kids'[i].id == kids[i].id
    ensures var e, e' := Entries(keys, kids), Entries(Rekeyed(keys, oldKey, newKey), kids');
            && ((forall i | 1 <= i < |e| :: e[i].key != oldKey) ==> e' == e)
            && (forall i | 1 <= i < |e| :: e[i].key == oldKey ==> e' == e[i := KV(newKey, e[i].val)])
  {
    var e := Entries(keys, kids);
    assert forall i | 0 <= i < |e| :: e[i] == KV(keys[i], kids[i].id);
  }

  lemma LentSame(f: Family, fromRight: bool)
    requires LendShape(f, fromRight)
    ensures var kids, kids' := Parent(f).kids, LentParent(f, fromRight).kids;
            |kids'| == |kids| == |f.left| + 2 + |f.right| && forall i | 0 <= i < |kids| :: kids'[i].id == kids[i].id
  {
    LentIs(f, fromRight);
    var kids, kids', n := Parent(f).kids, LentParent(f, fromRight).kids, |f.left|;
    hide LentParent, LentPair;
    forall i | 0 <= i < |kids| ensures kids'[i].id == kids[i].id {
      if i < n { assert kids'[i] == f.left[i]; } else if i > n + 1 { assert kids'[i] == f.right[i - n - 2]; }
    }
  }

  /** What searching the parent for the old key and re-keying it gives. */
  lemma RekeyedEntries(f: Family, h: nat, fromRight: bool, cfg: Config)
    requires CanLend(f, h, fromRight, cfg) && LendShape(f, fromRight)
    ensures var e, p := Entries(f.keys, Parent(f).kids), LentParent(f, fromRight);
            var oldKey, newKey := f.tr.keys[0], LeastKey(LenderFirst(f, fromRight));
            && |e| != 1 && SlotsSorted(e)
            && ((forall i | 1 <= i < |e| :: e[i].key != oldKey) ==> Entries(p.keys, p.kids) == e)
            && (forall i | 1 <= i < |e| :: e[i].key == oldKey ==>
                  Entries(p.keys, p.kids) == e[i := KV(newKey, e[i].val)])
  {
    var p, newKey := LentParent(f, fromRight), LeastKey(LenderFirst(f, fromRight));
    assert p.keys == Rekeyed(f.keys, f.tr.keys[0], newKey);
    assert KeysOk(f.keys, Lo(f.up), Hi(f.up)) && |f.keys| == |f.left| + 2 + |f.right|;
    LentSame(f, fromRight);
    hide LentPair, LentParent, CanLend, FamilyOrdered, LeastKey, Ordered, Rekeyed;
    EntriesRekeyed(f.keys, Parent(f).kids, p.kids, f.tr.keys[0], newKey);
  }

  /** What the two pages of the pair hold, slot by slot. */
  lemma KidPages(pages: Pages, f: Family, h: nat, fromRight: bool, cfg: Config)
    requires CanLend(f, h, fromRight, cfg) && FamilyStored(pages, f, cfg)
    ensures LendShape(f, fromRight)
    ensures f.tl.id in pages && pages[f.tl.id].Internal? && f.tr.id in pages && pages[f.tr.id].Internal?
    ensures |pages[f.tl.id].entries| == |f.tl.kids| && |pages[f.tr.id].entries| == |f.tr.kids|
    ensures forall i | 0 <= i < |f.tl.kids| :: pages[f.tl.id].entries[i] == KV(f.tl.keys[i], f.tl.kids[i].id)
    ensures forall i | 0 <= i < |f.tr.kids| :: pages[f.tr.id].entries[i] == KV(f.tr.keys[i], f.tr.kids[i].id)
  {
    LendPages(pages, f, h, fromRight, cfg);
    assert forall i | 0 <= i < |f.tl.kids| :: Entries(f.tl.keys, f.tl.kids)[i] == KV(f.tl.keys[i], f.tl.kids[i].id);
    assert forall i | 0 <= i < |f.tr.kids| :: Entries(f.tr.keys, f.tr.kids)[i] == KV(f.tr.keys[i], f.tr.kids[i].id);
    hide CanLend, FamilyStored, Entries;
  }

  /** The store once the two pages are written back, in whichever order. */
  lemma MovedKid(pages: Pages, f: Family, h: nat, fromRight: bool, cfg: Config)
    requires CanLend(f, h, fromRight, cfg) && LendShape(f, fromRight) && FamilyStored(pages, f, cfg)
    requires f.tl.id in pages && pages[f.tl.id].Internal? && f.tr.id in pages && pages[f.tr.id].Internal?
    requires |pages[f.tl.id].entries| == |f.tl.kids| && |pages[f.tr.id].entries| == |f.tr.kids|
    ensures var (a, b) := LentPair(f.tl, f.tr, fromRight);
            var l, r := pages[f.tl.id], pages[f.tr.id];
            var n := |l.entries| - 1;
            var written := pages[a.id := PageOf(a, INVALID_PAGE_ID, cfg)][b.id := PageOf(b, INVALID_PAGE_ID, cfg)];
            && (fromRight ==>
                  written == pages[f.tl.id := l.(entries := TakenIn(l.entries, r.entries[0]))]
                                  [f.tr.id := r.(entries := r.entries[1..])])
            && (!fromRight ==>
                  written == pages[f.tr.id := r.(entries := TakenIn(r.entries, l.entries[n]))]
                                  [f.tl.id := l.(entries := l.entries[..n])])
  {
    LendPages(pages, f, h, fromRight, cfg);
    LentEntries(f, fromRight);
    LentIs(f, fromRight);
    hide LentPair, TakenIn, CanLend, FamilyStored, Entries;
    var (a, b) := LentPair(f.tl, f.tr, fromRight);
    assert PageOf(a, INVALID_PAGE_ID, cfg) == Internal(Entries(a.keys, a.kids), cfg.internalMax);
    assert PageOf(b, INVALID_PAGE_ID, cfg) == Internal(Entries(b.keys, b.kids), cfg.internalMax);
    hide PageOf, LendShape;
  }

  /** What holds once the three pages are written. */
  lemma LentResult(pages: Pages, f: Family, h: nat, fromRight: bool, cfg: Config) returns (h': nat)
    requires CanLend(f, h, fromRight, cfg) && LendShape(f, fromRight) && FamilyStored(pages, f, cfg)
    ensures var pages', t := LentPages(pages, f, fromRight, cfg), Plug(f.up, LentParent(f, fromRight));
            && LentParent(f, fromRight).id == f.id
            && multiset(Flat(t)) == multiset(Flat(Plug(f.up, Parent(f))))
            && Placed(pages', t, cfg) && (AllFound(t) <==> Harmless(f, fromRight))
            && (Harmless(f, fromRight) ==> Flat(t) == Flat(Plug(f.up, Parent(f))))
            && (Settled(f, fromRight, cfg) ==>
                  WellFormed(t, h', cfg) && Stored(pages', t, INVALID_PAGE_ID, cfg) && Owned(pages', Ids(t)))
  {
    LentIs(f, fromRight);
    hide LentParent, Plug, Flat, Placed, LentPages, AllFound, FamilyStored, CanLend, Ids, WellFormed, Stored, Owned;
    hide LentPair, FitsHole, Fits;
    LentKeeps(f, fromRight);
    LentPlaced(pages, f, fromRight, cfg);
    LendExact(f, h, fromRight, cfg);
    PlugLeaves(f.up, LentParent(f, fromRight));
    PlugLeaves(f.up, Parent(f));
    h' := 0;
    if Settled(f, fromRight, cfg) {
      h' := LentWhole(pages, f, h, cfg);
    }
  }
}
