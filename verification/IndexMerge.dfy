/** Joining two sibling pages, and moving one pair between two sibling leaves. */
module IndexMerge {
  import opened Prelude
  import opened KeyValues
  import opened IndexPage
  import opened IndexTree
  import opened IndexStore

  /** Two adjacent subtrees under one parent page, with their neighbours. */
  datatype Family = Family(up: Context, id: PageId, keys: seq<Key>, left: seq<Tree>, tl: Tree, tr: Tree,
      right: seq<Tree>)

  ghost function Parent(f: Family): Tree { InnerNode(f.id, f.keys, f.left + [f.tl, f.tr] + f.right) }

  /** Bounds of the two subtrees and the separator between them. */
  ghost function PairLo(f: Family): Key
    requires |f.left| < |f.keys|
  { KidLo(f.keys, |f.left|, Lo(f.up)) }

  ghost function Sep(f: Family): Key
    requires |f.left| + 1 < |f.keys|
  { f.keys[|f.left| + 1] }

  ghost function PairHi(f: Family): Option<Key>
    requires |f.left| + 1 < |f.keys|
  { KidHi(f.keys, |f.left| + 1, Hi(f.up)) }

  ghost predicate SideOrdered(f: Family, ts: seq<Tree>, at: nat, h: nat, cfg: Config)
    requires at + |ts| <= |f.keys|
  {
    forall i | 0 <= i < |ts| ::
      && Fits(ts[i], cfg)
      && Ordered(ts[i], h, KidLo(f.keys, at + i, Lo(f.up)), KidHi(f.keys, at + i, Hi(f.up)), cfg)
  }

  /** Everything in the family is in order, but the two subtrees may be filled in any way. */
  ghost predicate FamilyOrdered(f: Family, h: nat, cfg: Config) {
    && OrderedContext(f.up, h + 1, cfg)
    && |f.keys| == |f.left| + 2 + |f.right|
    && KeysOk(f.keys, Lo(f.up), Hi(f.up))
    && SideOrdered(f, f.left, 0, h, cfg)
    && SideOrdered(f, f.right, |f.left| + 2, h, cfg)
    && Ordered(f.tl, h, PairLo(f), Some(Sep(f)), cfg)
    && Ordered(f.tr, h, Sep(f), PairHi(f), cfg)
  }

  ghost predicate FamilyStored(pages: Pages, f: Family, cfg: Config) {
    && Stored(pages, Parent(f), NextId(f.up), cfg)
    && ContextStored(pages, f.up, f.id, FirstLeaf(Parent(f)), cfg)
    && Owned(pages, Ids(Parent(f)) + ContextIds(f.up))
  }

  lemma ParentKids(f: Family)
    ensures Parent(f).kids == (f.left + [f.tl]) + [f.tr] + f.right
  {}

  lemma ParentFlat(f: Family)
    ensures Flat(Parent(f)) == FlatAll(f.left) + Flat(f.tl) + Flat(f.tr) + FlatAll(f.right)
  {
    hide Flat, FlatAll;
    FlatInner(Parent(f));
    ParentKids(f);
    Around(f.left + [f.tl], f.tr, f.right);
    FlatAllAppend(f.left, [f.tl]);
    LeavesAllOne(f.tl);
  }

  lemma ParentIds(f: Family)
    ensures IdsAll(Parent(f).kids) == IdsAll(f.left) + Ids(f.tl) + Ids(f.tr) + IdsAll(f.right)
  {
    hide Ids;
    ParentKids(f);
    IdsAround(f.left + [f.tl], f.tr, f.right);
    IdsAppend(f.left, [f.tl]);
    assert [f.tl][1..] == [];
  }

  // ---- merging --------------------------------------------------------------------------------

  /** The left page after taking in the right one. */
  ghost function Merged(tl: Tree, tr: Tree): Tree {
    if tl.LeafNode? then LeafNode(tl.id, tl.kvs + if tr.LeafNode? then tr.kvs else [])
    else if tr.InnerNode? && Flat(tr) != [] && tr.keys != [] then
      InnerNode(tl.id, tl.keys + [Flat(tr)[0].key] + tr.keys[1..], tl.kids + tr.kids)
    else tl
  }

  /** The parent page without the right page's entry. */
  ghost function MergedParent(f: Family): Tree
    requires |f.left| + 1 < |f.keys|
  {
    InnerNode(f.id, f.keys[..|f.left| + 1] + f.keys[|f.left| + 2..], f.left + [Merged(f.tl, f.tr)] + f.right)
  }

  ghost predicate CanMerge(f: Family, h: nat, cfg: Config) {
    && FamilyOrdered(f, h, cfg)
    && (Fits(f.tl, cfg) || Fits(f.tr, cfg))
    && Size(f.tl) + Size(f.tr) <= MaxSize(f.tl, cfg)
  }

  /** Inner pages of a family are never without subtrees, so there is a first pair to re-key by. */
  lemma {:induction false} InnerFilled(t: Tree, h: nat, lo: Key, hi: Option<Key>, cfg: Config)
    requires t.InnerNode? && Ordered(t, h, lo, hi, cfg)
    ensures Flat(t) != []
  {
    OrderedFlatKids(t, h, lo, hi, cfg, |t.kids|);
    assert t.kids[..|t.kids|] == t.kids;
  }

  lemma MergedOrdered(f: Family, h: nat, cfg: Config)
    requires CanMerge(f, h, cfg)
    ensures Ordered(Merged(f.tl, f.tr), h, PairLo(f), PairHi(f), cfg) && Fits(Merged(f.tl, f.tr), cfg)
    ensures Flat(Merged(f.tl, f.tr)) == Flat(f.tl) + Flat(f.tr)
  {
    PairOrdered(f, h, cfg);
    SepInside(f, h, cfg);
    MergedSize(f, h, cfg);
    hide CanMerge, FamilyOrdered, Fits, Flat, Ordered, Merged;
    if f.tr.InnerNode? {
      InnerSlots(f.tr, h, Sep(f), PairHi(f), cfg);
    }
    if f.tl.LeafNode? {
      LeafMerged(f.tl, f.tr, h, PairLo(f), Sep(f), PairHi(f), cfg);
    } else {
      InnerFilled(f.tr, h, Sep(f), PairHi(f), cfg);
      InnerMerged(f.tl, f.tr, h, PairLo(f), Sep(f), PairHi(f), cfg);
      InnerMergedFlat(f.tl, f.tr);
    }
  }

  lemma PairOrdered(f: Family, h: nat, cfg: Config)
    requires FamilyOrdered(f, h, cfg)
    ensures |f.left| + 1 < |f.keys| && (f.tl.LeafNode? <==> f.tr.LeafNode?)
    ensures Ordered(f.tl, h, PairLo(f), Some(Sep(f)), cfg) && Ordered(f.tr, h, Sep(f), PairHi(f), cfg)
  {}

  lemma MergedSize(f: Family, h: nat, cfg: Config)
    requires CanMerge(f, h, cfg)
    ensures Fits(Merged(f.tl, f.tr), cfg)
  {
    hide OrderedContext, SideOrdered, KeysOk, Flat;
    PairOrdered(f, h, cfg);
    if f.tr.InnerNode? {
      InnerFilled(f.tr, h, Sep(f), PairHi(f), cfg);
      InnerSlots(f.tl, h, PairLo(f), Some(Sep(f)), cfg);
      InnerSlots(f.tr, h, Sep(f), PairHi(f), cfg);
    }
  }

  lemma InnerSlots(t: Tree, h: nat, lo: Key, hi: Option<Key>, cfg: Config)
    requires t.InnerNode? && Ordered(t, h, lo, hi, cfg)
    ensures |t.keys| == |t.kids| && t.keys != []
  {}

  lemma LeafMerged(tl: Tree, tr: Tree, h: nat, lo: Key, s: Key, hi: Option<Key>, cfg: Config)
    requires tl.LeafNode? && tr.LeafNode? && lo < s && Below(s, hi)
    requires Ordered(tl, h, lo, Some(s), cfg) && Ordered(tr, h, s, hi, cfg)
    ensures Ordered(Merged(tl, tr), h, lo, hi, cfg)
    ensures Flat(Merged(tl, tr)) == Flat(tl) + Flat(tr)
  {
    FlatLeaf(tl);
    FlatLeaf(tr);
    FlatLeaf(Merged(tl, tr));
  }

  lemma InnerMergedFlat(tl: Tree, tr: Tree)
    requires tl.InnerNode? && tr.InnerNode? && Flat(tr) != [] && tr.keys != []
    ensures Flat(Merged(tl, tr)) == Flat(tl) + Flat(tr)
  {
    FlatInner(tl);
    FlatInner(tr);
    FlatInner(Merged(tl, tr));
    FlatAllAppend(tl.kids, tr.kids);
  }

  lemma SepInside(f: Family, h: nat, cfg: Config)
    requires FamilyOrdered(f, h, cfg)
    ensures PairLo(f) < Sep(f) && Below(Sep(f), PairHi(f))
  {}

  lemma InnerMerged(tl: Tree, tr: Tree, h: nat, lo: Key, s: Key, hi: Option<Key>, cfg: Config)
    requires tl.InnerNode? && tr.InnerNode? && Flat(tr) != [] && lo < s
    requires Ordered(tl, h, lo, Some(s), cfg) && Ordered(tr, h, s, hi, cfg)
    ensures Ordered(Merged(tl, tr), h, lo, hi, cfg)
  {
    var m := Flat(tr)[0].key;
    OrderedFlat(tr, h, s, hi, cfg);
    RaiseLo(tr, h, s, hi, cfg, m);
    RaiseHi(tl, h, lo, Some(s), cfg, Some(m));
    var keys := tl.keys + [m] + tr.keys[1..];
    InnerMergedKeys(tl.keys, tr.keys, lo, m, hi);
    var t := Merged(tl, tr);
    var n := |tl.kids|;
    forall i | 0 <= i < |t.kids|
      ensures Fits(t.kids[i], cfg) && Ordered(t.kids[i], h - 1, KidLo(keys, i, lo), KidHi(keys, i, hi), cfg)
    {
      if i < n {
        assert t.kids[i] == tl.kids[i];
        assert KidLo(keys, i, lo) == KidLo(tl.keys, i, lo) && KidHi(keys, i, hi) == KidHi(tl.keys, i, Some(m));
      } else {
        assert t.kids[i] == tr.kids[i - n];
        assert KidLo(keys, i, lo) == KidLo(tr.keys, i - n, m) && KidHi(keys, i, hi) == KidHi(tr.keys, i - n, hi);
      }
    }
  }

  lemma InnerMergedKeys(a: seq<Key>, b: seq<Key>, lo: Key, m: Key, hi: Option<Key>)
    requires KeysOk(a, lo, Some(m)) && KeysOk(b, m, hi) && lo < m && Below(m, hi)
    ensures KeysOk(a + [m] + b[1..], lo, hi)
  {
    var k := a + [m] + b[1..];
    assert forall i | |a| < i < |k| :: k[i] == b[i - |a|];
    assert forall i | |a| < i < |k| :: m < k[i];
    assert forall i | 1 <= i < |a| :: k[i] < m;
  }

  lemma DropKeys(keys: seq<Key>, i: nat, lo: Key, hi: Option<Key>)
    requires KeysOk(keys, lo, hi) && i + 1 < |keys|
    ensures KeysOk(keys[..i + 1] + keys[i + 2..], lo, hi)
  {
    var k := keys[..i + 1] + keys[i + 2..];
    assert forall j | 0 <= j < |k| :: k[j] == if j <= i then keys[j] else keys[j + 1];
  }

  lemma MergedKid(f: Family, h: nat, cfg: Config, j: nat)
    requires CanMerge(f, h, cfg) && j < |f.left| + 1 + |f.right|
    ensures var p := MergedParent(f);
            && |p.kids| == |p.keys| == |f.left| + 1 + |f.right|
            && Fits(p.kids[j], cfg)
            && Ordered(p.kids[j], h, KidLo(p.keys, j, Lo(f.up)), KidHi(p.keys, j, Hi(f.up)), cfg)
  {
    var p, i := MergedParent(f), |f.left|;
    if j < i {
      assert p.kids[j] == f.left[j];
      assert KidHi(p.keys, j, Hi(f.up)) == KidHi(f.keys, 0 + j, Hi(f.up));
    } else if j == i {
      MergedOrdered(f, h, cfg);
      assert KidHi(p.keys, j, Hi(f.up)) == PairHi(f);
    } else {
      var r := j - i - 1;
      assert p.kids[j] == f.right[r];
      assert KidLo(p.keys, j, Lo(f.up)) == KidLo(f.keys, i + 2 + r, Lo(f.up));
      assert KidHi(p.keys, j, Hi(f.up)) == KidHi(f.keys, i + 2 + r, Hi(f.up));
    }
  }

  /** Merging two siblings that fit on one page keeps order, and the parent holds the same pairs. */
  lemma MergedParentOrdered(f: Family, h: nat, cfg: Config)
    requires CanMerge(f, h, cfg)
    ensures Ordered(MergedParent(f), h + 1, Lo(f.up), Hi(f.up), cfg)
    ensures Flat(MergedParent(f)) == Flat(Parent(f))
  {
    var p := MergedParent(f);
    DropKeys(f.keys, |f.left|, Lo(f.up), Hi(f.up));
    forall j | 0 <= j < |p.kids|
      ensures Fits(p.kids[j], cfg)
      ensures Ordered(p.kids[j], h, KidLo(p.keys, j, Lo(f.up)), KidHi(p.keys, j, Hi(f.up)), cfg)
    {
      MergedKid(f, h, cfg, j);
    }
    MergedParentFlat(f, h, cfg);
  }

  lemma MergedParentFlat(f: Family, h: nat, cfg: Config)
    requires CanMerge(f, h, cfg)
    ensures |f.left| + 1 < |f.keys| && Flat(MergedParent(f)) == Flat(Parent(f))
  {
    hide Flat, FlatAll, FamilyOrdered, Ordered, KeysOk, Fits;
    FamilyKinds(f, h, cfg);
    MergedOrdered(f, h, cfg);
    ParentFlat(f);
    FlatInner(MergedParent(f));
    Around(f.left, Merged(f.tl, f.tr), f.right);
    Associate(FlatAll(f.left), Flat(f.tl), Flat(f.tr), FlatAll(f.right));
  }

  /** The page of the merged subtree, and the page store once it is written and the right page is freed. */
  ghost function MergedPages(pages: Pages, f: Family, cfg: Config): Pages {
    pages[f.tl.id := PageOf(Merged(f.tl, f.tr), FirstOf(f.right, NextId(f.up)), cfg)] - {f.tr.id}
  }

  /** Ids of the pages that a merge leaves alone. */
  ghost function Others(f: Family): multiset<PageId> {
    multiset{f.id} + IdsAll(f.left) + IdsAll(f.right) + KidIds(f.tl) + KidIds(f.tr) + ContextIds(f.up)
  }

  lemma FamilyIds(f: Family)
    ensures Ids(Parent(f)) + ContextIds(f.up) == multiset{f.tl.id} + multiset{f.tr.id} + Others(f)
  {
    ParentIds(f);
  }

  lemma FreeOwned(pages: Pages, a: PageId, b: PageId, x: TreePage, rest: multiset<PageId>)
    requires Owned(pages, multiset{a} + multiset{b} + rest)
    ensures a != b && a !in rest && b !in rest
    ensures Same(pages, pages[a := x] - {b}, rest)
    ensures Owned(pages[a := x] - {b}, multiset{a} + rest)
  {
    var ids := multiset{a} + multiset{b} + rest;
    assert ids[a] <= 1 && ids[b] <= 1;
    assert a != b && a !in rest && b !in rest;
    var ids' := multiset{a} + rest;
    assert forall id :: ids'[id] <= ids[id];
  }

  lemma MergedIds(tl: Tree, tr: Tree)
    requires tl.LeafNode? <==> tr.LeafNode?
    requires tr.InnerNode? ==> Flat(tr) != [] && tr.keys != []
    ensures Ids(Merged(tl, tr)) == multiset{tl.id} + KidIds(tl) + KidIds(tr)
  {
    if tl.InnerNode? { IdsAppend(tl.kids, tr.kids); }
  }

  lemma MergedSubtree(pages: Pages, pages': Pages, tl: Tree, tr: Tree, next: PageId, cfg: Config)
    requires tl.LeafNode? <==> tr.LeafNode?
    requires tr.InnerNode? ==> Flat(tr) != [] && tr.keys != []
    requires KidsStored(pages, tl, FirstLeaf(tr), cfg) && KidsStored(pages, tr, next, cfg)
    requires Same(pages, pages', KidIds(tl)) && Same(pages, pages', KidIds(tr))
    requires tl.InnerNode? ==> tr.kids != []
    requires tl.id in pages' && pages'[tl.id] == PageOf(Merged(tl, tr), next, cfg)
    ensures Stored(pages', Merged(tl, tr), next, cfg)
  {
    KidsFrame(pages, pages', tl, FirstLeaf(tr), cfg);
    KidsFrame(pages, pages', tr, next, cfg);
    if tl.InnerNode? { ListStoredAppend(pages', tl.kids, tr.kids, next, cfg); }
  }

  /** What is in place after a merge, the parent's own page aside. */
  lemma MergedStored(pages: Pages, f: Family, h: nat, cfg: Config)
    requires CanMerge(f, h, cfg) && FamilyStored(pages, f, cfg)
    ensures var pages', tm, p := MergedPages(pages, f, cfg), Merged(f.tl, f.tr), MergedParent(f);
            && Stored(pages', tm, FirstOf(f.right, NextId(f.up)), cfg)
            && KidsStored(pages', p, NextId(f.up), cfg)
            && ContextStored(pages', f.up, f.id, FirstLeaf(p), cfg)
            && Owned(pages', Ids(p) + ContextIds(f.up))
            && f.id in pages' && pages'[f.id] == pages[f.id]
  {
    hide FamilyOrdered, Stored, ListStored, ContextStored, Same, Fits, Size, Flat, Owned, Ids, Others;
    hide FirstLeaf, PageOf, Merged, KidsStored;
    FamilyKinds(f, h, cfg);
    var pages', tm, p := MergedPages(pages, f, cfg), Merged(f.tl, f.tr), MergedParent(f);
    var next := FirstOf(f.right, NextId(f.up));
    FamilyIds(f);
    FreeOwned(pages, f.tl.id, f.tr.id, PageOf(tm, next, cfg), Others(f));
    OthersParts(pages, pages', f);
    FamilyLists(pages, f, cfg);
    MergedSubtree(pages, pages', f.tl, f.tr, next, cfg);
    ListFrame(pages, pages', f.left, FirstLeaf(f.tl), cfg);
    ListFrame(pages, pages', f.right, NextId(f.up), cfg);
    ContextFrame(pages, pages', f.up, f.id, FirstLeaf(Parent(f)), cfg);
    MergedFirst(f);
    ListStoredAround(pages', f.left, tm, f.right, NextId(f.up), cfg);
    KidsOfList(pages', p, NextId(f.up), cfg);
    MergedBag(f);
    SameAt(pages, pages', f.id);
  }

  lemma SameAt(pages: Pages, pages': Pages, id: PageId)
    requires Same(pages, pages', multiset{id}) && id in pages
    ensures id in pages' && pages'[id] == pages[id]
  {
    assert id in multiset{id};
  }

  lemma KidsOfList(pages: Pages, t: Tree, next: PageId, cfg: Config)
    requires t.InnerNode? && ListStored(pages, t.kids, next, cfg)
    ensures KidsStored(pages, t, next, cfg)
  {}

  lemma MergedFirst(f: Family)
    requires |f.left| + 1 < |f.keys| && (f.tl.InnerNode? ==> f.tl.kids != [])
    ensures FirstLeaf(Merged(f.tl, f.tr)) == FirstLeaf(f.tl) && Merged(f.tl, f.tr).id == f.tl.id
    ensures FirstLeaf(MergedParent(f)) == FirstLeaf(Parent(f))
  {
    assert Parent(f).kids[0] == if f.left == [] then f.tl else f.left[0];
  }

  lemma MergedBag(f: Family)
    requires f.tl.LeafNode? <==> f.tr.LeafNode?
    requires f.tr.InnerNode? ==> Flat(f.tr) != [] && f.tr.keys != []
    requires |f.left| + 1 < |f.keys|
    ensures Ids(MergedParent(f)) + ContextIds(f.up) == multiset{f.tl.id} + Others(f)
  {
    MergedIds(f.tl, f.tr);
    IdsAround(f.left, Merged(f.tl, f.tr), f.right);
  }

  lemma FamilyKinds(f: Family, h: nat, cfg: Config)
    requires FamilyOrdered(f, h, cfg)
    ensures |f.left| + 1 < |f.keys|
    ensures f.tl.LeafNode? <==> f.tr.LeafNode?
    ensures f.tl.InnerNode? ==> f.tl.kids != [] && f.tl.keys != []
    ensures f.tr.InnerNode? ==> Flat(f.tr) != [] && f.tr.keys != [] && f.tr.kids != []
  {
    if f.tr.InnerNode? { InnerFilled(f.tr, h, Sep(f), PairHi(f), cfg); }
  }

  lemma FamilyLists(pages: Pages, f: Family, cfg: Config)
    requires Stored(pages, Parent(f), NextId(f.up), cfg)
    ensures f.id in pages && pages[f.id] == PageOf(Parent(f), NextId(f.up), cfg)
    ensures ListStored(pages, f.left, FirstLeaf(f.tl), cfg) && ListStored(pages, f.right, NextId(f.up), cfg)
    ensures Stored(pages, f.tl, FirstLeaf(f.tr), cfg) && Stored(pages, f.tr, FirstOf(f.right, NextId(f.up)), cfg)
    ensures KidsStored(pages, f.tl, FirstLeaf(f.tr), cfg)
            && KidsStored(pages, f.tr, FirstOf(f.right, NextId(f.up)), cfg)
  {
    assert KidsStored(pages, Parent(f), NextId(f.up), cfg);
    ParentKids(f);
    ListStoredAround(pages, f.left + [f.tl], f.tr, f.right, NextId(f.up), cfg);
    ListStoredAppend(pages, f.left, [f.tl], FirstLeaf(f.tr), cfg);
    ListStoredOne(pages, f.tl, FirstLeaf(f.tr), cfg);
  }

  lemma OthersParts(pages: Pages, pages': Pages, f: Family)
    requires Same(pages, pages', Others(f))
    ensures Same(pages, pages', IdsAll(f.left)) && Same(pages, pages', IdsAll(f.right))
    ensures Same(pages, pages', KidIds(f.tl)) && Same(pages, pages', KidIds(f.tr))
    ensures Same(pages, pages', ContextIds(f.up)) && Same(pages, pages', multiset{f.id})
  {
    hide Same, Ids, IdsAll, KidIds, ContextIds;
    var a, b, c, d := multiset{f.id}, IdsAll(f.left), IdsAll(f.right), KidIds(f.tl);
    SameSplit(pages, pages', a + b + c + d + KidIds(f.tr), ContextIds(f.up));
    SameSplit(pages, pages', a + b + c + d, KidIds(f.tr));
    SameSplit(pages, pages', a + b + c, d);
    SameSplit(pages, pages', a + b, c);
    SameSplit(pages, pages', a, b);
  }

  lemma SameSplit(p0: Pages, p1: Pages, a: multiset<PageId>, b: multiset<PageId>)
    requires Same(p0, p1, a + b)
    ensures Same(p0, p1, a) && Same(p0, p1, b)
  {}

  lemma SamePart(p0: Pages, p1: Pages, ids: multiset<PageId>, part: multiset<PageId>)
    requires Same(p0, p1, ids) && part <= ids
    ensures Same(p0, p1, part)
  {}

  lemma {:induction false} IdOf(ts: seq<Tree>, j: nat)
    requires j < |ts|
    ensures ts[j].id in IdsAll(ts)
  {
    if j == 0 { assert ts[0].id in Ids(ts[0]); } else { IdOf(ts[1..], j - 1); }
  }

  /** Dropping the right page's entry from the stored parent leaves the entries of the merged parent. */
  lemma MergedEntries(pages: Pages, f: Family, h: nat, cfg: Config)
    requires FamilyOrdered(f, h, cfg) && FamilyStored(pages, f, cfg)
    ensures var e, i, p := Entries(f.keys, Parent(f).kids), |f.left|, MergedParent(f);
            && |e| == |f.keys| && e[i].val == f.tl.id && e[i + 1].val == f.tr.id
            && (forall j | 0 <= j <= i :: e[j].val != f.tr.id)
            && e[..i + 1] + e[i + 2..] == Entries(p.keys, p.kids)
  {
    hide Ordered, OrderedContext, Stored, ContextStored, KeysOk, SideOrdered;
    FamilyIds(f);
    FreeOwned(pages, f.tl.id, f.tr.id, Leaf([], 0, 0), Others(f));
    hide Owned, Ids, ContextIds, IdsAll, KidIds, Same;
    forall j | 0 <= j < |f.left| ensures f.left[j].id != f.tr.id {
      IdOf(f.left, j);
      LeftAmongOthers(f, f.left[j].id);
    }
    EntriesDrop(f);
  }

  lemma LeftAmongOthers(f: Family, id: PageId)
    requires id in IdsAll(f.left)
    ensures id in Others(f)
  {
    hide IdsAll, Ids, KidIds, ContextIds;
  }

  lemma EntriesDrop(f: Family)
    requires |f.keys| == |f.left| + |f.right| + 2
    requires forall j | 0 <= j < |f.left| :: f.left[j].id != f.tr.id
    requires f.tl.id != f.tr.id
    ensures var e, i, p := Entries(f.keys, Parent(f).kids), |f.left|, MergedParent(f);
            && |e| == |f.keys| && e[i].val == f.tl.id && e[i + 1].val == f.tr.id
            && (forall j | 0 <= j <= i :: e[j].val != f.tr.id)
            && e[..i + 1] + e[i + 2..] == Entries(p.keys, p.kids)
  {
    var e, i, kids := Entries(f.keys, Parent(f).kids), |f.left|, Parent(f).kids;
    forall j | 0 <= j <= i ensures e[j].val != f.tr.id {
      if j < i { assert kids[j] == f.left[j]; }
    }
    var p := MergedParent(f);
    var z, r := Entries(p.keys, p.kids), e[..i + 1] + e[i + 2..];
    forall j | 0 <= j < |z| ensures r[j] == z[j] {
      if j > i { assert r[j] == e[j + 1] && p.kids[j] == f.right[j - i - 1] == kids[j + 1]; }
    }
  }

  // ---- after a merge --------------------------------------------------------------------------

  /** A stored tree in order whose page at the hole may be underfull. */
  ghost predicate Loose(pages: Pages, c: Context, t: Tree, h: nat, cfg: Config) {
    && OrderedContext(c, h, cfg)
    && Ordered(t, h, Lo(c), Hi(c), cfg)
    && Stored(pages, t, NextId(c), cfg)
    && ContextStored(pages, c, t.id, FirstLeaf(t), cfg)
    && Owned(pages, Ids(t) + ContextIds(c))
  }

  /** A loose tree whose page at the hole is filled well enough is well formed as a whole. */
  lemma LooseFits(pages: Pages, c: Context, t: Tree, h: nat, cfg: Config) returns (h': nat)
    requires Loose(pages, c, t, h, cfg) && FitsHole(c, t, cfg)
    ensures WellFormed(Plug(c, t), h', cfg)
    ensures Stored(pages, Plug(c, t), INVALID_PAGE_ID, cfg)
    ensures Owned(pages, Ids(Plug(c, t)))
  {
    h' := PlugWellFormed(c, t, h, cfg);
    StoredPlug(pages, c, t, h, cfg);
  }

  /** The parent page is written back. */
  lemma MergedLoose(pages: Pages, f: Family, h: nat, cfg: Config)
    requires CanMerge(f, h, cfg) && FamilyStored(pages, f, cfg)
    ensures var p := MergedParent(f);
            && Loose(MergedPages(pages, f, cfg)[f.id := PageOf(p, NextId(f.up), cfg)], f.up, p, h + 1, cfg)
            && Flat(Plug(f.up, p)) == Flat(Plug(f.up, Parent(f)))
  {
    var p, pages1 := MergedParent(f), MergedPages(pages, f, cfg);
    MergedStored(pages, f, h, cfg);
    MergedParentOrdered(f, h, cfg);
    PlugLeaves(f.up, p);
    PlugLeaves(f.up, Parent(f));
    hide Flat, Ordered, OrderedContext, Plug, Fits, Merged, Ids;
    BagSplit(p, f.up);
    RewriteOwned(pages1, f.id, PageOf(p, NextId(f.up), cfg), KidIds(p), ContextIds(f.up));
    var pages2 := pages1[f.id := PageOf(p, NextId(f.up), cfg)];
    KidsFrame(pages1, pages2, p, NextId(f.up), cfg);
    ContextFrame(pages1, pages2, f.up, f.id, FirstLeaf(p), cfg);
  }

  lemma BagSplit(t: Tree, c: Context)
    ensures Ids(t) + ContextIds(c) == multiset{t.id} + KidIds(t) + ContextIds(c)
  {}

  /** The root had only these two subtrees: the merged page becomes the root. */
  lemma MergedCollapse(pages: Pages, f: Family, h: nat, cfg: Config)
    requires CanMerge(f, h, cfg) && FamilyStored(pages, f, cfg)
    requires f.up == Top && f.left == [] && f.right == []
    ensures var tm := Merged(f.tl, f.tr);
            && Loose(MergedPages(pages, f, cfg) - {f.id}, Top, tm, h, cfg)
            && FitsHole(Top, tm, cfg)
            && Flat(tm) == Flat(Parent(f))
  {
    RaiseLoHi(f, h, cfg);
    MergedStored(pages, f, h, cfg);
    MergedOrdered(f, h, cfg);
    CollapsedFlat(f, h, cfg);
    hide FamilyOrdered, FamilyStored, CanMerge, Flat, Ordered, Plug, Merged, Owned, Ids, Stored, KidsStored;
    hide ContextStored, MergedPages;
    var p, tm, pages1 := MergedParent(f), Merged(f.tl, f.tr), MergedPages(pages, f, cfg);
    assert p.kids == [tm];
    LoneKid(p, tm);
    DropOwned(pages1, f.id, Ids(tm));
    StoredFrame(pages1, pages1 - {f.id}, tm, INVALID_PAGE_ID, cfg);
    TopLoose(pages1 - {f.id}, tm, h, cfg);
  }

  lemma CollapsedFlat(f: Family, h: nat, cfg: Config)
    requires CanMerge(f, h, cfg) && f.left == [] && f.right == []
    ensures Flat(Merged(f.tl, f.tr)) == Flat(Parent(f))
  {
    hide CanMerge, Flat, Merged;
    MergedOrdered(f, h, cfg);
    ParentFlat(f);
    NoKids();
  }

  /** A page with a single subtree. */
  lemma LoneKid(p: Tree, tm: Tree)
    requires p.InnerNode? && p.kids == [tm]
    ensures Ids(p) + ContextIds(Top) == multiset{p.id} + Ids(tm)
  {
    assert [tm][1..] == [];
    assert IdsAll(p.kids) == Ids(tm);
  }

  lemma TopLoose(pages: Pages, t: Tree, h: nat, cfg: Config)
    requires Ordered(t, h, EMPTY_KEY, None, cfg) && Fits(t, cfg)
    requires Stored(pages, t, INVALID_PAGE_ID, cfg) && Owned(pages, Ids(t))
    ensures Loose(pages, Top, t, h, cfg) && FitsHole(Top, t, cfg)
  {
    hide Ordered, Stored, Owned, Ids;
    assert Ids(t) + ContextIds(Top) == Ids(t);
  }

  lemma RaiseLoHi(f: Family, h: nat, cfg: Config)
    requires FamilyOrdered(f, h, cfg) && f.up == Top && f.left == [] && f.right == []
    ensures PairLo(f) == EMPTY_KEY && PairHi(f) == None
  {}

  lemma DropOwned(pages: Pages, id: PageId, ids: multiset<PageId>)
    requires Owned(pages, multiset{id} + ids)
    ensures Owned(pages - {id}, ids) && Same(pages, pages - {id}, ids)
  {
    var all := multiset{id} + ids;
    assert all[id] <= 1;
    assert id !in ids;
    assert forall x :: ids[x] <= all[x];
  }

  // ---- borrowing between leaves ---------------------------------------------------------------

  /** The two leaves after one pair moved across, from the right one's front or from the left one's back. */
  ghost function BorrowedPair(tl: Tree, tr: Tree, fromRight: bool): (Tree, Tree)
    requires tl.LeafNode? && tr.LeafNode? && (if fromRight then tr.kvs != [] else tl.kvs != [])
  {
    if fromRight then (LeafNode(tl.id, tl.kvs + [tr.kvs[0]]), LeafNode(tr.id, tr.kvs[1..]))
    else (LeafNode(tl.id, tl.kvs[..|tl.kvs| - 1]), LeafNode(tr.id, [tl.kvs[|tl.kvs| - 1]] + tr.kvs))
  }

  /** Both leaves hold enough for the pair to move: the lender keeps a pair, and so does a right borrower before. */
  ghost predicate CanBorrow(f: Family, h: nat, fromRight: bool, cfg: Config) {
    && FamilyOrdered(f, h, cfg) && f.tl.LeafNode? && f.tr.LeafNode? && f.tr.kvs != []
    && (if fromRight then |f.tr.kvs| >= 2 else |f.tl.kvs| >= 2)
    && var (a, b) := BorrowedPair(f.tl, f.tr, fromRight); Fits(a, cfg) && Fits(b, cfg)
  }

  /** The parent is re-keyed where its separator equals the right leaf's first key of before the move. */
  ghost function BorrowedParent(f: Family, fromRight: bool): Tree
    requires f.tl.LeafNode? && f.tr.LeafNode? && f.tr.kvs != [] && |f.left| + 1 < |f.keys|
    requires if fromRight then |f.tr.kvs| >= 2 else |f.tl.kvs| >= 2
  {
    var (a, b) := BorrowedPair(f.tl, f.tr, fromRight);
    var keys := if Sep(f) == f.tr.kvs[0].key then f.keys[|f.left| + 1 := b.kvs[0].key] else f.keys;
    InnerNode(f.id, keys, f.left + [a, b] + f.right)
  }

  lemma PairMoves(tl: Tree, tr: Tree, fromRight: bool)
    requires tl.LeafNode? && tr.LeafNode? && (if fromRight then tr.kvs != [] else tl.kvs != [])
    ensures var (a, b) := BorrowedPair(tl, tr, fromRight); Flat(a) + Flat(b) == Flat(tl) + Flat(tr)
  {
    var (a, b) := BorrowedPair(tl, tr, fromRight);
    FlatLeaf(a);
    FlatLeaf(b);
    FlatLeaf(tl);
    FlatLeaf(tr);
    assert a.kvs + b.kvs == tl.kvs + tr.kvs;
  }

  /** The move keeps the pairs of the tree, whatever happens to the separators. */
  lemma BorrowedFlat(f: Family, fromRight: bool)
    requires f.tl.LeafNode? && f.tr.LeafNode? && f.tr.kvs != [] && |f.left| + 1 < |f.keys|
    requires if fromRight then |f.tr.kvs| >= 2 else |f.tl.kvs| >= 2
    ensures Flat(BorrowedParent(f, fromRight)) == Flat(Parent(f))
  {
    hide Flat, FlatAll;
    var (a, b) := BorrowedPair(f.tl, f.tr, fromRight);
    var g := f.(tl := a, tr := b);
    FlatInner(BorrowedParent(f, fromRight));
    FlatInner(Parent(g));
    ParentFlat(g);
    ParentFlat(f);
    PairMoves(f.tl, f.tr, fromRight);
    Associate(FlatAll(f.left), Flat(a), Flat(b), FlatAll(f.right));
    Associate(FlatAll(f.left), Flat(f.tl), Flat(f.tr), FlatAll(f.right));
  }

  lemma Associate<T>(l: seq<T>, a: seq<T>, b: seq<T>, r: seq<T>)
    ensures l + a + b + r == l + (a + b) + r
  {}

  lemma BorrowedLeaves(f: Family, h: nat, fromRight: bool, cfg: Config)
    requires CanBorrow(f, h, fromRight, cfg) && Sep(f) == f.tr.kvs[0].key
    ensures var (a, b) := BorrowedPair(f.tl, f.tr, fromRight);
            var m := b.kvs[0].key;
            && PairLo(f) < m && Below(m, PairHi(f))
            && Ordered(a, h, PairLo(f), Some(m), cfg) && Ordered(b, h, m, PairHi(f), cfg)
  {
    var (a, b) := BorrowedPair(f.tl, f.tr, fromRight);
    SepInside(f, h, cfg);
    assert PairLo(f) <= a.kvs[0].key;
  }

  lemma RekeyOk(keys: seq<Key>, i: nat, m: Key, lo: Key, hi: Option<Key>)
    requires i + 1 < |keys| && KeysOk(keys, lo, hi)
    requires KidLo(keys, i, lo) < m && Below(m, KidHi(keys, i + 1, hi))
    ensures KeysOk(keys[i + 1 := m], lo, hi)
  {
    var k := keys[i + 1 := m];
    assert forall j | 1 <= j <= i :: keys[j] <= keys[i] < m;
    assert forall j | i + 1 < j < |k| :: m < keys[i + 2] <= keys[j];
  }

  /** Bounds of the neighbours are untouched by re-keying the separator inside the pair. */
  lemma RekeyedBounds(keys: seq<Key>, i: nat, m: Key, lo: Key, hi: Option<Key>, j: nat)
    requires i + 1 < |keys| && j < |keys|
    ensures KidLo(keys[i + 1 := m], j, lo) == if j == i + 1 then m else KidLo(keys, j, lo)
    ensures KidHi(keys[i + 1 := m], j, hi) == if j == i then Some(m) else KidHi(keys, j, hi)
  {}

  lemma BorrowedKid(f: Family, h: nat, fromRight: bool, cfg: Config, j: nat)
    requires CanBorrow(f, h, fromRight, cfg) && Sep(f) == f.tr.kvs[0].key
    requires j < |f.left| + 2 + |f.right|
    ensures var p := BorrowedParent(f, fromRight);
            && |p.kids| == |p.keys| == |f.left| + 2 + |f.right|
            && Fits(p.kids[j], cfg)
            && Ordered(p.kids[j], h, KidLo(p.keys, j, Lo(f.up)), KidHi(p.keys, j, Hi(f.up)), cfg)
  {
    BorrowedLeaves(f, h, fromRight, cfg);
    var p, i := BorrowedParent(f, fromRight), |f.left|;
    var (a, b) := BorrowedPair(f.tl, f.tr, fromRight);
    RekeyedBounds(f.keys, i, b.kvs[0].key, Lo(f.up), Hi(f.up), j);
    assert p.keys == f.keys[i + 1 := b.kvs[0].key] && p.kids == f.left + [a, b] + f.right;
    if j < i {
      LeftSibling(f, h, cfg, j);
    } else if j > i + 1 {
      RightSibling(f, h, cfg, j - i - 2);
    }
    hide Ordered, OrderedContext, KeysOk, Fits, Within, FamilyOrdered, SideOrdered, BorrowedPair;
    hide BorrowedParent, KidLo, KidHi;
    if j < i {
      assert p.kids[j] == f.left[j];
    } else if j == i {
      assert p.kids[j] == a;
    } else if j == i + 1 {
      assert p.kids[j] == b;
    } else {
      assert p.kids[j] == f.right[j - i - 2];
    }
  }

  lemma LeftSibling(f: Family, h: nat, cfg: Config, j: nat)
    requires FamilyOrdered(f, h, cfg) && j < |f.left|
    ensures Fits(f.left[j], cfg)
    ensures Ordered(f.left[j], h, KidLo(f.keys, j, Lo(f.up)), KidHi(f.keys, j, Hi(f.up)), cfg)
  {
    hide Ordered, Fits, OrderedContext, KeysOk;
    assert KidLo(f.keys, j, Lo(f.up)) == KidLo(f.keys, 0 + j, Lo(f.up));
  }

  lemma RightSibling(f: Family, h: nat, cfg: Config, r: nat)
    requires FamilyOrdered(f, h, cfg) && r < |f.right|
    ensures Fits(f.right[r], cfg)
    ensures var j := |f.left| + 2 + r;
            Ordered(f.right[r], h, KidLo(f.keys, j, Lo(f.up)), KidHi(f.keys, j, Hi(f.up)), cfg)
  {
    hide Ordered, Fits, OrderedContext, KeysOk;
  }

  /**
   Moving a pair between two leaves keeps the tree in order if and only if the parent's separator was
   exactly the right leaf's first key. What a stale separator does to lookups is in `IndexSearch`.
   */
  lemma BorrowExact(f: Family, h: nat, fromRight: bool, cfg: Config)
    requires CanBorrow(f, h, fromRight, cfg)
    ensures Ordered(BorrowedParent(f, fromRight), h + 1, Lo(f.up), Hi(f.up), cfg) <==> Sep(f) == f.tr.kvs[0].key
  {
    var p, i := BorrowedParent(f, fromRight), |f.left|;
    var (a, b) := BorrowedPair(f.tl, f.tr, fromRight);
    if Sep(f) == f.tr.kvs[0].key {
      BorrowKeys(f, h, fromRight, cfg);
      forall j | 0 <= j < |p.kids|
        ensures Fits(p.kids[j], cfg)
        ensures Ordered(p.kids[j], h, KidLo(p.keys, j, Lo(f.up)), KidHi(p.keys, j, Hi(f.up)), cfg)
      {
        BorrowedKid(f, h, fromRight, cfg, j);
      }
    } else if Ordered(p, h + 1, Lo(f.up), Hi(f.up), cfg) {
      StaleBorrow(f, h, fromRight, cfg);
      if fromRight {
        assert p.kids[i] == a;
        LeafKid(p, h + 1, Lo(f.up), Hi(f.up), cfg, i);
      } else {
        assert p.kids[i + 1] == b;
        LeafKid(p, h + 1, Lo(f.up), Hi(f.up), cfg, i + 1);
      }
    }
  }

  lemma LeafKid(t: Tree, h: nat, lo: Key, hi: Option<Key>, cfg: Config, i: nat)
    requires t.InnerNode? && Ordered(t, h, lo, hi, cfg) && i < |t.kids| && t.kids[i].LeafNode?
    ensures i < |t.keys| && Within(t.kids[i].kvs, KidLo(t.keys, i, lo), KidHi(t.keys, i, hi))
  {}

  lemma BorrowKeys(f: Family, h: nat, fromRight: bool, cfg: Config)
    requires CanBorrow(f, h, fromRight, cfg) && Sep(f) == f.tr.kvs[0].key
    ensures KeysOk(BorrowedParent(f, fromRight).keys, Lo(f.up), Hi(f.up))
  {
    BorrowedLeaves(f, h, fromRight, cfg);
    var (a, b) := BorrowedPair(f.tl, f.tr, fromRight);
    RekeyOk(f.keys, |f.left|, b.kvs[0].key, Lo(f.up), Hi(f.up));
  }

  lemma StaleBorrow(f: Family, h: nat, fromRight: bool, cfg: Config)
    requires CanBorrow(f, h, fromRight, cfg) && Sep(f) != f.tr.kvs[0].key
    ensures var (a, b) := BorrowedPair(f.tl, f.tr, fromRight);
            if fromRight then !Within(a.kvs, PairLo(f), Some(Sep(f))) else !Within(b.kvs, Sep(f), PairHi(f))
  {
    var (a, b) := BorrowedPair(f.tl, f.tr, fromRight);
    if fromRight {
      assert a.kvs[|f.tl.kvs|] == f.tr.kvs[0];
    } else {
      assert b.kvs[0] == f.tl.kvs[|f.tl.kvs| - 1];
    }
  }

  // ---- storing the move -----------------------------------------------------------------------

  /** The store after both leaves and the parent are written back. */
  ghost function BorrowedPages(pages: Pages, f: Family, fromRight: bool, cfg: Config): Pages
    requires f.tl.LeafNode? && f.tr.LeafNode? && f.tr.kvs != [] && |f.left| + 1 < |f.keys|
    requires if fromRight then |f.tr.kvs| >= 2 else |f.tl.kvs| >= 2
  {
    var (a, b) := BorrowedPair(f.tl, f.tr, fromRight);
    pages[a.id := PageOf(a, b.id, cfg)]
         [b.id := PageOf(b, FirstOf(f.right, NextId(f.up)), cfg)]
         [f.id := PageOf(BorrowedParent(f, fromRight), NextId(f.up), cfg)]
  }

  lemma ThreeWrites(pages: Pages, a: PageId, b: PageId, p: PageId, x: TreePage, y: TreePage, z: TreePage,
      rest: multiset<PageId>)
    requires Owned(pages, multiset{a} + multiset{b} + multiset{p} + rest)
    ensures a != b && a != p && b != p
    ensures Same(pages, pages[a := x][b := y][p := z], rest)
    ensures Owned(pages[a := x][b := y][p := z], multiset{a} + multiset{b} + multiset{p} + rest)
  {
    var ids := multiset{a} + multiset{b} + multiset{p} + rest;
    assert ids[a] <= 1 && ids[b] <= 1 && ids[p] <= 1;
    assert a !in rest && b !in rest && p !in rest;
  }

  ghost function Neighbours(f: Family): multiset<PageId> {
    IdsAll(f.left) + IdsAll(f.right) + ContextIds(f.up)
  }

  lemma BorrowedBag(f: Family, fromRight: bool)
    requires f.tl.LeafNode? && f.tr.LeafNode? && f.tr.kvs != [] && |f.left| + 1 < |f.keys|
    requires if fromRight then |f.tr.kvs| >= 2 else |f.tl.kvs| >= 2
    ensures var b := multiset{f.tl.id} + multiset{f.tr.id} + multiset{f.id} + Neighbours(f);
            && Ids(Parent(f)) + ContextIds(f.up) == b
            && Ids(BorrowedParent(f, fromRight)) + ContextIds(f.up) == b
  {
    var (a, b) := BorrowedPair(f.tl, f.tr, fromRight);
    var g := f.(tl := a, tr := b);
    ParentIds(f);
    ParentIds(g);
    BorrowedShape(f, fromRight);
    assert Ids(f.tl) == multiset{f.tl.id} == Ids(a);
    assert Ids(f.tr) == multiset{f.tr.id} == Ids(b);
  }

  lemma BorrowedList(pages: Pages, l: seq<Tree>, a: Tree, b: Tree, r: seq<Tree>, next: PageId, cfg: Config)
    requires a.LeafNode? && b.LeafNode?
    requires ListStored(pages, l, a.id, cfg) && ListStored(pages, r, next, cfg)
    requires a.id in pages && pages[a.id] == PageOf(a, b.id, cfg)
    requires b.id in pages && pages[b.id] == PageOf(b, FirstOf(r, next), cfg)
    ensures ListStored(pages, (l + [a]) + [b] + r, next, cfg)
  {
    assert Stored(pages, a, b.id, cfg) && Stored(pages, b, FirstOf(r, next), cfg);
    hide Stored, ListStored;
    ListStoredOne(pages, a, b.id, cfg);
    ListStoredAppend(pages, l, [a], b.id, cfg);
    ListStoredAround(pages, l + [a], b, r, next, cfg);
  }

  lemma BorrowedOwned(pages: Pages, f: Family, fromRight: bool, cfg: Config)
    requires f.tl.LeafNode? && f.tr.LeafNode? && f.tr.kvs != [] && |f.left| + 1 < |f.keys|
    requires if fromRight then |f.tr.kvs| >= 2 else |f.tl.kvs| >= 2
    requires Owned(pages, Ids(Parent(f)) + ContextIds(f.up))
    ensures var pages', p := BorrowedPages(pages, f, fromRight, cfg), BorrowedParent(f, fromRight);
            var (a, b) := BorrowedPair(f.tl, f.tr, fromRight);
            && Same(pages, pages', Neighbours(f))
            && Owned(pages', Ids(p) + ContextIds(f.up))
            && f.id in pages' && pages'[f.id] == PageOf(p, NextId(f.up), cfg)
            && a.id in pages' && pages'[a.id] == PageOf(a, b.id, cfg)
            && b.id in pages' && pages'[b.id] == PageOf(b, FirstOf(f.right, NextId(f.up)), cfg)
  {
    hide Same, Owned, BorrowedParent, Ids, PageOf, Neighbours;
    BorrowedShape(f, fromRight);
    BorrowedBag(f, fromRight);
    var p := BorrowedParent(f, fromRight);
    var (a, b) := BorrowedPair(f.tl, f.tr, fromRight);
    ThreeWrites(pages, a.id, b.id, f.id, PageOf(a, b.id, cfg), PageOf(b, FirstOf(f.right, NextId(f.up)), cfg),
                PageOf(p, NextId(f.up), cfg), Neighbours(f));
  }

  /** After the move everything is stored as the re-keyed tree describes it. */
  lemma BorrowedStored(pages: Pages, f: Family, h: nat, fromRight: bool, cfg: Config)
    requires CanBorrow(f, h, fromRight, cfg) && FamilyStored(pages, f, cfg)
    ensures var pages', p := BorrowedPages(pages, f, fromRight, cfg), BorrowedParent(f, fromRight);
            && Stored(pages', p, NextId(f.up), cfg)
            && ContextStored(pages', f.up, p.id, FirstLeaf(p), cfg)
            && Owned(pages', Ids(p) + ContextIds(f.up))
  {
    FamilyLists(pages, f, cfg);
    FamilyKinds(f, h, cfg);
    hide FamilyOrdered, Ordered, ContextStored, Fits, Same, Owned, ListStored, BorrowedParent, BorrowedPages;
    hide Ids, PageOf, Neighbours;
    var pages', p := BorrowedPages(pages, f, fromRight, cfg), BorrowedParent(f, fromRight);
    var (a, b) := BorrowedPair(f.tl, f.tr, fromRight);
    BorrowedShape(f, fromRight);
    BorrowedOwned(pages, f, fromRight, cfg);
    NeighbourParts(pages, pages', f);
    ListFrame(pages, pages', f.left, FirstLeaf(f.tl), cfg);
    ListFrame(pages, pages', f.right, NextId(f.up), cfg);
    ContextFrame(pages, pages', f.up, f.id, FirstLeaf(Parent(f)), cfg);
    BorrowedList(pages', f.left, a, b, f.right, NextId(f.up), cfg);
    KidsOfList(pages', p, NextId(f.up), cfg);
  }

  lemma NeighbourParts(pages: Pages, pages': Pages, f: Family)
    requires Same(pages, pages', Neighbours(f))
    ensures Same(pages, pages', IdsAll(f.left)) && Same(pages, pages', IdsAll(f.right))
    ensures Same(pages, pages', ContextIds(f.up))
  {
    hide Same, IdsAll, ContextIds;
    SameSplit(pages, pages', IdsAll(f.left) + IdsAll(f.right), ContextIds(f.up));
    SameSplit(pages, pages', IdsAll(f.left), IdsAll(f.right));
  }

  lemma BorrowedShape(f: Family, fromRight: bool)
    requires f.tl.LeafNode? && f.tr.LeafNode? && f.tr.kvs != [] && |f.left| + 1 < |f.keys|
    requires if fromRight then |f.tr.kvs| >= 2 else |f.tl.kvs| >= 2
    ensures var p, (a, b) := BorrowedParent(f, fromRight), BorrowedPair(f.tl, f.tr, fromRight);
            && p.InnerNode? && p.id == f.id && a.id == f.tl.id && b.id == f.tr.id
            && p.kids == (f.left + [a]) + [b] + f.right == Parent(f.(tl := a, tr := b)).kids
            && FirstLeaf(p) == FirstLeaf(Parent(f))
  {
    var (a, b) := BorrowedPair(f.tl, f.tr, fromRight);
    assert Parent(f).kids[0] == if f.left == [] then f.tl else f.left[0];
    assert BorrowedParent(f, fromRight).kids[0] == if f.left == [] then a else f.left[0];
  }
}
