/** How a tree is laid out over stored pages: one page per node, leaves chained by their next page ids. */
module IndexStore {
  import opened Prelude
  import opened KeyValues
  import opened IndexPage
  import opened IndexTree

  type Pages = map<PageId, TreePage>

  ghost function Entries(keys: seq<Key>, kids: seq<Tree>): seq<KV<PageId>> {
    seq(|kids|, i requires 0 <= i < |kids| => KV(if i < |keys| then keys[i] else EMPTY_KEY, kids[i].id))
  }

  ghost function FirstLeaf(t: Tree): PageId
    decreases t
  {
    if t.LeafNode? then t.id else if t.kids == [] then INVALID_PAGE_ID else FirstLeaf(t.kids[0])
  }

  /** The leaf a list of subtrees starts with, or else the leaf after it. */
  ghost function FirstOf(ts: seq<Tree>, next: PageId): PageId {
    if ts == [] then next else FirstLeaf(ts[0])
  }

  ghost function PageOf(t: Tree, next: PageId, cfg: Config): TreePage {
    match t
    case LeafNode(_, kvs) => Leaf(kvs, cfg.leafMax, next)
    case InnerNode(_, keys, kids) => Internal(Entries(keys, kids), cfg.internalMax)
  }

  /** Every node of `t` sits on its own page; the last leaf is chained to `next`. */
  ghost predicate Stored(pages: Pages, t: Tree, next: PageId, cfg: Config)
    decreases t, 1
  {
    && t.id in pages
    && pages[t.id] == PageOf(t, next, cfg)
    && KidsStored(pages, t, next, cfg)
  }

  ghost predicate KidsStored(pages: Pages, t: Tree, next: PageId, cfg: Config)
    decreases t, 0
  {
    t.InnerNode? ==> ListStored(pages, t.kids, next, cfg)
  }

  ghost predicate ListStored(pages: Pages, ts: seq<Tree>, next: PageId, cfg: Config)
    decreases ts, 0
  {
    ts != [] ==> Stored(pages, ts[0], FirstOf(ts[1..], next), cfg) && ListStored(pages, ts[1..], next, cfg)
  }

  lemma {:induction false} ListStoredAppend(pages: Pages, a: seq<Tree>, b: seq<Tree>, next: PageId, cfg: Config)
    ensures ListStored(pages, a + b, next, cfg) <==>
            ListStored(pages, a, FirstOf(b, next), cfg) && ListStored(pages, b, next, cfg)
  {
    if a == [] {
      assert a + b == b;
    } else {
      assert (a + b)[1..] == a[1..] + b;
      ListStoredAppend(pages, a[1..], b, next, cfg);
    }
  }

  lemma ListStoredOne(pages: Pages, t: Tree, next: PageId, cfg: Config)
    ensures ListStored(pages, [t], next, cfg) <==> Stored(pages, t, next, cfg)
  {
    assert [t][1..] == [];
  }

  lemma ListStoredAround(pages: Pages, l: seq<Tree>, t: Tree, r: seq<Tree>, next: PageId, cfg: Config)
    ensures ListStored(pages, l + [t] + r, next, cfg) <==>
            && ListStored(pages, l, FirstLeaf(t), cfg)
            && Stored(pages, t, FirstOf(r, next), cfg)
            && ListStored(pages, r, next, cfg)
  {
    ListStoredAppend(pages, l + [t], r, next, cfg);
    ListStoredAppend(pages, l, [t], FirstOf(r, next), cfg);
    ListStoredOne(pages, t, FirstOf(r, next), cfg);
  }

  /** The page ids of a tree, with multiplicity. */
  ghost function Ids(t: Tree): multiset<PageId>
    decreases t, 1
  {
    multiset{t.id} + if t.InnerNode? then IdsAll(t.kids) else multiset{}
  }

  ghost function IdsAll(ts: seq<Tree>): multiset<PageId>
    decreases ts, 0
  {
    if ts == [] then multiset{} else Ids(ts[0]) + IdsAll(ts[1..])
  }

  lemma {:induction false} IdsAppend(a: seq<Tree>, b: seq<Tree>)
    ensures IdsAll(a + b) == IdsAll(a) + IdsAll(b)
  {
    if a == [] {
      assert a + b == b;
    } else {
      assert (a + b)[1..] == a[1..] + b;
      IdsAppend(a[1..], b);
    }
  }

  lemma IdsAround(l: seq<Tree>, t: Tree, r: seq<Tree>)
    ensures IdsAll(l + [t] + r) == IdsAll(l) + Ids(t) + IdsAll(r)
  {
    IdsAppend(l + [t], r);
    IdsAppend(l, [t]);
    assert [t][1..] == [];
  }

  /** `pages` holds exactly the given ids and no page is shared. */
  ghost predicate Owned(pages: Pages, ids: multiset<PageId>) {
    && INVALID_PAGE_ID !in ids
    && (forall id {:trigger ids[id]} :: ids[id] <= 1)
    && (forall id :: id in pages <==> id in ids)
  }

  /** Two page stores agree on a set of ids. */
  ghost predicate Same(pages: Pages, pages': Pages, ids: multiset<PageId>) {
    forall id | id in ids && id in pages :: id in pages' && pages'[id] == pages[id]
  }

  lemma {:induction false} StoredFrame(pages: Pages, pages': Pages, t: Tree, next: PageId, cfg: Config)
    requires Stored(pages, t, next, cfg) && Same(pages, pages', Ids(t))
    ensures Stored(pages', t, next, cfg)
    decreases t, 1
  {
    KidsFrame(pages, pages', t, next, cfg);
  }

  lemma {:induction false} KidsFrame(pages: Pages, pages': Pages, t: Tree, next: PageId, cfg: Config)
    requires KidsStored(pages, t, next, cfg)
    requires t.InnerNode? ==> Same(pages, pages', IdsAll(t.kids))
    ensures KidsStored(pages', t, next, cfg)
    decreases t, 0
  {
    if t.InnerNode? { ListFrame(pages, pages', t.kids, next, cfg); }
  }

  lemma {:induction false} ListFrame(pages: Pages, pages': Pages, ts: seq<Tree>, next: PageId, cfg: Config)
    requires ListStored(pages, ts, next, cfg) && Same(pages, pages', IdsAll(ts))
    ensures ListStored(pages', ts, next, cfg)
    decreases ts, 0
  {
    if ts != [] {
      StoredFrame(pages, pages', ts[0], FirstOf(ts[1..], next), cfg);
      ListFrame(pages, pages', ts[1..], next, cfg);
    }
  }

  // ---- contexts -------------------------------------------------------------------------------

  /** The leaf that follows the hole. */
  ghost function NextId(c: Context): PageId {
    if c.Top? then INVALID_PAGE_ID else FirstOf(c.right, NextId(c.up))
  }

  ghost function ContextIds(c: Context): multiset<PageId> {
    if c.Top? then multiset{} else multiset{c.id} + IdsAll(c.left) + IdsAll(c.right) + ContextIds(c.up)
  }

  /** The leaf the frame's page starts with when the hole starts with `first`. */
  ghost function FrameFirst(c: Context, first: PageId): PageId
    requires c.Frame?
  {
    FirstOf(c.left, first)
  }

  ghost function FrameChild(c: Context, hole: PageId, i: nat): PageId
    requires c.Frame? && i < |c.left| + 1 + |c.right|
  {
    if i < |c.left| then c.left[i].id else if i == |c.left| then hole else c.right[i - |c.left| - 1].id
  }

  /** Entries of the frame's page around a hole filled by page `hole`. */
  ghost function FrameEntries(c: Context, hole: PageId): seq<KV<PageId>>
    requires c.Frame?
  {
    seq(|c.left| + 1 + |c.right|, i requires 0 <= i < |c.left| + 1 + |c.right| =>
      KV(if i < |c.keys| then c.keys[i] else EMPTY_KEY, FrameChild(c, hole, i)))
  }

  ghost predicate SidesStored(pages: Pages, c: Context, first: PageId, cfg: Config)
    requires c.Frame?
  {
    ListStored(pages, c.left, first, cfg) && ListStored(pages, c.right, NextId(c.up), cfg)
  }

  /** Every page of the context is in place around a hole filled by page `hole` whose first leaf is `first`. */
  ghost predicate ContextStored(pages: Pages, c: Context, hole: PageId, first: PageId, cfg: Config)
    decreases c
  {
    c.Top? || (
      && c.id in pages
      && pages[c.id] == Internal(FrameEntries(c, hole), cfg.internalMax)
      && SidesStored(pages, c, first, cfg)
      && ContextStored(pages, c.up, c.id, FrameFirst(c, first), cfg))
  }

  lemma {:induction false} ContextFrame(pages: Pages, pages': Pages, c: Context, hole: PageId, first: PageId,
      cfg: Config)
    requires ContextStored(pages, c, hole, first, cfg) && Same(pages, pages', ContextIds(c))
    ensures ContextStored(pages', c, hole, first, cfg)
    decreases c
  {
    if c.Frame? {
      ListFrame(pages, pages', c.left, first, cfg);
      ListFrame(pages, pages', c.right, NextId(c.up), cfg);
      ContextFrame(pages, pages', c.up, c.id, FrameFirst(c, first), cfg);
    }
  }

  lemma DownIds(c: Context, t: Tree, i: nat)
    requires t.InnerNode? && i < |t.kids|
    ensures Ids(t.kids[i]) + ContextIds(Down(c, t, i)) == Ids(t) + ContextIds(c)
  {
    assert t.kids == t.kids[..i] + [t.kids[i]] + t.kids[i + 1..];
    IdsAround(t.kids[..i], t.kids[i], t.kids[i + 1..]);
  }

  /** Stepping down into subtree `i` moves its siblings and its parent page into the context. */
  lemma StoredDown(pages: Pages, c: Context, t: Tree, cfg: Config, i: nat)
    requires t.InnerNode? && i < |t.kids|
    requires Stored(pages, t, NextId(c), cfg) && ContextStored(pages, c, t.id, FirstLeaf(t), cfg)
    ensures Stored(pages, t.kids[i], NextId(Down(c, t, i)), cfg)
    ensures ContextStored(pages, Down(c, t, i), t.kids[i].id, FirstLeaf(t.kids[i]), cfg)
  {
    var c' := Down(c, t, i);
    assert t.kids == t.kids[..i] + [t.kids[i]] + t.kids[i + 1..];
    ListStoredAround(pages, t.kids[..i], t.kids[i], t.kids[i + 1..], NextId(c), cfg);
    assert FrameEntries(c', t.kids[i].id) == Entries(t.keys, t.kids);
    assert FrameFirst(c', FirstLeaf(t.kids[i])) == FirstLeaf(t);
  }

  /** The converse step: a stored hole completes its parent page. */
  lemma StoredUp(pages: Pages, c: Context, t: Tree, cfg: Config)
    requires c.Frame? && |c.keys| == |c.left| + 1 + |c.right|
    requires Stored(pages, t, NextId(c), cfg) && ContextStored(pages, c, t.id, FirstLeaf(t), cfg)
    ensures var p := InnerNode(c.id, c.keys, c.left + [t] + c.right);
            Stored(pages, p, NextId(c.up), cfg) && ContextStored(pages, c.up, p.id, FirstLeaf(p), cfg)
  {
    var p := InnerNode(c.id, c.keys, c.left + [t] + c.right);
    ListStoredAround(pages, c.left, t, c.right, NextId(c.up), cfg);
    assert Entries(p.keys, p.kids) == FrameEntries(c, t.id);
    assert p.kids[0] == if c.left == [] then t else c.left[0];
  }

  lemma {:induction false} StoredPlug(pages: Pages, c: Context, t: Tree, h: nat, cfg: Config)
    requires OrderedContext(c, h, cfg)
    requires Stored(pages, t, NextId(c), cfg) && ContextStored(pages, c, t.id, FirstLeaf(t), cfg)
    ensures Stored(pages, Plug(c, t), INVALID_PAGE_ID, cfg)
    ensures Ids(Plug(c, t)) == Ids(t) + ContextIds(c)
    decreases c
  {
    hide OrderedContext, Stored, ContextStored, FirstLeaf, Entries, PageOf, Ids, ContextIds;
    if c.Frame? {
      HoleBounds(c, h, cfg);
      StoredUp(pages, c, t, cfg);
      IdsUp(c, t);
      StoredPlug(pages, c.up, InnerNode(c.id, c.keys, c.left + [t] + c.right), h + 1, cfg);
    } else {
      IdsAtTop(t);
    }
  }

  lemma IdsAtTop(t: Tree)
    ensures Ids(t) + ContextIds(Top) == Ids(t)
  {}

  lemma IdsUp(c: Context, t: Tree)
    requires c.Frame?
    ensures Ids(InnerNode(c.id, c.keys, c.left + [t] + c.right)) + ContextIds(c.up) == Ids(t) + ContextIds(c)
  {
    IdsAround(c.left, t, c.right);
  }

  // ---- splitting ------------------------------------------------------------------------------

  lemma HalvesIds(t: Tree, q: PageId)
    ensures Ids(LeftHalf(t)) + Ids(RightHalf(t, q)) == Ids(t) + multiset{q}
  {
    if t.InnerNode? {
      var mid := Size(t) / 2;
      assert t.kids[..mid] + t.kids[mid..] == t.kids;
      IdsAppend(t.kids[..mid], t.kids[mid..]);
    }
  }

  /** Both halves are in place once their two top pages are written. */
  lemma HalvesStored(pages: Pages, pages': Pages, t: Tree, q: PageId, next: PageId, cfg: Config)
    requires KidsStored(pages, t, next, cfg) && Size(t) >= 2
    requires t.InnerNode? ==> Same(pages, pages', IdsAll(t.kids))
    requires q in pages' && pages'[q] == PageOf(RightHalf(t, q), next, cfg)
    requires t.id in pages' && pages'[t.id] == PageOf(LeftHalf(t), FirstLeaf(RightHalf(t, q)), cfg)
    ensures Stored(pages', LeftHalf(t), FirstLeaf(RightHalf(t, q)), cfg)
    ensures Stored(pages', RightHalf(t, q), next, cfg)
    ensures FirstLeaf(LeftHalf(t)) == FirstLeaf(t)
  {
    KidsFrame(pages, pages', t, next, cfg);
    if t.InnerNode? {
      var mid := Size(t) / 2;
      assert t.kids[..mid] + t.kids[mid..] == t.kids;
      ListStoredAppend(pages', t.kids[..mid], t.kids[mid..], next, cfg);
    }
  }

  lemma AdoptIds(c: Context, tl: Tree, m: Key, tr: Tree)
    requires c.Frame? && |c.left| < |c.keys|
    ensures Ids(Adopt(c, tl, m, tr)) + ContextIds(c.up) == Ids(tl) + Ids(tr) + ContextIds(c)
  {
    assert [tl, tr] == [tl] + [tr];
    assert c.left + [tl, tr] + c.right == (c.left + [tl]) + [tr] + c.right;
    IdsAround(c.left + [tl], tr, c.right);
    IdsAround(c.left, tl, []);
    assert c.left + [tl] + [] == c.left + [tl];
  }

  /** With both halves stored, only the parent's own page is still to be written. */
  lemma AdoptStored(pages: Pages, c: Context, tl: Tree, m: Key, tr: Tree, cfg: Config)
    requires c.Frame? && |c.left| < |c.keys|
    requires ContextStored(pages, c, tl.id, FirstLeaf(tl), cfg)
    requires Stored(pages, tl, FirstLeaf(tr), cfg) && Stored(pages, tr, NextId(c), cfg)
    ensures KidsStored(pages, Adopt(c, tl, m, tr), NextId(c.up), cfg)
    ensures ContextStored(pages, c.up, c.id, FirstLeaf(Adopt(c, tl, m, tr)), cfg)
  {
    var p := Adopt(c, tl, m, tr);
    assert p.kids == (c.left + [tl]) + [tr] + c.right;
    ListStoredAround(pages, c.left + [tl], tr, c.right, NextId(c.up), cfg);
    ListStoredAppend(pages, c.left, [tl], FirstLeaf(tr), cfg);
    ListStoredOne(pages, tl, FirstLeaf(tr), cfg);
    assert p.kids[0] == if c.left == [] then tl else c.left[0];
  }

  /** A separator that belongs into slot `i` divides the entries behind that slot from the others. */
  lemma EntriesDivide(e: seq<KV<PageId>>, keys: seq<Key>, i: nat, m: Key, lo: Key, hi: Option<Key>)
    requires KeysOk(keys, lo, hi) && |e| == |keys| && i < |keys|
    requires forall j | 0 <= j < |e| :: e[j].key == keys[j]
    requires KidLo(keys, i, lo) < m && Below(m, KidHi(keys, i, hi))
    ensures Ascending(e[1..])
    ensures forall j | 1 <= j <= i :: e[j].key <= m
    ensures forall j | i < j < |e| :: m < e[j].key
  {
    forall j | i < j < |e| ensures m < e[j].key {
      assert m < keys[i + 1] <= keys[j];
    }
    forall j | 1 <= j <= i ensures e[j].key <= m {
      assert keys[j] <= keys[i];
    }
  }

  lemma HoleBounds(c: Context, h: nat, cfg: Config)
    requires c.Frame? && OrderedContext(c, h, cfg)
    ensures OrderedContext(c.up, h + 1, cfg)
    ensures |c.keys| == |c.left| + 1 + |c.right| && KeysOk(c.keys, Lo(c.up), Hi(c.up))
    ensures Lo(c) == KidLo(c.keys, |c.left|, Lo(c.up)) && Hi(c) == KidHi(c.keys, |c.left|, Hi(c.up))
  {}

  /** Sorting the promoted separator into the parent's entries puts the right half next to the left one. */
  lemma AdoptEntries(c: Context, tl: Tree, m: Key, tr: Tree, h: nat, cfg: Config)
    requires c.Frame? && OrderedContext(c, h, cfg) && Lo(c) < m && Below(m, Hi(c))
    ensures var e, p := FrameEntries(c, tl.id), Adopt(c, tl, m, tr);
            e != [] && [e[0]] + StableSort(e[1..] + [KV(m, tr.id)]) == Entries(p.keys, p.kids)
  {
    hide OrderedContext, KeysOk, FrameEntries, Entries, Adopt, StableSort, InsertLast, Lo, Hi;
    HoleBounds(c, h, cfg);
    FrameKeys(c, tl.id);
    var e, i := FrameEntries(c, tl.id), |c.left|;
    EntriesDivide(e, c.keys, i, m, Lo(c.up), Hi(c.up));
    EntriesInserted(c, tl, m, tr);
    var x, a, b := KV(m, tr.id), e[1..i + 1], e[i + 1..];
    assert e[1..] == a + b;
    StableSortPushed(e[1..], x);
    InsertLastSplits(a, b, x);
  }

  lemma FrameKeys(c: Context, hole: PageId)
    requires c.Frame? && |c.keys| == |c.left| + 1 + |c.right|
    ensures |FrameEntries(c, hole)| == |c.keys|
    ensures forall j | 0 <= j < |c.keys| :: FrameEntries(c, hole)[j].key == c.keys[j]
  {}

  lemma EntriesInserted(c: Context, tl: Tree, m: Key, tr: Tree)
    requires c.Frame? && |c.keys| == |c.left| + 1 + |c.right|
    ensures var e, p := FrameEntries(c, tl.id), Adopt(c, tl, m, tr);
            [e[0]] + (e[1..|c.left| + 1] + [KV(m, tr.id)] + e[|c.left| + 1..]) == Entries(p.keys, p.kids)
  {
    var i := |c.left|;
    var e, p := FrameEntries(c, tl.id), Adopt(c, tl, m, tr);
    var r := [e[0]] + (e[1..i + 1] + [KV(m, tr.id)] + e[i + 1..]);
    var z := Entries(p.keys, p.kids);
    forall j | 0 <= j < |z| ensures r[j] == z[j] {
      if j <= i {
        assert r[j] == e[j] && p.keys[j] == c.keys[j];
        assert p.kids[j].id == FrameChild(c, tl.id, j);
      } else if j == i + 1 {
        assert r[j] == KV(m, tr.id) && p.keys[j] == m && p.kids[j] == tr;
      } else {
        assert r[j] == e[j - 1] && p.keys[j] == c.keys[j - 1] && p.kids[j] == c.right[j - i - 2];
      }
    }
  }

  // ---- one round of an insertion --------------------------------------------------------------

  /**
   A tree whose page at the hole is being worked on in memory and may hold one entry too many;
   everything else is stored and well formed.
   */
  ghost predicate InFlight(pages: Pages, c: Context, t: Tree, h: nat, cfg: Config) {
    && OrderedContext(c, h, cfg)
    && Ordered(t, h, Lo(c), Hi(c), cfg)
    && Least(t) <= Size(t) <= MaxSize(t, cfg) + 1
    && (c.Frame? ==> MaxSize(t, cfg) / 2 <= Size(t))
    && KidsStored(pages, t, NextId(c), cfg)
    && ContextStored(pages, c, t.id, FirstLeaf(t), cfg)
    && Owned(pages, Ids(t) + ContextIds(c))
  }

  /** What the two top pages of a split look like when they are written back. */
  ghost function SplitPages(pages: Pages, t: Tree, q: PageId, next: PageId, cfg: Config): Pages {
    pages[q := PageOf(RightHalf(t, q), next, cfg)][t.id := PageOf(LeftHalf(t), FirstLeaf(RightHalf(t, q)), cfg)]
  }

  ghost predicate Splitting(pages: Pages, c: Context, t: Tree, q: PageId, h: nat, cfg: Config) {
    && InFlight(pages, c, t, h, cfg) && Size(t) == MaxSize(t, cfg) + 1
    && cfg.internalMax >= 3 && cfg.leafMax >= 1
    && q !in pages && q != INVALID_PAGE_ID
  }

  /** Rewriting one owned page and adding a fresh one touches no other page. */
  lemma RewriteOwned(pages: Pages, id: PageId, x: TreePage, kids: multiset<PageId>, rest: multiset<PageId>)
    requires Owned(pages, multiset{id} + kids + rest)
    ensures Same(pages, pages[id := x], kids) && Same(pages, pages[id := x], rest)
    ensures Owned(pages[id := x], multiset{id} + kids + rest)
  {
    var ids := multiset{id} + kids + rest;
    assert ids[id] <= 1;
    assert id !in kids && id !in rest;
  }

  lemma GrowOwned(pages: Pages, ids: multiset<PageId>, q: PageId, x: TreePage)
    requires Owned(pages, ids) && q !in pages && q != INVALID_PAGE_ID
    ensures Same(pages, pages[q := x], ids)
    ensures Owned(pages[q := x], ids + multiset{q})
  {
    assert ids[q] == 0;
  }

  lemma SameTrans(p0: Pages, p1: Pages, p2: Pages, ids: multiset<PageId>, part: multiset<PageId>)
    requires Same(p0, p1, ids) && part <= ids && Same(p1, p2, part)
    ensures Same(p0, p2, part)
  {}

  ghost function KidIds(t: Tree): multiset<PageId> { if t.InnerNode? then IdsAll(t.kids) else multiset{} }

  lemma SplitOwned(pages: Pages, t: Tree, rest: multiset<PageId>, q: PageId, x: TreePage, y: TreePage)
    requires Owned(pages, Ids(t) + rest) && q !in pages && q != INVALID_PAGE_ID
    ensures var pages' := pages[q := x][t.id := y];
            && Same(pages, pages', KidIds(t)) && Same(pages, pages', rest)
            && Owned(pages', Ids(t) + rest + multiset{q})
  {
    var ids := Ids(t) + rest;
    assert ids == multiset{t.id} + KidIds(t) + rest;
    GrowOwned(pages, ids, q, x);
    assert ids + multiset{q} == multiset{t.id} + KidIds(t) + (rest + multiset{q});
    RewriteOwned(pages[q := x], t.id, y, KidIds(t), rest + multiset{q});
    SameTrans(pages, pages[q := x], pages[q := x][t.id := y], ids, KidIds(t));
    SameTrans(pages, pages[q := x], pages[q := x][t.id := y], ids, rest);
  }

  lemma SplitStored(pages: Pages, c: Context, t: Tree, q: PageId, h: nat, cfg: Config)
    requires Splitting(pages, c, t, q, h, cfg)
    ensures var pages', tl, tr := SplitPages(pages, t, q, NextId(c), cfg), LeftHalf(t), RightHalf(t, q);
            && Stored(pages', tl, FirstLeaf(tr), cfg) && Stored(pages', tr, NextId(c), cfg)
            && FirstLeaf(tl) == FirstLeaf(t)
            && ContextStored(pages', c, tl.id, FirstLeaf(tl), cfg)
            && Owned(pages', Ids(tl) + Ids(tr) + ContextIds(c))
  {
    var pages' := SplitPages(pages, t, q, NextId(c), cfg);
    var tl, tr := LeftHalf(t), RightHalf(t, q);
    var x, y := PageOf(tr, NextId(c), cfg), PageOf(tl, FirstLeaf(tr), cfg);
    SplitOwned(pages, t, ContextIds(c), q, x, y);
    assert q != t.id by { assert t.id in Ids(t) + ContextIds(c); }
    HalvesStored(pages, pages', t, q, NextId(c), cfg);
    ContextFrame(pages, pages', c, t.id, FirstLeaf(t), cfg);
    HalvesIds(t, q);
    assert Ids(tl) + Ids(tr) + ContextIds(c) == Ids(t) + ContextIds(c) + multiset{q};
  }

  /** The parent takes over: it is in flight with one more entry and the tree holds the same pairs. */
  lemma SplitUnderParent(pages: Pages, c: Context, t: Tree, q: PageId, h: nat, cfg: Config)
    requires Splitting(pages, c, t, q, h, cfg) && c.Frame?
    ensures Flat(RightHalf(t, q)) != []
    ensures var tl, tr := LeftHalf(t), RightHalf(t, q);
            var p := Adopt(c, tl, Flat(tr)[0].key, tr);
            && InFlight(SplitPages(pages, t, q, NextId(c), cfg), c.up, p, h + 1, cfg)
            && Flat(Plug(c.up, p)) == Flat(Plug(c, t))
  {
    var pages', tl, tr := SplitPages(pages, t, q, NextId(c), cfg), LeftHalf(t), RightHalf(t, q);
    HalvesOrdered(t, q, h, Lo(c), Hi(c), cfg);
    var m := Flat(tr)[0].key;
    var p := Adopt(c, tl, m, tr);
    SplitStored(pages, c, t, q, h, cfg);
    AdoptOrdered(c, tl, m, tr, h, cfg);
    AdoptFlat(c, tl, m, tr);
    AdoptIds(c, tl, m, tr);
    AdoptStored(pages', c, tl, m, tr, cfg);
    PlugLeaves(c.up, p);
    PlugLeaves(c, t);
    ContextSplit(c);
    Reassociate(FlatBefore(c.up), FlatAll(c.left), Flat(t), FlatAll(c.right), FlatAfter(c.up));
  }

  /** The page a split root grows under. */
  ghost function NewRoot(t: Tree, q: PageId, r: PageId): Tree
    requires Flat(RightHalf(t, q)) != []
  {
    InnerNode(r, [EMPTY_KEY, Flat(RightHalf(t, q))[0].key], [LeftHalf(t), RightHalf(t, q)])
  }

  lemma NewRootParts(t: Tree, q: PageId, r: PageId, h: nat, cfg: Config)
    requires cfg.internalMax >= 3 && Halved(t, LeftHalf(t), RightHalf(t, q), h, EMPTY_KEY, None, cfg)
    ensures var p := NewRoot(t, q, r);
            && Ordered(p, h + 1, EMPTY_KEY, None, cfg)
            && Flat(p) == Flat(t)
            && IdsAll(p.kids) == Ids(LeftHalf(t)) + Ids(RightHalf(t, q))
  {
    hide Flat, Ids, LeftHalf, RightHalf;
    var tl, tr, p := LeftHalf(t), RightHalf(t, q), NewRoot(t, q, r);
    PairOf(tl, tr);
    FlatInner(p);
    assert p.kids == [tl] + [tr];
  }

  lemma FlatInner(t: Tree)
    requires t.InnerNode?
    ensures Flat(t) == FlatAll(t.kids)
  {}

  lemma PairOf(tl: Tree, tr: Tree)
    ensures FlatAll([tl] + [tr]) == Flat(tl) + Flat(tr)
    ensures IdsAll([tl] + [tr]) == Ids(tl) + Ids(tr)
  {
    FlatAllAppend([tl], [tr]);
    LeavesAllOne(tl);
    LeavesAllOne(tr);
    IdsAppend([tl], [tr]);
    assert [tl][1..] == [] && [tr][1..] == [];
  }

  lemma PairStored(pages: Pages, tl: Tree, tr: Tree, cfg: Config)
    requires Stored(pages, tl, FirstLeaf(tr), cfg) && Stored(pages, tr, INVALID_PAGE_ID, cfg)
    ensures ListStored(pages, [tl] + [tr], INVALID_PAGE_ID, cfg)
  {
    hide Stored, FirstLeaf;
    ListStoredAppend(pages, [tl], [tr], INVALID_PAGE_ID, cfg);
    ListStoredOne(pages, tl, FirstLeaf(tr), cfg);
    ListStoredOne(pages, tr, INVALID_PAGE_ID, cfg);
  }

  lemma SplitRoot(pages: Pages, t: Tree, q: PageId, r: PageId, h: nat, cfg: Config)
    requires Splitting(pages, Top, t, q, h, cfg)
    requires r !in pages && r != q && r != INVALID_PAGE_ID
    ensures Flat(RightHalf(t, q)) != []
    ensures var pages', p := SplitPages(pages, t, q, INVALID_PAGE_ID, cfg), NewRoot(t, q, r);
            && InFlight(pages'[r := PageOf(p, INVALID_PAGE_ID, cfg)], Top, p, h + 1, cfg)
            && Flat(p) == Flat(t)
  {
    var pages', tl, tr := SplitPages(pages, t, q, INVALID_PAGE_ID, cfg), LeftHalf(t), RightHalf(t, q);
    HalvesOrdered(t, q, h, EMPTY_KEY, None, cfg);
    var p := NewRoot(t, q, r);
    NewRootParts(t, q, r, h, cfg);
    SplitStored(pages, Top, t, q, h, cfg);
    SplitKeepsFree(pages, t, q, h, cfg, r);
    hide Splitting, Halved, Flat, LeftHalf, RightHalf, SplitPages, Ordered, Stored, FirstLeaf, Owned, Ids, PageOf;
    assert p.kids == [tl] + [tr];
    PairStored(pages', tl, tr, cfg);
    var ids := IdsAll(p.kids);
    assert Ids(tl) + Ids(tr) + ContextIds(Top) == ids;
    var x := PageOf(p, INVALID_PAGE_ID, cfg);
    GrowOwned(pages', ids, r, x);
    ListFrame(pages', pages'[r := x], p.kids, INVALID_PAGE_ID, cfg);
    RootInFlight(pages'[r := x], p, h + 1, cfg);
  }

  lemma SplitKeepsFree(pages: Pages, t: Tree, q: PageId, h: nat, cfg: Config, r: PageId)
    requires Splitting(pages, Top, t, q, h, cfg) && r !in pages && r != q
    ensures r !in SplitPages(pages, t, q, INVALID_PAGE_ID, cfg)
  {
    hide OrderedContext, Ordered, KidsStored, ContextStored;
    assert t.id in Ids(t) + ContextIds(Top);
  }

  lemma RootInFlight(pages: Pages, p: Tree, h: nat, cfg: Config)
    requires p.InnerNode? && |p.kids| == 2 && Ordered(p, h, EMPTY_KEY, None, cfg) && cfg.internalMax >= 3
    requires ListStored(pages, p.kids, INVALID_PAGE_ID, cfg) && Owned(pages, IdsAll(p.kids) + multiset{p.id})
    ensures InFlight(pages, Top, p, h, cfg)
  {
    hide Ordered, Stored, Owned, IdsAll;
    assert Ids(p) + ContextIds(Top) == IdsAll(p.kids) + multiset{p.id};
  }

  /** Writing a page that is not overfull back completes the tree. */
  lemma Landed(pages: Pages, c: Context, t: Tree, h: nat, cfg: Config) returns (h': nat)
    requires InFlight(pages, c, t, h, cfg) && Size(t) <= MaxSize(t, cfg)
    ensures var pages', tree := pages[t.id := PageOf(t, NextId(c), cfg)], Plug(c, t);
            && WellFormed(tree, h', cfg)
            && Stored(pages', tree, INVALID_PAGE_ID, cfg)
            && Owned(pages', Ids(tree))
  {
    hide OrderedContext, Ordered, WellFormed, Plug, ContextStored, KidsStored, Owned, Same, PageOf, FirstLeaf, NextId;
    hide ContextIds;
    var pages' := pages[t.id := PageOf(t, NextId(c), cfg)];
    h' := PlugWellFormed(c, t, h, cfg);
    assert Ids(t) + ContextIds(c) == multiset{t.id} + KidIds(t) + ContextIds(c);
    RewriteOwned(pages, t.id, PageOf(t, NextId(c), cfg), KidIds(t), ContextIds(c));
    KidsFrame(pages, pages', t, NextId(c), cfg);
    ContextFrame(pages, pages', c, t.id, FirstLeaf(t), cfg);
    StoredPlug(pages', c, t, h, cfg);
  }

  // ---- what an insertion makes of a tree ------------------------------------------------------------

  /**
   What becomes of a tree whose page at the hole may be overfull: it is halved, its parent takes in the right half under
   that half's least key and may then be overfull itself, and over a halved root a new one is put.
   */
  ghost predicate ClimbsTo(c: Context, t: Tree, cfg: Config, after: Tree)
    decreases c
  {
    if Size(t) <= MaxSize(t, cfg) then after == Plug(c, t)
    else if c.Top? then exists q, r | Flat(RightHalf(t, q)) != [] :: after == NewRoot(t, q, r)
    else
      && |c.left| < |c.keys|
      && exists q | Flat(RightHalf(t, q)) != [] ::
           ClimbsTo(c.up, Adopt(c, LeftHalf(t), Flat(RightHalf(t, q))[0].key, RightHalf(t, q)), cfg, after)
  }
}
