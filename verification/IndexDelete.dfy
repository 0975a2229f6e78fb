/** Taking a pair out of an index and filling pages that came up short (storage/index.rs). */
module IndexDelete {
  import opened Prelude
  import opened KeyValues
  import opened IndexPage
  import opened IndexTree
  import opened IndexStore
  import opened IndexMerge
  import opened IndexSearch
  import opened IndexBorrow
  import opened IndexLend

  // ---- pairs without a key ------------------------------------------------------------------------

  ghost function Without(s: seq<KV<RecordId>>, key: Key): seq<KV<RecordId>> {
    if s == [] then [] else (if s[0].key == key then [] else [s[0]]) + Without(s[1..], key)
  }

  lemma {:induction false} WithoutAppend(a: seq<KV<RecordId>>, b: seq<KV<RecordId>>, key: Key)
    ensures Without(a + b, key) == Without(a, key) + Without(b, key)
  {
    if a == [] {
      assert a + b == b;
    } else {
      assert (a + b)[1..] == a[1..] + b;
      WithoutAppend(a[1..], b, key);
    }
  }

  lemma {:induction false} WithoutNone(s: seq<KV<RecordId>>, key: Key)
    requires forall i | 0 <= i < |s| :: s[i].key != key
    ensures Without(s, key) == s
  {
    if s != [] {
      WithoutNone(s[1..], key);
      assert s == [s[0]] + s[1..];
    }
  }

  /** From a sorted list at most one pair goes. */
  lemma {:induction false} WithoutOne(s: seq<KV<RecordId>>, key: Key, i: nat)
    requires Sorted(s) && i < |s| && s[i].key == key
    ensures Without(s, key) == s[..i] + s[i + 1..]
  {
    if i == 0 {
      WithoutNone(s[1..], key);
    } else {
      WithoutOne(s[1..], key, i - 1);
      assert s[..i] == [s[0]] + s[1..][..i - 1] && s[i + 1..] == s[1..][i..];
    }
  }

  /** What is left stays sorted and within bounds, and is shorter by at most one. */
  lemma {:induction false} WithoutKeeps(s: seq<KV<RecordId>>, key: Key, lo: Key, hi: Option<Key>)
    requires Sorted(s) && Within(s, lo, hi)
    ensures var r := Without(s, key); Sorted(r) && Within(r, lo, hi) && |s| <= |r| + 1 && |r| <= |s|
  {
    hide Without;
    if i :| 0 <= i < |s| && s[i].key == key {
      WithoutOne(s, key, i);
    } else {
      WithoutNone(s, key);
    }
  }

  /** A search of what is left finds every other key as before, and this one no more. */
  lemma {:induction false} WithoutFinds(s: seq<KV<RecordId>>, key: Key, k: Key)
    ensures FindIn(Without(s, key), k) == if k == key then None else FindIn(s, k)
  {
    if s != [] {
      WithoutFinds(s[1..], key, k);
      var first := if s[0].key == key then [] else [s[0]];
      FoundFirst(first, Without(s[1..], key), k);
      assert first != [] ==> first[1..] == [];
    }
  }

  lemma LeafWithout(kvs: seq<KV<RecordId>>, key: Key, left: seq<KV<RecordId>>)
    requires Sorted(kvs)
    requires (forall i | 0 <= i < |kvs| :: kvs[i].key != key) ==> left == kvs
    requires forall i | 0 <= i < |kvs| :: kvs[i].key == key ==> left == kvs[..i] + kvs[i + 1..]
    ensures left == Without(kvs, key)
  {
    if i :| 0 <= i < |kvs| && kvs[i].key == key {
      WithoutOne(kvs, key, i);
    } else {
      WithoutNone(kvs, key);
    }
  }

  // ---- a page that may have come up short -----------------------------------------------------------

  /** A stored tree in order but for the page at the hole, which may have one entry too few. */
  ghost predicate Shrunk(pages: Pages, c: Context, t: Tree, h: nat, cfg: Config) {
    && Loose(pages, c, t, h, cfg)
    && Size(t) <= MaxSize(t, cfg)
    && (if c.Top? then t.LeafNode? || 2 <= Size(t) else MaxSize(t, cfg) / 2 <= Size(t) + 1)
  }

  lemma LeafLeft(c: Context, t: Tree, cfg: Config, key: Key)
    requires t.LeafNode? && Ordered(t, 0, Lo(c), Hi(c), cfg) && FitsHole(c, t, cfg)
    ensures var t' := LeafNode(t.id, Without(t.kvs, key));
            && Ordered(t', 0, Lo(c), Hi(c), cfg) && Size(t) <= Size(t') + 1 && Size(t') <= MaxSize(t', cfg)
            && (c.Frame? ==> MaxSize(t', cfg) / 2 <= Size(t') + 1)
  {
    hide Lo, Hi, Without;
    WithoutKeeps(t.kvs, key, Lo(c), Hi(c));
  }

  /** The leaf is written back. */
  lemma LeafRewritten(pages: Pages, c: Context, t: Tree, t': Tree, cfg: Config)
    requires t.LeafNode? && t'.LeafNode? && t'.id == t.id && OrderedContext(c, 0, cfg)
    requires Stored(pages, t, NextId(c), cfg) && ContextStored(pages, c, t.id, FirstLeaf(t), cfg)
    requires Owned(pages, Ids(t) + ContextIds(c)) && Ordered(t', 0, Lo(c), Hi(c), cfg)
    ensures Loose(pages[t.id := PageOf(t', NextId(c), cfg)], c, t', 0, cfg)
  {
    var x := PageOf(t', NextId(c), cfg);
    assert Ids(t) == multiset{t.id} == Ids(t') && FirstLeaf(t) == t.id == FirstLeaf(t');
    assert Stored(pages[t.id := x], t', NextId(c), cfg);
    hide OrderedContext, ContextStored, Owned, ContextIds, Lo, Hi, NextId, Same, Ids, PageOf, Stored;
    assert multiset{t.id} + multiset{} + ContextIds(c) == Ids(t) + ContextIds(c);
    RewriteOwned(pages, t.id, x, multiset{}, ContextIds(c));
    ContextFrame(pages, pages[t.id := x], c, t.id, t.id, cfg);
  }

  lemma LeafShrinks(pages: Pages, c: Context, t: Tree, cfg: Config, key: Key)
    requires t.LeafNode? && OrderedContext(c, 0, cfg) && Ordered(t, 0, Lo(c), Hi(c), cfg) && FitsHole(c, t, cfg)
    requires Stored(pages, t, NextId(c), cfg) && ContextStored(pages, c, t.id, FirstLeaf(t), cfg)
    requires Owned(pages, Ids(t) + ContextIds(c)) && Lo(c) <= key && Below(key, Hi(c))
    ensures var t' := LeafNode(t.id, Without(t.kvs, key));
            && Shrunk(pages[t.id := PageOf(t', NextId(c), cfg)], c, t', 0, cfg)
            && Flat(Plug(c, t')) == Without(Flat(Plug(c, t)), key)
  {
    LeafLeft(c, t, cfg, key);
    PlugWithout(c, t, cfg, key);
    hide OrderedContext, ContextStored, Owned, ContextIds, Lo, Hi, NextId, Same, Ids, PageOf, Stored, Ordered, Loose;
    hide FitsHole, Flat, Plug, Without, FirstLeaf;
    LeafRewritten(pages, c, t, LeafNode(t.id, Without(t.kvs, key)), cfg);
  }

  lemma PlugWithout(c: Context, t: Tree, cfg: Config, key: Key)
    requires t.LeafNode? && OrderedContext(c, 0, cfg) && Lo(c) <= key && Below(key, Hi(c))
    ensures Flat(Plug(c, LeafNode(t.id, Without(t.kvs, key)))) == Without(Flat(Plug(c, t)), key)
  {
    var t' := LeafNode(t.id, Without(t.kvs, key));
    ContextBounds(c, 0, cfg);
    hide OrderedContext, Lo, Hi, Flat, Plug, FlatBefore, FlatAfter, Without;
    PlugLeaves(c, t);
    PlugLeaves(c, t');
    FlatLeaf(t);
    FlatLeaf(t');
    WithoutAppend(FlatBefore(c) + t.kvs, FlatAfter(c), key);
    WithoutAppend(FlatBefore(c), t.kvs, key);
    WithoutNone(FlatBefore(c), key);
    WithoutNone(FlatAfter(c), key);
  }

  /** The page at the hole with its left or its right sibling. */
  ghost function FamilyOf(c: Context, t: Tree, withLeft: bool): Family
    requires c.Frame? && (if withLeft then c.left != [] else c.right != [])
  {
    if withLeft then
      var n := |c.left| - 1;
      Family(c.up, c.id, c.keys, c.left[..n], c.left[n], t, c.right)
    else
      Family(c.up, c.id, c.keys, c.left, t, c.right[0], c.right[1..])
  }

  lemma FamilyFits(c: Context, t: Tree, h: nat, cfg: Config, withLeft: bool)
    requires c.Frame? && (if withLeft then c.left != [] else c.right != [])
    requires OrderedContext(c, h, cfg) && Ordered(t, h, Lo(c), Hi(c), cfg)
    ensures var f := FamilyOf(c, t, withLeft);
            && Parent(f) == InnerNode(c.id, c.keys, c.left + [t] + c.right)
            && FamilyOrdered(f, h, cfg) && FitsHole(f.up, Parent(f), cfg)
            && Fits(if withLeft then f.tl else f.tr, cfg)
  {
    var f, n := FamilyOf(c, t, withLeft), |c.left|;
    assert Parent(f).kids == c.left + [t] + c.right;
    assert FitsHole(f.up, Parent(f), cfg);
    HoleBounds(c, h, cfg);
    if withLeft {
      FamilyWithLeft(c, t, h, cfg);
    } else {
      FamilyWithRight(c, t, h, cfg);
    }
  }

  lemma FamilyWithLeft(c: Context, t: Tree, h: nat, cfg: Config)
    requires c.Frame? && c.left != [] && OrderedContext(c, h, cfg) && Ordered(t, h, Lo(c), Hi(c), cfg)
    ensures var f := FamilyOf(c, t, true); FamilyOrdered(f, h, cfg) && Fits(f.tl, cfg)
  {
    hide Ordered, Fits;
    var f, n := FamilyOf(c, t, true), |c.left|;
    assert forall i | 0 <= i < |f.right| :: c.right[i] == f.right[i] && n + 1 + i == |f.left| + 2 + i;
  }

  lemma FamilyWithRight(c: Context, t: Tree, h: nat, cfg: Config)
    requires c.Frame? && c.right != [] && OrderedContext(c, h, cfg) && Ordered(t, h, Lo(c), Hi(c), cfg)
    ensures var f := FamilyOf(c, t, false); FamilyOrdered(f, h, cfg) && Fits(f.tr, cfg)
  {
    hide Ordered, Fits;
    var f, n := FamilyOf(c, t, false), |c.left|;
    assert forall i | 0 <= i < |f.right| :: f.right[i] == c.right[i + 1] && n + 1 + (i + 1) == |f.left| + 2 + i;
  }

  lemma FamilyFrom(pages: Pages, c: Context, t: Tree, h: nat, cfg: Config, withLeft: bool)
    requires c.Frame? && (if withLeft then c.left != [] else c.right != []) && Loose(pages, c, t, h, cfg)
    ensures var f := FamilyOf(c, t, withLeft);
            && FamilyOrdered(f, h, cfg) && FamilyStored(pages, f, cfg) && FitsHole(f.up, Parent(f), cfg)
            && Fits(if withLeft then f.tl else f.tr, cfg) && Plug(f.up, Parent(f)) == Plug(c, t)
  {
    FamilyFits(c, t, h, cfg, withLeft);
    HoleBounds(c, h, cfg);
    hide OrderedContext, Ordered, Stored, ContextStored, Owned, FamilyOrdered, Fits, FitsHole, Ids, ContextIds;
    StoredUp(pages, c, t, cfg);
    IdsUp(c, t);
  }

  lemma OnlyOnce(pages: Pages, c: Context, t: Tree, id: PageId)
    requires c.Frame? && Owned(pages, Ids(t) + ContextIds(c)) && id in IdsAll(c.left)
    ensures id != t.id
  {
    hide IdsAll;
    var ids := Ids(t) + ContextIds(c);
    assert ids[t.id] <= 1 && t.id in Ids(t);
  }

  /** The page at the hole is none of those above it. */
  lemma OnceOnly(pages: Pages, c: Context, t: Tree)
    requires c.Frame? && Owned(pages, Ids(t) + ContextIds(c))
    ensures t.id !in ContextIds(c)
  {
    var ids := Ids(t) + ContextIds(c);
    assert ids[t.id] <= 1 && t.id in Ids(t);
  }

  /** Which entry of the parent page points to the page at the hole, and what stands next to it. */
  lemma SiblingIds(pages: Pages, c: Context, t: Tree, h: nat, cfg: Config)
    requires c.Frame? && Loose(pages, c, t, h, cfg)
    ensures c.id in pages && pages[c.id] == Internal(FrameEntries(c, t.id), cfg.internalMax)
    ensures var e, n := FrameEntries(c, t.id), |c.left|;
            && n < |e| == n + 1 + |c.right| && e[n].val == t.id && (forall j | 0 <= j < n :: e[j].val != t.id)
            && (n > 0 ==> e[n - 1].val == c.left[n - 1].id) && (c.right != [] ==> e[n + 1].val == c.right[0].id)
  {
    hide OrderedContext, Ordered, Stored, Owned, Ids, IdsAll, ContextIds;
    var n := |c.left|;
    forall j | 0 <= j < n ensures c.left[j].id != t.id {
      IdOf(c.left, j);
      OnlyOnce(pages, c, t, c.left[j].id);
    }
  }

  // ---- how a deletion may end -----------------------------------------------------------------------

  /** A pair or a subtree moved within a family of height `h`. */
  datatype Loan = Loan(f: Family, h: nat, fromRight: bool)

  ghost predicate LoanShape(l: Loan) {
    if l.f.tl.LeafNode? then
      && l.f.tr.LeafNode? && l.f.tr.kvs != [] && |l.f.left| + 1 < |l.f.keys|
      && (if l.fromRight then |l.f.tr.kvs| >= 2 else |l.f.tl.kvs| >= 2)
    else LendShape(l.f, l.fromRight)
  }

  /** The tree afterwards. */
  ghost function Outcome(l: Loan): Tree
    requires LoanShape(l)
  {
    Plug(l.f.up, if l.f.tl.LeafNode? then BorrowedParent(l.f, l.fromRight) else LentParent(l.f, l.fromRight))
  }

  /** The parent's separator was the right page's first key; a subtree also has to come from the right. */
  ghost predicate Exact(l: Loan)
    requires LoanShape(l)
  {
    if l.f.tl.LeafNode? then Sep(l.f) == l.f.tr.kvs[0].key else Harmless(l.f, l.fromRight)
  }

  /** The tree a deletion leaves, and the loan it ended with, if it did. */
  datatype Ending = Ending(tree: Tree, loan: Option<Loan>)

  /** More entries than half a page. */
  ghost predicate Spares(t: Tree, cfg: Config) { Size(t) > MaxSize(t, cfg) / 2 }

  ghost function Lent(l: Loan): Ending { Ending(if LoanShape(l) then Outcome(l) else l.f.tl, Some(l)) }

  /**
   * What becomes of a tree whose page at the hole may be short: a loan from the left sibling or else from the right one
   * ends it, a merge goes on with the parent, unless the merged page is the only one left below the root.
   */
  ghost function Mended(c: Context, t: Tree, h: nat, cfg: Config): Ending
    decreases c
  {
    if c.Top? || MaxSize(t, cfg) / 2 <= Size(t) || (c.left == [] && c.right == []) then Ending(Plug(c, t), None)
    else if c.left != [] && Spares(c.left[|c.left| - 1], cfg) then Lent(Loan(FamilyOf(c, t, true), h, false))
    else if c.right != [] && Spares(c.right[0], cfg) then Lent(Loan(FamilyOf(c, t, false), h, true))
    else
      var f := FamilyOf(c, t, c.left != []);
      if f.up.Top? && f.left == [] && f.right == [] then Ending(Merged(f.tl, f.tr), None)
      else if |f.left| + 1 < |f.keys| then Mended(f.up, MergedParent(f), h + 1, cfg)
      else Ending(Plug(c, t), None)
  }

  /** What a deletion leaves: the leaf a descent ends at loses the key, and pages that came up short are mended. */
  ghost predicate Deleted(before: Tree, key: Key, cfg: Config, after: Ending) {
    && Shaped(before)
    && var (c, t) := Descent(Top, before, key);
       t.LeafNode? && after == Mended(c, LeafNode(t.id, Without(t.kvs, key)), 0, cfg)
  }

  /** The page at the hole is filled well enough, or it is the root. */
  lemma ShrunkFits(pages: Pages, c: Context, t: Tree, h: nat, cfg: Config)
    requires Shrunk(pages, c, t, h, cfg) && cfg.internalMax >= 4 && cfg.leafMax >= 4
    requires c.Top? || MaxSize(t, cfg) / 2 <= Size(t)
    ensures FitsHole(c, t, cfg) || (c.Top? && t.LeafNode? && t.kvs == [])
  {
    hide Loose;
  }

  /** The root's only leaf has lost its last pair. */
  lemma Emptied(pages: Pages, t: Tree, h: nat, cfg: Config)
    requires Shrunk(pages, Top, t, h, cfg) && t.LeafNode? && t.kvs == []
    ensures Shaped(t) && Placed(pages, t, cfg) && AllFound(t) && Flat(t) == []
  {
    FlatLeaf(t);
    StoredPlaced(pages, t, INVALID_PAGE_ID, cfg);
  }

  lemma WholeFound(t: Tree, h: nat, cfg: Config)
    requires WellFormed(t, h, cfg)
    ensures AllFound(t)
  {
    OrderedApt(t, h, EMPTY_KEY, None, cfg);
  }

  /** After two pages were merged the parent may be the page that is short, unless it was the root. */
  lemma MergedShrinks(pages: Pages, f: Family, h: nat, cfg: Config)
    requires |f.left| + 1 < |f.keys| && Loose(pages, f.up, MergedParent(f), h + 1, cfg)
    requires |f.keys| == |f.left| + 2 + |f.right| && FitsHole(f.up, Parent(f), cfg)
    requires f.up.Top? ==> f.left != [] || f.right != []
    ensures Shrunk(pages, f.up, MergedParent(f), h + 1, cfg)
  {
    hide Loose, Merged;
  }

  lemma WholeShrunk(pages: Pages, t: Tree, h: nat, cfg: Config)
    requires WellFormed(t, h, cfg) && Stored(pages, t, INVALID_PAGE_ID, cfg) && Owned(pages, Ids(t))
    ensures Shrunk(pages, Top, t, h, cfg) && Plug(Top, t) == t
  {
    IdsAtTop(t);
    hide Ordered, Stored, Owned, Ids;
  }

  /** The leaf a descent ends at, without its pair, and what is around it. */
  ghost predicate Taken(before: Tree, key: Key, c: Context, t: Tree) {
    && Shaped(before)
    && var (c0, t0) := Descent(Top, before, key);
       t0.LeafNode? && c == c0 && t == LeafNode(t0.id, Without(t0.kvs, key))
  }

  // ---- which sibling is asked, and which one is merged with -----------------------------------------

  /** Two pages made one: the short page and its left (`withLeft`) or right sibling. */
  datatype Merging = Merging(f: Family, withLeft: bool)

  ghost function ShortPage(m: Merging): Tree { if m.withLeft then m.f.tr else m.f.tl }

  ghost function Borrows(l: Loan): Tree { if l.fromRight then l.f.tl else l.f.tr }

  ghost function Lends(l: Loan): Tree { if l.fromRight then l.f.tr else l.f.tl }

  /** A page that holds less than half of what it may, and one that holds no more than that. */
  ghost predicate IsShort(t: Tree, cfg: Config) { Size(t) < MaxSize(t, cfg) / 2 }

  ghost predicate HasNoneToSpare(t: Tree, cfg: Config) { Size(t) <= MaxSize(t, cfg) / 2 }

  /** A short page borrows from a sibling that can spare an entry, from the right one only if the left one cannot. */
  ghost predicate LoanDue(l: Loan, cfg: Config) {
    && IsShort(Borrows(l), cfg) && !HasNoneToSpare(Lends(l), cfg)
    && (l.fromRight && l.f.left != [] ==> HasNoneToSpare(l.f.left[|l.f.left| - 1], cfg))
  }

  /** It is merged only if no sibling can spare an entry, and with the left one if there is one. */
  ghost predicate MergeDue(m: Merging, cfg: Config) {
    && IsShort(ShortPage(m), cfg)
    && if m.withLeft then HasNoneToSpare(m.f.tl, cfg) && (m.f.right != [] ==> HasNoneToSpare(m.f.right[0], cfg))
       else m.f.left == [] && HasNoneToSpare(m.f.tr, cfg)
  }

  /** The page that may be short then: the parent, or the merged page where nothing else was left below the root. */
  ghost function NextShort(f: Family): Tree
    requires |f.left| + 1 < |f.keys|
  {
    if f.up.Top? && f.left == [] && f.right == [] then Merged(f.tl, f.tr) else MergedParent(f)
  }

  /** Merges one after the other, each due on the tree the one before left, lead from one tree to another. */
  ghost predicate Merges(before: Tree, short: Tree, ms: seq<Merging>, cfg: Config, after: Tree, last: Tree)
    decreases |ms|
  {
    if ms == [] then before == after && short == last
    else
      var f := ms[0].f;
      && |f.left| + 1 < |f.keys| && before == Plug(f.up, Parent(f)) && ShortPage(ms[0]) == short
      && MergeDue(ms[0], cfg)
      && Merges(Plug(f.up, NextShort(f)), NextShort(f), ms[1..], cfg, after, last)
  }

  /** Merges that were due, and then a loan that was due, or a page that is not short or is the root. */
  ghost predicate Repaired(before: Tree, short: Tree, ms: seq<Merging>, cfg: Config, end: Ending) {
    exists after, last :: Merges(before, short, ms, cfg, after, last) && EndsAt(after, last, cfg, end)
  }

  ghost predicate EndsAt(after: Tree, last: Tree, cfg: Config, end: Ending) {
    match end.loan
    case None => end.tree == after && (after == last || !IsShort(last, cfg))
    case Some(l) => after == Plug(l.f.up, Parent(l.f)) && Borrows(l) == last && LoanDue(l, cfg)
  }

  lemma FamilyShape(c: Context, t: Tree, h: nat, cfg: Config, withLeft: bool)
    requires c.Frame? && OrderedContext(c, h, cfg) && (if withLeft then c.left != [] else c.right != [])
    ensures var f := FamilyOf(c, t, withLeft);
            && |f.left| + 1 < |f.keys| && Plug(f.up, Parent(f)) == Plug(c, t) && OrderedContext(f.up, h + 1, cfg)
            && (if withLeft then f.tr else f.tl) == t && (f.left == [] && f.right == [] ==> |c.left| + |c.right| == 1)
  {
    hide Ordered, Fits;
    var f := FamilyOf(c, t, withLeft);
    assert Parent(f).kids == c.left + [t] + c.right;
  }

  /** A loan from a sibling that can spare an entry is due, from the right one if the left one cannot. */
  lemma LoanIsDue(c: Context, t: Tree, h: nat, cfg: Config, fromRight: bool)
    requires c.Frame? && OrderedContext(c, h, cfg) && IsShort(t, cfg)
    requires if fromRight then c.right != [] && Spares(c.right[0], cfg)
             else c.left != [] && Spares(c.left[|c.left| - 1], cfg)
    requires fromRight && c.left != [] ==> !Spares(c.left[|c.left| - 1], cfg)
    ensures var l := Loan(FamilyOf(c, t, !fromRight), h, fromRight);
            LoanDue(l, cfg) && Borrows(l) == t && Plug(c, t) == Plug(l.f.up, Parent(l.f))
  {
    FamilyShape(c, t, h, cfg, !fromRight);
    hide Plug, Parent, OrderedContext;
  }

  lemma HasSibling(c: Context, h: nat, cfg: Config)
    requires c.Frame? && OrderedContext(c, h, cfg)
    ensures c.left != [] || c.right != []
  {
  }

  /** No merge any more. */
  lemma EndsNow(before: Tree, short: Tree, cfg: Config, end: Ending)
    requires EndsAt(before, short, cfg, end)
    ensures Repaired(before, short, [], cfg, end)
  {
    assert Merges(before, short, [], cfg, before, short);
  }

  lemma MoreMerges(before: Tree, short: Tree, m: Merging, more: seq<Merging>, cfg: Config, end: Ending)
    requires |m.f.left| + 1 < |m.f.keys| && before == Plug(m.f.up, Parent(m.f)) && ShortPage(m) == short
    requires MergeDue(m, cfg) && Repaired(Plug(m.f.up, NextShort(m.f)), NextShort(m.f), more, cfg, end)
    ensures Repaired(before, short, [m] + more, cfg, end)
  {
    hide MergeDue, NextShort, EndsAt, Plug, Parent;
    var ms := [m] + more;
    assert ms[0] == m && ms[1..] == more;
    var after, last :|
      Merges(Plug(m.f.up, NextShort(m.f)), NextShort(m.f), more, cfg, after, last) && EndsAt(after, last, cfg, end);
    assert Merges(before, short, ms, cfg, after, last);
  }

  lemma LoanRepairs(c: Context, t: Tree, h: nat, cfg: Config)
    requires OrderedContext(c, h, cfg) && c.Frame? && IsShort(t, cfg)
    requires var last := |c.left| - 1;
             || (c.left != [] && Spares(c.left[last], cfg))
             || (c.right != [] && Spares(c.right[0], cfg))
    ensures EndsAt(Plug(c, t), t, cfg, Mended(c, t, h, cfg))
  {
    if c.left != [] && Spares(c.left[|c.left| - 1], cfg) {
      FamilyShape(c, t, h, cfg, true);
    } else {
      FamilyShape(c, t, h, cfg, false);
    }
    hide Plug, OrderedContext, Outcome, LoanShape, Parent;
  }

  /** Neither sibling can spare an entry. */
  lemma MergeRepairs(c: Context, t: Tree, h: nat, cfg: Config)
    requires OrderedContext(c, h, cfg) && c.Frame? && IsShort(t, cfg)
    requires c.left != [] ==> !Spares(c.left[|c.left| - 1], cfg)
    requires c.right != [] ==> !Spares(c.right[0], cfg)
    ensures c.left != [] || c.right != []
    ensures var m := Merging(FamilyOf(c, t, c.left != []), c.left != []);
            && |m.f.left| + 1 < |m.f.keys| && Plug(c, t) == Plug(m.f.up, Parent(m.f)) && ShortPage(m) == t
            && MergeDue(m, cfg) && m.f.up == c.up && OrderedContext(m.f.up, h + 1, cfg)
            && Mended(c, t, h, cfg) ==
               if m.f.up.Top? && m.f.left == [] && m.f.right == [] then Ending(NextShort(m.f), None)
               else Mended(m.f.up, NextShort(m.f), h + 1, cfg)
  {
    HasSibling(c, h, cfg);
    FamilyShape(c, t, h, cfg, c.left != []);
    hide Plug, OrderedContext, Parent;
  }

  /** So a tree is mended in that way. */
  lemma {:induction false} MendedRepairs(c: Context, t: Tree, h: nat, cfg: Config) returns (ms: seq<Merging>)
    requires OrderedContext(c, h, cfg)
    ensures Repaired(Plug(c, t), t, ms, cfg, Mended(c, t, h, cfg))
    decreases c
  {
    hide OrderedContext, Repaired, EndsAt, NextShort, MergeDue, Plug, Parent, Merges;
    ms := [];
    if c.Top? || !IsShort(t, cfg) {
      Unchanged(c, t, h, cfg);
      EndsNow(Plug(c, t), t, cfg, Mended(c, t, h, cfg));
    } else if (c.left != [] && Spares(c.left[|c.left| - 1], cfg)) || (c.right != [] && Spares(c.right[0], cfg)) {
      LoanRepairs(c, t, h, cfg);
      EndsNow(Plug(c, t), t, cfg, Mended(c, t, h, cfg));
    } else {
      MergeRepairs(c, t, h, cfg);
      var m := Merging(FamilyOf(c, t, c.left != []), c.left != []);
      var next, end := NextShort(m.f), Mended(c, t, h, cfg);
      hide Mended;
      if m.f.up.Top? && m.f.left == [] && m.f.right == [] {
        TopEnds(next, cfg);
        EndsNow(Plug(Top, next), next, cfg, end);
      } else {
        ms := MendedRepairs(c.up, next, h + 1, cfg);
      }
      MoreMerges(Plug(c, t), t, m, ms, cfg, end);
      ms := [m] + ms;
    }
  }

  lemma Unchanged(c: Context, t: Tree, h: nat, cfg: Config)
    requires c.Top? || !IsShort(t, cfg)
    ensures EndsAt(Plug(c, t), t, cfg, Mended(c, t, h, cfg))
  {
  }

  lemma TopEnds(t: Tree, cfg: Config)
    ensures EndsAt(Plug(Top, t), t, cfg, Ending(t, None))
  {
  }

  lemma {:induction false} MergesDue(before: Tree, short: Tree, ms: seq<Merging>, cfg: Config, after: Tree, last: Tree)
    requires Merges(before, short, ms, cfg, after, last)
    ensures forall i | 0 <= i < |ms| :: MergeDue(ms[i], cfg)
    decreases |ms|
  {
    hide MergeDue, Plug, NextShort;
    if ms != [] {
      MergesDue(Plug(ms[0].f.up, NextShort(ms[0].f)), NextShort(ms[0].f), ms[1..], cfg, after, last);
      assert forall i | 0 < i < |ms| :: ms[i] == ms[1..][i - 1];
    }
  }

  lemma RepairsDue(before: Tree, short: Tree, ms: seq<Merging>, cfg: Config, end: Ending)
    requires Repaired(before, short, ms, cfg, end)
    ensures end.loan.Some? ==> LoanDue(end.loan.value, cfg)
    ensures forall i | 0 <= i < |ms| :: MergeDue(ms[i], cfg)
  {
    hide MergeDue, LoanDue, Merges;
    var after, last :| Merges(before, short, ms, cfg, after, last) && EndsAt(after, last, cfg, end);
    MergesDue(before, short, ms, cfg, after, last);
  }

  /** The leaf a descent ends at loses the key, and then the tree is repaired. */
  ghost predicate DeletedBy(before: Tree, key: Key, ms: seq<Merging>, cfg: Config, end: Ending) {
    exists c, t :: Taken(before, key, c, t) && Repaired(Plug(c, t), t, ms, cfg, end)
  }
}
