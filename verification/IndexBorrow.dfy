/** Moving one subtree between two sibling inner pages (storage/index.rs), and when every search stays right. */
module IndexBorrow {
  import opened Prelude
  import opened KeyValues
  import opened IndexPage
  import opened IndexTree
  import opened IndexStore
  import opened IndexMerge
  import opened IndexSearch

  // ---- searches that are right ------------------------------------------------------------------

  /** A search for any key between the bounds finds what the subtree stores under it, and only that. */
  ghost predicate Finds(t: Tree, lo: Key, hi: Option<Key>) {
    && Shaped(t)
    && forall key: Key | lo <= key && Below(key, hi) :: Search(t, key) == FindIn(Flat(t), key)
  }

  ghost predicate Apt(t: Tree, lo: Key, hi: Option<Key>) {
    Finds(t, lo, hi) && Sorted(Flat(t)) && Within(Flat(t), lo, hi)
  }

  /** Every search of a whole tree is right. */
  ghost predicate AllFound(t: Tree) { Finds(t, EMPTY_KEY, None) }

  lemma {:induction false} FoundStored(s: seq<KV<RecordId>>, key: Key)
    ensures FindIn(s, key).Some? ==> KV(key, FindIn(s, key).value) in s
    ensures FindIn(s, key).None? ==> forall x | x in s :: x.key != key
  {
    if s != [] {
      FoundStored(s[1..], key);
      assert s == [s[0]] + s[1..];
    }
  }

  lemma {:induction false} FoundFirst(a: seq<KV<RecordId>>, b: seq<KV<RecordId>>, key: Key)
    ensures FindIn(a + b, key) == if FindIn(a, key).Some? then FindIn(a, key) else FindIn(b, key)
  {
    if a == [] {
      assert a + b == b;
    } else {
      assert (a + b)[1..] == a[1..] + b;
      FoundFirst(a[1..], b, key);
    }
  }

  /** Pairs with other keys do not matter. */
  lemma FoundBetween(a: seq<KV<RecordId>>, m: seq<KV<RecordId>>, b: seq<KV<RecordId>>, key: Key)
    requires (forall x | x in a :: x.key != key) && (forall x | x in b :: x.key != key)
    ensures FindIn(a + m + b, key) == FindIn(m, key)
  {
    FoundFirst(a + m, b, key);
    FoundFirst(a, m, key);
    FoundStored(a, key);
    FoundStored(b, key);
  }

  lemma {:induction false} ListMember(ts: seq<Tree>, x: KV<RecordId>)
    requires x in FlatAll(ts)
    ensures exists j :: 0 <= j < |ts| && x in Flat(ts[j])
  {
    if ts == [] {
      NoKids();
    } else {
      assert ts == [ts[0]] + ts[1..];
      FlatAllAppend([ts[0]], ts[1..]);
      LeavesAllOne(ts[0]);
      if x !in Flat(ts[0]) {
        ListMember(ts[1..], x);
        var j :| 0 <= j < |ts[1..]| && x in Flat(ts[1..][j]);
        assert ts[j + 1] == ts[1..][j];
      }
    }
  }

  /** What a search yields is stored. */
  lemma {:induction false} SearchStored(t: Tree, key: Key)
    requires Shaped(t)
    ensures Search(t, key).Some? ==> KV(key, Search(t, key).value) in Flat(t)
    decreases t
  {
    match t
    case LeafNode(_, kvs) =>
      FlatLeaf(t);
      FoundStored(kvs, key);
    case InnerNode(_, keys, kids) =>
      var r := Route(keys, key);
      SearchStored(kids[r], key);
      FlatInner(t);
      Around(kids[..r], kids[r], kids[r + 1..]);
      assert kids[..r] + [kids[r]] + kids[r + 1..] == kids;
  }

  lemma {:induction false} RouteWithin(keys: seq<Key>, key: Key, lo: Key, hi: Option<Key>)
    requires KeysOk(keys, lo, hi) && lo <= key && Below(key, hi)
    ensures var r := Route(keys, key); KidLo(keys, r, lo) <= key && Below(key, KidHi(keys, r, hi))
  {
    RouteEnds(keys, key);
  }

  lemma {:induction false} RouteEnds(keys: seq<Key>, key: Key)
    requires keys != []
    ensures var r := Route(keys, key); (r >= 1 ==> keys[r] <= key) && forall j | r < j < |keys| :: key < keys[j]
  {
    var n := |keys| - 1;
    if n > 0 && key < keys[n] {
      RouteEnds(keys[..n], key);
    }
  }

  ghost predicate AptKids(t: Tree, lo: Key, hi: Option<Key>) {
    && t.InnerNode? && 2 <= |t.keys| == |t.kids| && KeysOk(t.keys, lo, hi)
    && forall i | 0 <= i < |t.kids| :: Apt(t.kids[i], KidLo(t.keys, i, lo), KidHi(t.keys, i, hi))
  }

  lemma AptKid(t: Tree, lo: Key, hi: Option<Key>, i: nat)
    requires AptKids(t, lo, hi) && i < |t.kids|
    ensures i < |t.keys| && KeysOk(t.keys, lo, hi) && Apt(t.kids[i], KidLo(t.keys, i, lo), KidHi(t.keys, i, hi))
    ensures Sorted(Flat(t.kids[i])) && Within(Flat(t.kids[i]), KidLo(t.keys, i, lo), KidHi(t.keys, i, hi))
  {
  }

  lemma {:induction false} AptPrefix(t: Tree, lo: Key, hi: Option<Key>, n: nat)
    requires AptKids(t, lo, hi) && n <= |t.kids|
    ensures n <= |t.keys| && Sorted(FlatAll(t.kids[..n])) && (n == 0 ==> FlatAll(t.kids[..n]) == [])
    ensures Within(FlatAll(t.kids[..n]), lo, if n == 0 then hi else KidHi(t.keys, n - 1, hi))
  {
    if n == 0 {
      NoKids();
    } else {
      hide *;
      AptPrefix(t, lo, hi, n - 1);
      AptKid(t, lo, hi, n - 1);
      var before, kid := t.kids[..n - 1], t.kids[n - 1];
      assert t.kids[..n] == before + [kid];
      FlatAllAppend(before, [kid]);
      LeavesAllOne(kid);
      KidBehind(FlatAll(before), Flat(kid), t.keys, n - 1, lo, hi);
    }
  }

  /** Other subtrees than the one a search follows do not hold its key. */
  lemma AsideKeys(t: Tree, lo: Key, hi: Option<Key>, key: Key, i: nat, x: KV<RecordId>)
    requires AptKids(t, lo, hi) && lo <= key && Below(key, hi) && i < |t.kids| && i != Route(t.keys, key)
    requires x in Flat(t.kids[i])
    ensures x.key != key
  {
    var keys, r := t.keys, Route(t.keys, key);
    RouteWithin(keys, key, lo, hi);
    assert Apt(t.kids[i], KidLo(keys, i, lo), KidHi(keys, i, hi));
    hide Finds, Flat, Sorted, Route;
    if i < r {
      assert KidHi(keys, i, hi) == Some(keys[i + 1]) && keys[i + 1] <= keys[r];
    } else {
      assert KidHi(keys, r, hi) == Some(keys[r + 1]) && keys[r + 1] <= keys[i];
    }
  }

  lemma AsideAll(t: Tree, lo: Key, hi: Option<Key>, key: Key, x: KV<RecordId>)
    requires AptKids(t, lo, hi) && lo <= key && Below(key, hi)
    requires var r := Route(t.keys, key); x in FlatAll(t.kids[..r]) || x in FlatAll(t.kids[r + 1..])
    ensures x.key != key
  {
    hide Apt, Flat, FlatAll, Route, KeysOk;
    var r := Route(t.keys, key);
    if x in FlatAll(t.kids[..r]) {
      ListMember(t.kids[..r], x);
      var j :| 0 <= j < r && x in Flat(t.kids[..r][j]);
      AsideKeys(t, lo, hi, key, j, x);
    } else {
      ListMember(t.kids[r + 1..], x);
      var j :| 0 <= j < |t.kids[r + 1..]| && x in Flat(t.kids[r + 1..][j]);
      AsideKeys(t, lo, hi, key, r + 1 + j, x);
    }
  }

  lemma KidSearch(t: Tree, lo: Key, hi: Option<Key>, key: Key)
    requires AptKids(t, lo, hi) && Shaped(t) && lo <= key && Below(key, hi)
    ensures var r := Route(t.keys, key); Search(t, key) == FindIn(Flat(t.kids[r]), key)
  {
    var r := Route(t.keys, key);
    RouteWithin(t.keys, key, lo, hi);
    assert Apt(t.kids[r], KidLo(t.keys, r, lo), KidHi(t.keys, r, hi));
  }

  lemma AptSearch(t: Tree, lo: Key, hi: Option<Key>, key: Key)
    requires AptKids(t, lo, hi) && Shaped(t) && lo <= key && Below(key, hi)
    ensures Search(t, key) == FindIn(Flat(t), key)
  {
    hide Apt, Flat, FlatAll, Search, Shaped, FindIn, Route, KeysOk;
    var kids, r := t.kids, Route(t.keys, key);
    KidSearch(t, lo, hi, key);
    FlatInner(t);
    assert kids[..r] + [kids[r]] + kids[r + 1..] == kids;
    Around(kids[..r], kids[r], kids[r + 1..]);
    forall x | x in FlatAll(kids[..r]) || x in FlatAll(kids[r + 1..]) ensures x.key != key {
      AsideAll(t, lo, hi, key, x);
    }
    FoundBetween(FlatAll(kids[..r]), Flat(kids[r]), FlatAll(kids[r + 1..]), key);
  }

  /** Where separators bound subtrees whose searches are right, so are those of the page above. */
  lemma NodeApt(t: Tree, lo: Key, hi: Option<Key>)
    requires AptKids(t, lo, hi)
    ensures Apt(t, lo, hi)
  {
    forall i | 0 <= i < |t.kids| ensures Shaped(t.kids[i]) {
      assert Apt(t.kids[i], KidLo(t.keys, i, lo), KidHi(t.keys, i, hi));
    }
    NodeShaped(t);
    hide Apt, Flat, FlatAll, Search, Shaped, FindIn;
    AptPrefix(t, lo, hi, |t.kids|);
    assert t.kids[..|t.kids|] == t.kids;
    FlatInner(t);
    forall key: Key | lo <= key && Below(key, hi) ensures Search(t, key) == FindIn(Flat(t), key) {
      AptSearch(t, lo, hi, key);
    }
    AptIs(t, lo, hi);
  }

  lemma AptIs(t: Tree, lo: Key, hi: Option<Key>)
    requires Shaped(t) && Sorted(Flat(t)) && Within(Flat(t), lo, hi)
    requires forall key: Key | lo <= key && Below(key, hi) :: Search(t, key) == FindIn(Flat(t), key)
    ensures Apt(t, lo, hi)
  {
  }

  /** In an ordered tree every search is right. */
  lemma {:induction false} OrderedApt(t: Tree, h: nat, lo: Key, hi: Option<Key>, cfg: Config)
    requires Ordered(t, h, lo, hi, cfg) && Least(t) <= Size(t)
    ensures Apt(t, lo, hi)
    decreases t
  {
    if t.LeafNode? {
      FlatLeaf(t);
    } else {
      forall i | 0 <= i < |t.kids| ensures Apt(t.kids[i], KidLo(t.keys, i, lo), KidHi(t.keys, i, hi)) {
        KidOrdered(t, h, lo, hi, cfg, i);
        OrderedApt(t.kids[i], h - 1, KidLo(t.keys, i, lo), KidHi(t.keys, i, hi), cfg);
      }
      NodeApt(t, lo, hi);
    }
  }

  /** And so is every search of the whole tree once those of the subtree at a hole are. */
  lemma {:induction false} PlugApt(c: Context, t: Tree, h: nat, cfg: Config)
    requires OrderedContext(c, h, cfg) && Apt(t, Lo(c), Hi(c))
    ensures Apt(Plug(c, t), EMPTY_KEY, None)
    decreases c
  {
    if c.Frame? {
      var p := InnerNode(c.id, c.keys, c.left + [t] + c.right);
      forall i | 0 <= i < |p.kids| ensures Apt(p.kids[i], KidLo(p.keys, i, Lo(c.up)), KidHi(p.keys, i, Hi(c.up))) {
        FrameKid(c, t, h, cfg, i);
      }
      NodeApt(p, Lo(c.up), Hi(c.up));
      PlugApt(c.up, p, h + 1, cfg);
    }
  }

  lemma FrameKid(c: Context, t: Tree, h: nat, cfg: Config, i: nat)
    requires c.Frame? && OrderedContext(c, h, cfg) && Apt(t, Lo(c), Hi(c)) && i < |c.left| + 1 + |c.right|
    ensures Apt((c.left + [t] + c.right)[i], KidLo(c.keys, i, Lo(c.up)), KidHi(c.keys, i, Hi(c.up)))
  {
    hide Apt;
    var n, lo, hi := |c.left|, KidLo(c.keys, i, Lo(c.up)), KidHi(c.keys, i, Hi(c.up));
    if i < n {
      OrderedApt(c.left[i], h, lo, hi, cfg);
    } else if i > n {
      assert i == n + 1 + (i - n - 1);
      OrderedApt(c.right[i - n - 1], h, lo, hi, cfg);
    }
  }

  lemma {:induction false} ShapedPart(c: Context, t: Tree)
    requires Shaped(Plug(c, t))
    ensures Shaped(t)
    decreases c
  {
    if c.Frame? {
      var p := InnerNode(c.id, c.keys, c.left + [t] + c.right);
      ShapedPart(c.up, p);
      assert p.kids[|c.left|] == t;
    }
  }

  // ---- moving a subtree -------------------------------------------------------------------------

  /** An inner page with its subtrees in place of their page ids. */
  ghost function Slots(t: Tree): seq<KV<Tree>>
    requires t.InnerNode? && |t.keys| == |t.kids|
  {
    seq(|t.kids|, i requires 0 <= i < |t.kids| => KV(t.keys[i], t.kids[i]))
  }

  ghost function OfSlots(id: PageId, s: seq<KV<Tree>>): Tree {
    InnerNode(id, seq(|s|, i requires 0 <= i < |s| => s[i].key), seq(|s|, i requires 0 <= i < |s| => s[i].val))
  }

  /** What inserting into an inner page makes of its slots: the first stays put, the others are sorted. */
  ghost function TakenIn<V>(s: seq<KV<V>>, x: KV<V>): seq<KV<V>>
    requires s != []
  {
    [s[0]] + StableSort(s[1..] + [x])
  }

  /** Two inner pages, with a subtree to spare on the one that lends. */
  ghost predicate CanLend(f: Family, h: nat, fromRight: bool, cfg: Config) {
    && FamilyOrdered(f, h, cfg) && f.tl.InnerNode? && f.tr.InnerNode?
    && 2 <= |(if fromRight then f.tr else f.tl).kids|
  }

  ghost predicate LendShape(f: Family, fromRight: bool) {
    && f.tl.InnerNode? && f.tr.InnerNode? && |f.left| + 1 < |f.keys|
    && 1 <= |f.tl.keys| == |f.tl.kids| && 1 <= |f.tr.keys| == |f.tr.kids|
    && 2 <= |(if fromRight then f.tr else f.tl).kids|
  }

  /** The two pages after the right one's first subtree, or the left one's last, moved across under its slot's key. */
  ghost function LentPair(tl: Tree, tr: Tree, fromRight: bool): (Tree, Tree)
    requires tl.InnerNode? && tr.InnerNode? && 1 <= |tl.keys| == |tl.kids| && 1 <= |tr.keys| == |tr.kids|
  {
    var l, r, n := Slots(tl), Slots(tr), |tl.kids| - 1;
    if fromRight then (OfSlots(tl.id, TakenIn(l, r[0])), OfSlots(tr.id, r[1..]))
    else (OfSlots(tl.id, l[..n]), OfSlots(tr.id, TakenIn(r, l[n])))
  }

  /** The separators of a page with the one equal to `oldKey`, slot zero aside, replaced. */
  ghost function Rekeyed(keys: seq<Key>, oldKey: Key, newKey: Key): seq<Key> {
    seq(|keys|, i requires 0 <= i < |keys| => if i >= 1 && keys[i] == oldKey then newKey else keys[i])
  }

  /** The first subtree the lender is left with: its least key is what the parent is re-keyed to. */
  ghost function LenderFirst(f: Family, fromRight: bool): Tree
    requires LendShape(f, fromRight)
  {
    if fromRight then f.tr.kids[1] else f.tl.kids[0]
  }

  ghost function LeastKey(t: Tree): Key { if Flat(t) == [] then EMPTY_KEY else Flat(t)[0].key }

  /** The parent afterwards, re-keyed where a separator equals the right page's slot zero key of before the move. */
  ghost function LentParent(f: Family, fromRight: bool): Tree
    requires LendShape(f, fromRight)
  {
    var (a, b) := LentPair(f.tl, f.tr, fromRight);
    InnerNode(f.id, Rekeyed(f.keys, f.tr.keys[0], LeastKey(LenderFirst(f, fromRight))), f.left + [a, b] + f.right)
  }

  lemma LendShaped(f: Family, h: nat, fromRight: bool, cfg: Config)
    requires CanLend(f, h, fromRight, cfg)
    ensures LendShape(f, fromRight) && h > 0 && f.tr.keys[0] <= Sep(f)
    ensures PairLo(f) < Sep(f) && Below(Sep(f), PairHi(f))
    ensures Ordered(f.tl, h, PairLo(f), Some(Sep(f)), cfg) && Ordered(f.tr, h, Sep(f), PairHi(f), cfg)
  {
  }

  lemma LentIs(f: Family, fromRight: bool)
    requires LendShape(f, fromRight)
    ensures var p, (a, b) := LentParent(f, fromRight), LentPair(f.tl, f.tr, fromRight);
            && p == InnerNode(f.id, p.keys, Parent(f.(tl := a, tr := b)).kids)
            && a.InnerNode? && b.InnerNode? && a.id == f.tl.id && b.id == f.tr.id
            && p.kids == (f.left + [a]) + [b] + f.right && |p.keys| == |f.keys|
  {
  }

  /** When the move does no harm. */
  ghost predicate Harmless(f: Family, fromRight: bool)
    requires LendShape(f, fromRight)
  {
    fromRight && f.tr.keys[0] == Sep(f) && |f.tr.kids| >= 3
  }

  // ---- when it does no harm -----------------------------------------------------------------------

  lemma TakenLast<V>(s: seq<KV<V>>, x: KV<V>)
    requires s != [] && Ascending(s[1..]) && forall i | 1 <= i < |s| :: s[i].key <= x.key
    ensures TakenIn(s, x) == s + [x]
  {
    hide StableSort;
    StableSortFixed(s[1..] + [x]);
  }

  lemma TakenFirst<V>(s: seq<KV<V>>, x: KV<V>)
    requires s != [] && Ascending(s[1..]) && forall i | 1 <= i < |s| :: x.key < s[i].key
    ensures TakenIn(s, x) == [s[0], x] + s[1..]
  {
    hide StableSort, Ascending;
    StableSortFirst(s[1..], x);
  }

  lemma SlotsAscend(t: Tree, lo: Key, hi: Option<Key>)
    requires t.InnerNode? && |t.keys| == |t.kids| && KeysOk(t.keys, lo, hi)
    ensures Ascending(Slots(t)[1..])
  {
  }

  lemma LentRight(f: Family, h: nat, cfg: Config)
    requires CanLend(f, h, true, cfg) && LendShape(f, true) && f.tr.keys[0] == Sep(f)
    ensures var (a, b) := LentPair(f.tl, f.tr, true);
            && a == InnerNode(f.tl.id, f.tl.keys + [Sep(f)], f.tl.kids + [f.tr.kids[0]])
            && b == InnerNode(f.tr.id, f.tr.keys[1..], f.tr.kids[1..])
  {
    LendShaped(f, h, true, cfg);
    assert KeysOk(f.tl.keys, PairLo(f), Some(Sep(f)));
    SlotsAscend(f.tl, PairLo(f), Some(Sep(f)));
    hide StableSort, FamilyOrdered, Ordered, TakenIn;
    TakenLast(Slots(f.tl), Slots(f.tr)[0]);
  }

  lemma LentLeftPage(f: Family, h: nat, cfg: Config, m: Key)
    requires CanLend(f, h, true, cfg) && LendShape(f, true) && f.tr.keys[1] <= m
    ensures Ordered(InnerNode(f.tl.id, f.tl.keys + [Sep(f)], f.tl.kids + [f.tr.kids[0]]), h, PairLo(f), Some(m), cfg)
  {
    LendShaped(f, h, true, cfg);
    var keys, kids, lo, s := f.tl.keys + [Sep(f)], f.tl.kids + [f.tr.kids[0]], PairLo(f), Sep(f);
    assert KeysOk(f.tl.keys, lo, Some(s)) && s < f.tr.keys[1];
    assert KeysOk(keys, lo, Some(m));
    forall i | 0 <= i < |kids|
      ensures Fits(kids[i], cfg) && Ordered(kids[i], h - 1, KidLo(keys, i, lo), KidHi(keys, i, Some(m)), cfg)
    {
      if i < |f.tl.kids| {
        assert KidLo(keys, i, lo) == KidLo(f.tl.keys, i, lo);
        assert KidHi(keys, i, Some(m)) == KidHi(f.tl.keys, i, Some(s));
      } else {
        RaiseHi(f.tr.kids[0], h - 1, s, Some(f.tr.keys[1]), cfg, Some(m));
      }
    }
  }

  lemma LentRightPage(f: Family, h: nat, cfg: Config)
    requires CanLend(f, h, true, cfg) && LendShape(f, true)
    ensures var m := LeastKey(f.tr.kids[1]);
            && f.tr.keys[1] <= m && Below(m, PairHi(f))
            && Ordered(InnerNode(f.tr.id, f.tr.keys[1..], f.tr.kids[1..]), h, m, PairHi(f), cfg)
  {
    LendShaped(f, h, true, cfg);
    var keys, kids, hi := f.tr.keys[1..], f.tr.kids[1..], PairHi(f);
    var first, m := f.tr.kids[1], LeastKey(f.tr.kids[1]);
    KidOrdered(f.tr, h, Sep(f), hi, cfg, 1);
    OrderedFlat(first, h - 1, f.tr.keys[1], KidHi(f.tr.keys, 1, hi), cfg);
    RaiseLo(first, h - 1, f.tr.keys[1], KidHi(f.tr.keys, 1, hi), cfg, m);
    assert forall i | 1 <= i < |keys| :: keys[i] == f.tr.keys[i + 1];
    assert KeysOk(keys, m, hi);
    forall i | 0 <= i < |kids|
      ensures Fits(kids[i], cfg) && Ordered(kids[i], h - 1, KidLo(keys, i, m), KidHi(keys, i, hi), cfg)
    {
      assert kids[i] == f.tr.kids[i + 1] && KidHi(keys, i, hi) == KidHi(f.tr.keys, i + 1, hi);
      if i > 0 { assert KidLo(keys, i, m) == KidLo(f.tr.keys, i + 1, Sep(f)); }
    }
  }

  lemma LentKeys(f: Family, h: nat, cfg: Config)
    requires CanLend(f, h, true, cfg) && LendShape(f, true) && f.tr.keys[0] == Sep(f)
    ensures var p, m := LentParent(f, true), LeastKey(f.tr.kids[1]);
            p.keys == f.keys[|f.left| + 1 := m] && KeysOk(p.keys, Lo(f.up), Hi(f.up))
  {
    LentRightPage(f, h, cfg);
    LendShaped(f, h, true, cfg);
    hide Ordered, LentPair, OrderedContext, SideOrdered, LeastKey;
    RekeyOk(f.keys, |f.left|, LeastKey(f.tr.kids[1]), Lo(f.up), Hi(f.up));
  }

  lemma LentMiddle(f: Family, h: nat, cfg: Config)
    requires CanLend(f, h, true, cfg) && LendShape(f, true) && Harmless(f, true)
    ensures var (a, b) := LentPair(f.tl, f.tr, true);
            var m := LeastKey(f.tr.kids[1]);
            && Ordered(a, h, PairLo(f), Some(m), cfg) && Ordered(b, h, m, PairHi(f), cfg)
            && Least(a) <= Size(a) && Least(b) <= Size(b)
  {
    hide Ordered, OrderedContext, FamilyOrdered, LentPair, LeastKey;
    var m := LeastKey(f.tr.kids[1]);
    LentRight(f, h, cfg);
    LentRightPage(f, h, cfg);
    LentLeftPage(f, h, cfg, m);
  }

  lemma SideOrder(f: Family, h: nat, cfg: Config, j: nat)
    requires FamilyOrdered(f, h, cfg) && j < |f.left| + 2 + |f.right| && j != |f.left| && j != |f.left| + 1
    ensures |f.keys| == |f.left| + 2 + |f.right|
    ensures Ordered(Parent(f).kids[j], h, KidLo(f.keys, j, Lo(f.up)), KidHi(f.keys, j, Hi(f.up)), cfg)
    ensures Fits(Parent(f).kids[j], cfg)
  {
    if j < |f.left| {
      LeftSibling(f, h, cfg, j);
    } else {
      RightSibling(f, h, cfg, j - |f.left| - 2);
    }
  }

  lemma LentKid(f: Family, h: nat, cfg: Config, j: nat)
    requires CanLend(f, h, true, cfg) && LendShape(f, true) && Harmless(f, true) && j < |f.left| + 2 + |f.right|
    ensures var p := LentParent(f, true);
            var (a, b) := LentPair(f.tl, f.tr, true);
            && |p.kids| == |p.keys| == |f.left| + 2 + |f.right|
            && Ordered(p.kids[j], h, KidLo(p.keys, j, Lo(f.up)), KidHi(p.keys, j, Hi(f.up)), cfg)
            && Least(p.kids[j]) <= Size(p.kids[j])
            && (Fits(a, cfg) && Fits(b, cfg) ==> Fits(p.kids[j], cfg))
  {
    var p, i, m := LentParent(f, true), |f.left|, LeastKey(f.tr.kids[1]);
    LentIs(f, true);
    LentKeys(f, h, cfg);
    assert |f.keys| == |f.left| + 2 + |f.right|;
    hide CanLend, LendShape, FamilyOrdered, Ordered, OrderedContext, KeysOk, LentPair, LeastKey, LentParent;
    RekeyedBounds(f.keys, i, m, Lo(f.up), Hi(f.up), j);
    if j == i || j == i + 1 {
      LentMiddle(f, h, cfg);
    } else {
      hide KidLo, KidHi, Harmless;
      assert FamilyOrdered(f, h, cfg) by { Lending(f, h, true, cfg); }
      SideOrder(f, h, cfg, j);
      assert p.kids[j] == Parent(f).kids[j];
    }
  }

  lemma Lending(f: Family, h: nat, fromRight: bool, cfg: Config)
    requires CanLend(f, h, fromRight, cfg)
    ensures FamilyOrdered(f, h, cfg)
  {
  }

  /** The parent's searches are right, and where the two pages hold enough it is in order. */
  lemma LentApt(f: Family, h: nat, cfg: Config)
    requires CanLend(f, h, true, cfg) && LendShape(f, true) && Harmless(f, true)
    ensures Apt(LentParent(f, true), Lo(f.up), Hi(f.up))
    ensures var (a, b) := LentPair(f.tl, f.tr, true);
            Fits(a, cfg) && Fits(b, cfg) ==> Ordered(LentParent(f, true), h + 1, Lo(f.up), Hi(f.up), cfg)
  {
    var p := LentParent(f, true);
    LentIs(f, true);
    LentKeys(f, h, cfg);
    Lending(f, h, true, cfg);
    assert |f.keys| == |f.left| + 2 + |f.right|;
    var (a, b) := LentPair(f.tl, f.tr, true);
    hide CanLend, LendShape, FamilyOrdered, Apt, LeastKey, KeysOk, LentPair, LentParent, Harmless, KidLo, KidHi, Fits;
    forall j | 0 <= j < |p.kids| ensures Apt(p.kids[j], KidLo(p.keys, j, Lo(f.up)), KidHi(p.keys, j, Hi(f.up))) {
      LentKid(f, h, cfg, j);
      OrderedApt(p.kids[j], h, KidLo(p.keys, j, Lo(f.up)), KidHi(p.keys, j, Hi(f.up)), cfg);
    }
    NodeApt(p, Lo(f.up), Hi(f.up));
    if Fits(a, cfg) && Fits(b, cfg) {
      forall j | 0 <= j < |p.kids|
        ensures Fits(p.kids[j], cfg)
        ensures Ordered(p.kids[j], h, KidLo(p.keys, j, Lo(f.up)), KidHi(p.keys, j, Hi(f.up)), cfg)
      {
        LentKid(f, h, cfg, j);
      }
    }
  }

  /** The pairs stay in order. */
  lemma LentFlat(f: Family, h: nat, cfg: Config)
    requires CanLend(f, h, true, cfg) && LendShape(f, true) && f.tr.keys[0] == Sep(f)
    ensures Flat(LentParent(f, true)) == Flat(Parent(f))
  {
    LentRight(f, h, cfg);
    hide Flat, FlatAll, CanLend, LeastKey;
    var (a, b) := LentPair(f.tl, f.tr, true);
    var g := f.(tl := a, tr := b);
    var first, rest := f.tr.kids[0], f.tr.kids[1..];
    FlatInner(LentParent(f, true));
    FlatInner(Parent(g));
    ParentFlat(g);
    ParentFlat(f);
    FlatInner(a);
    FlatInner(b);
    FlatInner(f.tl);
    FlatInner(f.tr);
    FlatAllAppend(f.tl.kids, [first]);
    LeavesAllOne(first);
    assert f.tr.kids == [first] + rest;
    FlatAllAppend([first], rest);
    Associate(FlatAll(f.left), Flat(a), Flat(b), FlatAll(f.right));
    Associate(FlatAll(f.left), Flat(f.tl), Flat(f.tr), FlatAll(f.right));
    assert FlatAll(f.tl.kids) + Flat(first) + FlatAll(rest) == FlatAll(f.tl.kids) + (Flat(first) + FlatAll(rest));
  }

  // ---- when it does -------------------------------------------------------------------------------

  /** A pair below the right page's first subtree of before the move. */
  ghost predicate Victim(f: Family, x: KV<RecordId>) {
    f.tr.InnerNode? && f.tr.kids != [] && x in Flat(f.tr.kids[0])
  }

  lemma VictimExists(f: Family, h: nat, fromRight: bool, cfg: Config) returns (x: KV<RecordId>)
    requires CanLend(f, h, fromRight, cfg)
    ensures Victim(f, x)
  {
    LendShaped(f, h, fromRight, cfg);
    KidOrdered(f.tr, h, Sep(f), PairHi(f), cfg, 0);
    OrderedFlat(f.tr.kids[0], h - 1, Sep(f), KidHi(f.tr.keys, 0, PairHi(f)), cfg);
    x := Flat(f.tr.kids[0])[0];
  }

  lemma VictimInside(f: Family, h: nat, fromRight: bool, cfg: Config, x: KV<RecordId>)
    requires CanLend(f, h, fromRight, cfg) && Victim(f, x)
    ensures |f.left| + 1 < |f.keys| && |f.tr.keys| == |f.tr.kids|
    ensures var key := x.key;
            && Sep(f) <= key && Below(key, PairHi(f)) && Lo(f.up) <= key && Below(key, Hi(f.up))
            && (forall j | 1 <= j < |f.tr.keys| :: key < f.tr.keys[j])
  {
    LendShaped(f, h, fromRight, cfg);
    var first, hi := f.tr.kids[0], KidHi(f.tr.keys, 0, PairHi(f));
    KidOrdered(f.tr, h, Sep(f), PairHi(f), cfg, 0);
    OrderedFlat(first, h - 1, Sep(f), hi, cfg);
  }

  /** Whatever separator is re-keyed, a search for the victim goes to the right page, or the parent is out of order. */
  lemma VictimRight(f: Family, h: nat, fromRight: bool, cfg: Config, x: KV<RecordId>)
    requires CanLend(f, h, fromRight, cfg) && LendShape(f, fromRight) && Victim(f, x)
    requires Shaped(LentParent(f, fromRight))
    requires fromRight ==> f.tr.keys[0] != Sep(f)
    ensures Route(LentParent(f, fromRight).keys, x.key) == |f.left| + 1
  {
    VictimInside(f, h, fromRight, cfg, x);
    LendShaped(f, h, fromRight, cfg);
    LenderLeast(f, h, fromRight, cfg);
    var keys, i, key := LentParent(f, fromRight).keys, |f.left| + 1, x.key;
    hide Ordered, OrderedContext, SideOrdered, LentPair, LeastKey, Route;
    assert KeysOk(f.keys, Lo(f.up), Hi(f.up));
    forall j | i < j < |keys| ensures key < keys[j] {
      assert f.keys[j] >= f.keys[i + 1] > f.keys[i];
      assert keys[j] == f.keys[j];
    }
    assert keys[i] <= key;
    RouteIs(keys, key, i);
  }

  /** The key the parent is re-keyed to: below the separator when lending from the left, at least the second slot's. */
  lemma LenderLeast(f: Family, h: nat, fromRight: bool, cfg: Config)
    requires CanLend(f, h, fromRight, cfg)
    ensures LendShape(f, fromRight)
    ensures var m := LeastKey(LenderFirst(f, fromRight)); if fromRight then f.tr.keys[1] <= m else m < Sep(f)
  {
    LendShaped(f, h, fromRight, cfg);
    if fromRight {
      LentRightPage(f, h, cfg);
    } else {
      var first := f.tl.kids[0];
      KidOrdered(f.tl, h, PairLo(f), Some(Sep(f)), cfg, 0);
      OrderedFlat(first, h - 1, PairLo(f), KidHi(f.tl.keys, 0, Some(Sep(f))), cfg);
    }
  }

  /** The right page then leads a search for the victim to a subtree without it. */
  lemma VictimMissed(f: Family, h: nat, fromRight: bool, cfg: Config, x: KV<RecordId>)
    requires CanLend(f, h, fromRight, cfg) && LendShape(f, fromRight) && Victim(f, x)
    requires var (a, b) := LentPair(f.tl, f.tr, fromRight); Shaped(b)
    ensures var (a, b) := LentPair(f.tl, f.tr, fromRight); Search(b, x.key) == None
  {
    VictimInside(f, h, fromRight, cfg, x);
    LendShaped(f, h, fromRight, cfg);
    var (a, b) := LentPair(f.tl, f.tr, fromRight);
    var key := x.key;
    if fromRight {
      RightTail(f.tl, f.tr);
      assert |b.keys| >= 2;
      Aside(f.tr, h, Sep(f), PairHi(f), cfg, 1, b, 0, key);
    } else {
      LentFromLeft(f, h, cfg);
      Aside(f.tl, h, PairLo(f), Some(Sep(f)), cfg, |f.tl.kids| - 1, b, 1, key);
    }
  }

  lemma RightTail(tl: Tree, tr: Tree)
    requires tl.InnerNode? && tr.InnerNode? && 1 <= |tl.keys| == |tl.kids| && 1 <= |tr.keys| == |tr.kids|
    ensures LentPair(tl, tr, true).1 == InnerNode(tr.id, tr.keys[1..], tr.kids[1..])
  {
  }

  /** A search that follows slot `j` of `b` into a subtree of `t` outside whose bounds the key lies. */
  lemma Aside(t: Tree, h: nat, lo: Key, hi: Option<Key>, cfg: Config, i: nat, b: Tree, j: nat, key: Key)
    requires t.InnerNode? && Ordered(t, h, lo, hi, cfg) && i < |t.kids| == |t.keys|
    requires key < KidLo(t.keys, i, lo) || !Below(key, KidHi(t.keys, i, hi))
    requires Shaped(b) && b.InnerNode? && j < |b.kids| && b.kids[j] == t.kids[i]
    requires (j >= 1 ==> b.keys[j] <= key) && forall k | j < k < |b.keys| :: key < b.keys[k]
    ensures Search(b, key) == None
  {
    RouteIs(b.keys, key, j);
    SearchInto(b, key);
    assert Shaped(b.kids[j]);
    hide Ordered, Shaped, Search, Flat;
    AbsentFrom(t, h, lo, hi, cfg, i, key);
    SearchStored(b.kids[j], key);
  }

  /** A subtree holds no key outside its bounds. */
  lemma AbsentFrom(t: Tree, h: nat, lo: Key, hi: Option<Key>, cfg: Config, i: nat, key: Key)
    requires t.InnerNode? && Ordered(t, h, lo, hi, cfg) && i < |t.kids| == |t.keys|
    requires key < KidLo(t.keys, i, lo) || !Below(key, KidHi(t.keys, i, hi))
    ensures forall x | x in Flat(t.kids[i]) :: x.key != key
  {
    KidOrdered(t, h, lo, hi, cfg, i);
    OrderedFlat(t.kids[i], h - 1, KidLo(t.keys, i, lo), KidHi(t.keys, i, hi), cfg);
  }

  /** From the left, the subtree lands behind slot zero. */
  lemma LentFromLeft(f: Family, h: nat, cfg: Config)
    requires CanLend(f, h, false, cfg) && LendShape(f, false)
    ensures var (a, b) := LentPair(f.tl, f.tr, false);
            var n := |f.tl.kids| - 1;
            && f.tl.keys[n] < Sep(f)
            && b.keys == [f.tr.keys[0], f.tl.keys[n]] + f.tr.keys[1..]
            && b.kids == [f.tr.kids[0], f.tl.kids[n]] + f.tr.kids[1..]
  {
    LendShaped(f, h, false, cfg);
    assert KeysOk(f.tl.keys, PairLo(f), Some(Sep(f))) && KeysOk(f.tr.keys, Sep(f), PairHi(f));
    SlotsAscend(f.tr, Sep(f), PairHi(f));
    hide StableSort, FamilyOrdered, Ordered, TakenIn, LentPair;
    var r, x := Slots(f.tr), Slots(f.tl)[|f.tl.kids| - 1];
    TakenFirst(r, x);
    SlotsOf(f.tr, r[0], x, r[1..]);
    assert LentPair(f.tl, f.tr, false).1 == OfSlots(f.tr.id, TakenIn(r, x)) by { PairParts(f.tl, f.tr, false); }
  }

  lemma PairParts(tl: Tree, tr: Tree, fromRight: bool)
    requires tl.InnerNode? && tr.InnerNode? && 1 <= |tl.keys| == |tl.kids| && 1 <= |tr.keys| == |tr.kids|
    ensures !fromRight ==> LentPair(tl, tr, fromRight).1 == OfSlots(tr.id, TakenIn(Slots(tr), Slots(tl)[|tl.kids| - 1]))
  {
  }

  lemma SlotsOf(t: Tree, first: KV<Tree>, x: KV<Tree>, rest: seq<KV<Tree>>)
    requires t.InnerNode? && 1 <= |t.keys| == |t.kids| && first == Slots(t)[0] && rest == Slots(t)[1..]
    ensures OfSlots(t.id, [first, x] + rest) ==
            InnerNode(t.id, [t.keys[0], x.key] + t.keys[1..], [t.kids[0], x.val] + t.kids[1..])
  {
    var s := [first, x] + rest;
    assert forall i | 0 <= i < |rest| :: rest[i] == KV(t.keys[i + 1], t.kids[i + 1]);
  }

  lemma VictimStored(f: Family, h: nat, fromRight: bool, cfg: Config, x: KV<RecordId>)
    requires CanLend(f, h, fromRight, cfg) && LendShape(f, fromRight) && Victim(f, x)
    ensures x in Flat(Plug(f.up, LentParent(f, fromRight)))
  {
    VictimInside(f, h, fromRight, cfg, x);
    var (a, b) := LentPair(f.tl, f.tr, fromRight);
    var p := LentParent(f, fromRight);
    var host, slot := if fromRight then a else b, 0;
    if fromRight {
      TakenMember(Slots(f.tl), Slots(f.tr)[0]);
      var s := TakenIn(Slots(f.tl), Slots(f.tr)[0]);
      slot :| 0 <= slot < |s| && s[slot] == Slots(f.tr)[0];
    } else {
      LentFromLeft(f, h, cfg);
    }
    assert host.kids[slot] == f.tr.kids[0];
    var i := |f.left| + if fromRight then 0 else 1;
    assert p.kids[i] == host;
    hide Flat, FlatAll, CanLend, LentParent, LentPair, TakenIn;
    KidStored(host, slot, x);
    KidStored(p, i, x);
    PlugLeaves(f.up, p);
  }

  lemma KidStored(t: Tree, i: nat, x: KV<RecordId>)
    requires t.InnerNode? && i < |t.kids| && x in Flat(t.kids[i])
    ensures x in Flat(t)
  {
    hide Flat, FlatAll;
    FlatInner(t);
    Around(t.kids[..i], t.kids[i], t.kids[i + 1..]);
    assert t.kids[..i] + [t.kids[i]] + t.kids[i + 1..] == t.kids;
  }

  lemma TakenMember<V>(s: seq<KV<V>>, x: KV<V>)
    requires s != []
    ensures exists i :: 0 <= i < |TakenIn(s, x)| && TakenIn(s, x)[i] == x
  {
    StableSortSorts(s[1..] + [x]);
    var r := StableSort(s[1..] + [x]);
    assert x in multiset(s[1..] + [x]);
    assert x in multiset(r);
    var i :| 0 <= i < |r| && r[i] == x;
    assert TakenIn(s, x)[i + 1] == x;
  }

  /** Of a parent in shape, a search for the victim finds nothing. */
  lemma VictimBelow(f: Family, h: nat, fromRight: bool, cfg: Config, x: KV<RecordId>)
    requires CanLend(f, h, fromRight, cfg) && LendShape(f, fromRight) && Victim(f, x) && !Harmless(f, fromRight)
    requires Shaped(LentParent(f, fromRight))
    ensures Search(LentParent(f, fromRight), x.key) == None
  {
    var p := LentParent(f, fromRight);
    var (a, b) := LentPair(f.tl, f.tr, fromRight);
    assert p.kids[|f.left| + 1] == b;
    assert Shaped(b);
    hide LentParent, FamilyOrdered, Flat, Search, Victim;
    if fromRight && f.tr.keys[0] == Sep(f) {
      LentRight(f, h, cfg);
      assert false;
    } else {
      hide LentPair, Shaped;
      VictimRight(f, h, fromRight, cfg, x);
      VictimMissed(f, h, fromRight, cfg, x);
      SearchInto(p, x.key);
    }
  }

  /**
   * After a move that is not harmless, if pages are still in shape, no pair that was below the right page's first
   * subtree is found any more, though it is stored.
   */
  lemma VictimLost(f: Family, h: nat, fromRight: bool, cfg: Config, x: KV<RecordId>)
    requires CanLend(f, h, fromRight, cfg) && LendShape(f, fromRight) && Victim(f, x) && !Harmless(f, fromRight)
    requires Shaped(Plug(f.up, LentParent(f, fromRight)))
    ensures var t := Plug(f.up, LentParent(f, fromRight)); x in Flat(t) && Search(t, x.key) == None
  {
    hide *;
    var p := LentParent(f, fromRight);
    ShapedPart(f.up, p);
    VictimBelow(f, h, fromRight, cfg, x);
    VictimInside(f, h, fromRight, cfg, x);
    VictimStored(f, h, fromRight, cfg, x);
    assert OrderedContext(f.up, h + 1, cfg) by { Lending(f, h, fromRight, cfg); UpOrdered(f, h, cfg); }
    SearchPlug(f.up, p, h + 1, cfg, x.key);
  }

  /** So such a move leaves a page out of shape, or searches miss what they should find. */
  lemma LentLoses(f: Family, h: nat, fromRight: bool, cfg: Config)
    requires CanLend(f, h, fromRight, cfg) && LendShape(f, fromRight) && !Harmless(f, fromRight)
    ensures !AllFound(Plug(f.up, LentParent(f, fromRight)))
  {
    hide *;
    var t := Plug(f.up, LentParent(f, fromRight));
    if AllFound(t) {
      var x := VictimExists(f, h, fromRight, cfg);
      FoundAt(t, x.key);
      VictimLost(f, h, fromRight, cfg, x);
      FoundStored(Flat(t), x.key);
      assert false;
    }
  }

  lemma FoundAt(t: Tree, key: Key)
    requires AllFound(t)
    ensures Shaped(t) && Search(t, key) == FindIn(Flat(t), key)
  {
  }

  lemma UpOrdered(f: Family, h: nat, cfg: Config)
    requires FamilyOrdered(f, h, cfg)
    ensures OrderedContext(f.up, h + 1, cfg)
  {
  }

  lemma SearchInto(t: Tree, key: Key)
    requires Shaped(t) && t.InnerNode?
    ensures Route(t.keys, key) < |t.kids| && Search(t, key) == Search(t.kids[Route(t.keys, key)], key)
  {
  }

  /**
   * Moving a subtree between two inner pages keeps every search of the whole tree right if and only if it came from the
   * right, the parent's separator was exactly the right page's slot zero key, and two subtrees stay there.
   */
  lemma LendExact(f: Family, h: nat, fromRight: bool, cfg: Config)
    requires CanLend(f, h, fromRight, cfg)
    ensures LendShape(f, fromRight)
    ensures AllFound(Plug(f.up, LentParent(f, fromRight))) <==> Harmless(f, fromRight)
    ensures Harmless(f, fromRight) ==> Flat(LentParent(f, fromRight)) == Flat(Parent(f))
  {
    LendShaped(f, h, fromRight, cfg);
    hide LentParent, Flat, CanLend;
    if Harmless(f, fromRight) {
      LentApt(f, h, cfg);
      LentFlat(f, h, cfg);
      assert OrderedContext(f.up, h + 1, cfg) by { UpOrdered(f, h, cfg); }
      PlugApt(f.up, LentParent(f, true), h + 1, cfg);
    } else {
      LentLoses(f, h, fromRight, cfg);
    }
  }

  // ---- leaves -------------------------------------------------------------------------------------

  /** Moving a pair between two leaves keeps every search right if and only if the separator was exact. */
  lemma BorrowExactly(f: Family, h: nat, fromRight: bool, cfg: Config)
    requires CanBorrow(f, h, fromRight, cfg)
    ensures AllFound(Plug(f.up, BorrowedParent(f, fromRight))) <==> Sep(f) == f.tr.kvs[0].key
  {
    BorrowExact(f, h, fromRight, cfg);
    BorrowFinds(f, h, fromRight, cfg);
    assert OrderedContext(f.up, h + 1, cfg) by { UpOrdered(f, h, cfg); }
    assert Size(BorrowedParent(f, fromRight)) >= 2;
    var p, x := BorrowedParent(f, fromRight), Moved(f, fromRight);
    hide Ordered, OrderedContext, Flat, Shaped, Search, Plug, CanBorrow, BorrowedParent, Moved, FindsMoved;
    if Sep(f) == f.tr.kvs[0].key {
      OrderedApt(p, h + 1, Lo(f.up), Hi(f.up), cfg);
      PlugApt(f.up, p, h + 1, cfg);
    } else {
      FoundStored(Flat(Plug(f.up, p)), x.key);
    }
  }
}
