/** Range scans over the leaf chain of the index (storage/index.rs, `TreeIndexIterator`). */
module IndexIterator {
  import opened Prelude
  import opened KeyValues
  import opened IndexPage
  import opened IndexTree
  import opened IndexStore
  import opened Index

  // ---- the leaf chain -------------------------------------------------------------------------

  ghost function HeadId(leaves: seq<Tree>, next: PageId): PageId { if leaves == [] then next else leaves[0].id }

  /** Each leaf's page names the next leaf in the list; the last one names `next`. */
  ghost predicate Chained(pages: Pages, leaves: seq<Tree>, next: PageId, cfg: Config) {
    leaves != [] ==>
      && leaves[0].LeafNode? && leaves[0].id in pages
      && pages[leaves[0].id] == Leaf(leaves[0].kvs, cfg.leafMax, HeadId(leaves[1..], next))
      && Chained(pages, leaves[1..], next, cfg)
  }

  lemma {:induction false} ChainedAppend(pages: Pages, a: seq<Tree>, b: seq<Tree>, next: PageId, cfg: Config)
    ensures Chained(pages, a + b, next, cfg) <==>
            Chained(pages, a, HeadId(b, next), cfg) && Chained(pages, b, next, cfg)
  {
    if a == [] {
      assert a + b == b;
    } else {
      assert (a + b)[1..] == a[1..] + b;
      ChainedAppend(pages, a[1..], b, next, cfg);
    }
  }

  /** In a stored, ordered tree the leaf pages form one chain through the leaves in key order. */
  lemma {:induction false} LeafChain(pages: Pages, t: Tree, next: PageId, h: nat, lo: Key, hi: Option<Key>, cfg: Config)
    requires Stored(pages, t, next, cfg) && Ordered(t, h, lo, hi, cfg) && Least(t) <= Size(t)
    ensures Leaves(t) != [] && FirstLeaf(t) == Leaves(t)[0].id
    ensures Chained(pages, Leaves(t), next, cfg)
    decreases t, 1, 0
  {
    if t.LeafNode? {
      assert Leaves(t) == [t] && [t][1..] == [];
    } else {
      assert KidsStored(pages, t, next, cfg);
      assert t.kids[|t.kids|..] == [] && t.kids[0..] == t.kids;
      LeafChainKids(pages, t, next, h, lo, hi, cfg, 0);
    }
  }

  lemma {:induction false} LeafChainKids(pages: Pages, t: Tree, next: PageId, h: nat, lo: Key, hi: Option<Key>,
      cfg: Config, n: nat)
    requires t.InnerNode? && Ordered(t, h, lo, hi, cfg) && n <= |t.kids|
    requires ListStored(pages, t.kids[n..], next, cfg)
    ensures Chained(pages, LeavesAll(t.kids[n..]), next, cfg)
    ensures n < |t.kids| ==> LeavesAll(t.kids[n..]) != [] && FirstLeaf(t.kids[n]) == LeavesAll(t.kids[n..])[0].id
    ensures HeadId(LeavesAll(t.kids[n..]), next) == FirstOf(t.kids[n..], next)
    decreases t, 0, |t.kids| - n
  {
    if n < |t.kids| {
      var ts := t.kids[n..];
      assert ts[0] == t.kids[n] && ts[1..] == t.kids[n + 1..];
      LeafChainKids(pages, t, next, h, lo, hi, cfg, n + 1);
      LeafChain(pages, ts[0], FirstOf(ts[1..], next), h - 1, KidLo(t.keys, n, lo), KidHi(t.keys, n, hi), cfg);
      ChainedAppend(pages, Leaves(ts[0]), LeavesAll(ts[1..]), next, cfg);
    }
  }

  lemma TreeChain(pages: Pages, tree: Tree, h: nat, cfg: Config)
    requires WellFormed(tree, h, cfg) && Stored(pages, tree, INVALID_PAGE_ID, cfg)
    ensures Chained(pages, Leaves(tree), INVALID_PAGE_ID, cfg)
  {
    LeafChain(pages, tree, INVALID_PAGE_ID, h, EMPTY_KEY, None, cfg);
  }

  lemma ChainedAt(pages: Pages, a: seq<Tree>, t: Tree, b: seq<Tree>, next: PageId, cfg: Config)
    requires Chained(pages, a + [t] + b, next, cfg)
    ensures t.LeafNode? && t.id in pages && pages[t.id] == Leaf(t.kvs, cfg.leafMax, HeadId(b, next))
    ensures Chained(pages, b, next, cfg)
  {
    assert a + [t] + b == a + ([t] + b);
    ChainedAppend(pages, a, [t] + b, next, cfg);
    assert ([t] + b)[1..] == b;
  }

  lemma LeafAlone(t: Tree)
    requires t.LeafNode?
    ensures Leaves(t) == [t]
  {}

  /** The leaf at the hole of a stored tree and everything the chain leads to from there. */
  lemma ChainFromHole(pages: Pages, c: Context, t: Tree, tree: Tree, h: nat, cfg: Config)
    requires Plug(c, t) == tree && t.LeafNode?
    requires WellFormed(tree, h, cfg) && Stored(pages, tree, INVALID_PAGE_ID, cfg)
    ensures t.id in pages && pages[t.id] == Leaf(t.kvs, cfg.leafMax, HeadId(LeavesAfter(c), INVALID_PAGE_ID))
    ensures Chained(pages, LeavesAfter(c), INVALID_PAGE_ID, cfg)
  {
    hide WellFormed, Stored, Plug, Leaves, LeavesBefore, LeavesAfter, Chained, Flat;
    TreeChain(pages, tree, h, cfg);
    PlugLeaves(c, t);
    LeafAlone(t);
    ChainedAt(pages, LeavesBefore(c), t, LeavesAfter(c), INVALID_PAGE_ID, cfg);
  }

  /** No leaf of a well-formed tree is empty. */
  lemma {:induction false} LeavesFilled(t: Tree, h: nat, lo: Key, hi: Option<Key>, cfg: Config)
    requires Ordered(t, h, lo, hi, cfg) && Least(t) <= Size(t)
    ensures AllFilled(Leaves(t))
    decreases t, 1, 0
  {
    if t.InnerNode? {
      LeavesFilledKids(t, h, lo, hi, cfg, |t.kids|);
      assert t.kids[..|t.kids|] == t.kids;
    }
  }

  lemma {:induction false} LeavesFilledKids(t: Tree, h: nat, lo: Key, hi: Option<Key>, cfg: Config, n: nat)
    requires t.InnerNode? && Ordered(t, h, lo, hi, cfg) && n <= |t.kids|
    ensures AllFilled(LeavesAll(t.kids[..n]))
    decreases t, 0, n
  {
    if n > 0 {
      LeavesFilledKids(t, h, lo, hi, cfg, n - 1);
      var kid := t.kids[n - 1];
      LeavesFilled(kid, h - 1, KidLo(t.keys, n - 1, lo), KidHi(t.keys, n - 1, hi), cfg);
      assert t.kids[..n] == t.kids[..n - 1] + [kid];
      LeavesAllAppend(t.kids[..n - 1], [kid]);
      LeavesAllOne(kid);
    }
  }

  ghost predicate AllFilled(leaves: seq<Tree>) {
    forall i | 0 <= i < |leaves| :: leaves[i].LeafNode? && leaves[i].kvs != []
  }

  // ---- ranges ---------------------------------------------------------------------------------

  datatype Bound = Included(key: Key) | Excluded(key: Key) | Unbounded

  predicate AfterStart(b: Bound, k: Key) {
    match b
    case Included(s) => s <= k
    case Excluded(s) => s < k
    case Unbounded => true
  }

  predicate BeforeEnd(b: Bound, k: Key) {
    match b
    case Included(e) => k <= e
    case Excluded(e) => k < e
    case Unbounded => true
  }

  /** The pairs of `s` inside the range, in order. */
  ghost function Select(s: seq<KV<RecordId>>, start: Bound, end: Bound): seq<KV<RecordId>> {
    if s == [] then []
    else (if AfterStart(start, s[0].key) && BeforeEnd(end, s[0].key) then [s[0]] else []) + Select(s[1..], start, end)
  }

  /** Those are the pairs at or behind an included start, behind an excluded one, and likewise before the end. */
  lemma {:induction false} SelectExact(s: seq<KV<RecordId>>, start: Bound, end: Bound, kv: KV<RecordId>)
    ensures kv in Select(s, start, end) <==>
            && kv in s
            && (start.Included? ==> start.key <= kv.key) && (start.Excluded? ==> start.key < kv.key)
            && (end.Included? ==> kv.key <= end.key) && (end.Excluded? ==> kv.key < end.key)
    ensures Sorted(s) ==> Sorted(Select(s, start, end))
  {
    if s != [] {
      SelectExact(s[1..], start, end, kv);
      assert s == [s[0]] + s[1..];
      if Sorted(s) {
        forall x | x in Select(s[1..], start, end) ensures s[0].key < x.key {
          SelectExact(s[1..], start, end, x);
        }
      }
    }
  }

  ghost function From(s: seq<KV<RecordId>>, start: Bound): seq<KV<RecordId>> { Select(s, start, Unbounded) }

  /** The leading pairs of `s` that stay inside the end bound. */
  ghost function While(s: seq<KV<RecordId>>, end: Bound): seq<KV<RecordId>> {
    if s == [] || !BeforeEnd(end, s[0].key) then [] else [s[0]] + While(s[1..], end)
  }

  /** What an iterator hands out before its first `None`: the end bound is not checked on the first pair. */
  ghost function Yields(s: seq<KV<RecordId>>, start: Bound, end: Bound): seq<KV<RecordId>> {
    var f := From(s, start);
    if f == [] then [] else [f[0]] + While(f[1..], end)
  }

  ghost function Rids(s: seq<KV<RecordId>>): seq<RecordId> {
    seq(|s|, i requires 0 <= i < |s| => s[i].val)
  }

  lemma {:induction false} FromSplit(a: seq<KV<RecordId>>, b: seq<KV<RecordId>>, start: Bound)
    requires forall i | 0 <= i < |a| :: !AfterStart(start, a[i].key)
    requires forall i | 0 <= i < |b| :: AfterStart(start, b[i].key)
    ensures From(a + b, start) == b
  {
    if a != [] {
      assert (a + b)[1..] == a[1..] + b;
      FromSplit(a[1..], b, start);
    } else {
      assert a + b == b;
      if b != [] {
        assert [] + b[1..] == b[1..];
        FromSplit([], b[1..], start);
      }
    }
  }

  lemma {:induction false} SelectWhile(s: seq<KV<RecordId>>, start: Bound, end: Bound)
    requires Sorted(s)
    ensures Select(s, start, end) == While(From(s, start), end)
  {
    if s != [] {
      var x, r := s[0], s[1..];
      SelectWhile(r, start, end);
      var f := From(r, start);
      if !AfterStart(start, x.key) {
        assert From(s, start) == [] + f == f;
        assert Select(s, start, end) == [] + Select(r, start, end) == Select(r, start, end);
      } else {
        assert From(s, start) == [x] + f && ([x] + f)[1..] == f;
        if BeforeEnd(end, x.key) {
          assert While([x] + f, end) == [x] + While(f, end);
        } else {
          assert While([x] + f, end) == [];
          NothingLater(s, start, end);
        }
      }
    }
  }

  lemma {:induction false} NothingLater(s: seq<KV<RecordId>>, start: Bound, end: Bound)
    requires Sorted(s) && (s != [] ==> !BeforeEnd(end, s[0].key))
    ensures Select(s, start, end) == []
  {
    if s != [] {
      NothingLater(s[1..], start, end);
    }
  }

  /**
   A scan hands out exactly the pairs of its range if and only if its first candidate lies inside the
   end bound or there is no candidate. Scans without an end bound always qualify.
   */
  lemma ScanExact(s: seq<KV<RecordId>>, start: Bound, end: Bound)
    requires Sorted(s)
    ensures Yields(s, start, end) == Select(s, start, end) <==>
            From(s, start) == [] || BeforeEnd(end, From(s, start)[0].key)
    ensures end == Unbounded ==> Yields(s, start, end) == From(s, start)
  {
    SelectWhile(s, start, end);
    SelectWhile(s, start, Unbounded);
    var f := From(s, start);
    if f != [] {
      assert [f[0]] + While(f[1..], end) == Yields(s, start, end);
    }
  }

  /** A concrete scan that leaves its range: keys 1 and 5, range (2, 4). */
  lemma ScanOvershoots()
    ensures var s := [KV(1, RecordId(1, 0)), KV(5, RecordId(1, 1))];
            && Sorted(s) && Select(s, Excluded(2), Excluded(4)) == []
            && Yields(s, Excluded(2), Excluded(4)) == [s[1]]
  {
    var s := [KV(1, RecordId(1, 0)), KV(5, RecordId(1, 1))];
    assert s == [s[0]] + [s[1]];
    FromSplit([s[0]], [s[1]], Excluded(2));
    var e: seq<KV<RecordId>> := [];
    assert s[1..] == [s[1]] && s[1..][1..] == e;
    assert Select(e, Excluded(2), Excluded(4)) == [];
    assert Select(s[1..], Excluded(2), Excluded(4)) == [];
    assert While(e, Excluded(4)) == [];
  }

  // ---- the iterator ---------------------------------------------------------------------------

  class TreeIndexIterator {
    const index: BPlusTreeIndex
    const startBound: Bound
    const endBound: Bound
    var leafPage: LeafPage
    var cursor: nat
    var started: bool
    /** Leaves behind the current one, and the pairs behind the cursor. */
    ghost var rest: seq<Tree>
    ghost var ahead: seq<KV<RecordId>>

    ghost predicate Valid()
      reads this, index, leafPage
    {
      && index.Valid() && leafPage.Valid()
      && (started && index.rootPageId != INVALID_PAGE_ID ==>
            && leafPage.nextPageId == HeadId(rest, INVALID_PAGE_ID)
            && Chained(index.pages, rest, INVALID_PAGE_ID, index.cfg) && AllFilled(rest)
            && INVALID_PAGE_ID !in index.pages
            && ahead == (if cursor < |leafPage.slots| then leafPage.slots[cursor + 1..] else []) + Concat(rest))
    }

    constructor (index: BPlusTreeIndex, start: Bound, end: Bound)
      requires index.Valid()
      ensures Valid() && !started && this.index == index && startBound == start && endBound == end
    {
      this.index, startBound, endBound := index, start, end;
      leafPage := new LeafPage(0);
      cursor, started := 0, false;
      rest, ahead := [], [];
    }

    /** Follows the chain to the next leaf, whose first pair becomes current. */
    method LoadNextLeafPage() returns (loaded: bool)
      requires index.Valid() && leafPage.nextPageId == HeadId(rest, INVALID_PAGE_ID)
      requires Chained(index.pages, rest, INVALID_PAGE_ID, index.cfg) && AllFilled(rest)
      requires INVALID_PAGE_ID !in index.pages
      modifies this`leafPage, this`rest
      ensures loaded <==> old(rest) != []
      ensures !loaded ==> leafPage == old(leafPage) && rest == old(rest)
      ensures loaded ==>
                && fresh(leafPage) && leafPage.Valid() && leafPage.slots == old(rest)[0].kvs != []
                && rest == old(rest)[1..]
                && leafPage.nextPageId == HeadId(rest, INVALID_PAGE_ID)
                && Chained(index.pages, rest, INVALID_PAGE_ID, index.cfg) && AllFilled(rest)
                && Concat(old(rest)) == leafPage.slots + Concat(rest)
    {
      var nextPageId := leafPage.nextPageId;
      if nextPageId == INVALID_PAGE_ID {
        loaded := false;
      } else {
        leafPage := new LeafPage.Decode(index.pages[nextPageId]);
        rest := rest[1..];
        loaded := true;
      }
    }

    /** The next step along the chain, whatever the end bound says. */
    method Advance() returns (r: Option<KV<RecordId>>)
      requires Valid() && started && index.rootPageId != INVALID_PAGE_ID
      modifies this
      ensures Valid() && started && index.rootPageId == old(index.rootPageId)
      ensures old(ahead) == [] ==> r == None && ahead == []
      ensures old(ahead) != [] ==> r == Some(old(ahead)[0]) && ahead == old(ahead)[1..]
    {
      hide Chained, Concat;
      cursor := cursor + 1;
      if cursor >= leafPage.currentSize {
        NothingBehind(rest);
        var loaded := LoadNextLeafPage();
        if loaded {
          cursor := 0;
          r := Some(leafPage.slots[cursor]);
          ahead := leafPage.slots[1..] + Concat(rest);
        } else {
          r := None;
        }
      } else {
        r := Some(leafPage.slots[cursor]);
        ahead := ahead[1..];
      }
    }

    /** Positions the iterator on the first pair of its range. */
    method Start() returns (r: Option<RecordId>)
      requires Valid() && !started && index.rootPageId != INVALID_PAGE_ID
      modifies this
      ensures Valid() && started
      ensures var s := From(index.Pairs(), startBound);
              if s == [] then r == None else r == Some(s[0].val) && ahead == s[1..]
    {
      started := true;
      LeavesFilled(index.tree, index.height, EMPTY_KEY, None, index.cfg);
      if startBound.Unbounded? {
        StartAtFirst();
        r := Some(leafPage.slots[cursor].val);
      } else {
        r := StartAtKey();
      }
    }

    method StartAtKey() returns (r: Option<RecordId>)
      requires index.Valid() && !startBound.Unbounded? && index.rootPageId != INVALID_PAGE_ID
      requires AllFilled(Leaves(index.tree))
      modifies this`leafPage, this`cursor, this`rest, this`ahead
      ensures fresh(leafPage) && leafPage.Valid()
      ensures leafPage.nextPageId == HeadId(rest, INVALID_PAGE_ID)
      ensures Chained(index.pages, rest, INVALID_PAGE_ID, index.cfg) && AllFilled(rest)
      ensures INVALID_PAGE_ID !in index.pages
      ensures ahead == (if cursor < |leafPage.slots| then leafPage.slots[cursor + 1..] else []) + Concat(rest)
      ensures var s := From(index.Pairs(), startBound);
              if s == [] then r == None else r == Some(s[0].val) && ahead == s[1..]
    {
      hide WellFormed, Stored, Plug, LeavesBefore, Lo, Hi, Ordered, OrderedContext, ContextStored, Flat;
      hide FlatBefore, Ids, ContextIds, Chained, From, Leaves;
      hide AllBelow, NoneBelow, Reached, Owned, AllFilled, Sorted;
      index.ValidSearchable();
      var leafId, _, c, t := index.FindLeafPage(startBound.key);
      HoleFacts(index.pages, c, t, index.tree, index.height, index.cfg, startBound.key);
      leafPage := new LeafPage.Decode(index.pages[leafId]);
      rest := LeavesAfter(c);
      var idx := leafPage.NextClosest(startBound.key, startBound.Included?);
      if idx.Some? {
        cursor := idx.value;
        r := Some(leafPage.slots[cursor].val);
        StartInside(c, t, startBound, index.tree, cursor);
        ahead := t.kvs[cursor + 1..] + FlatAfter(c);
      } else {
        StartBehind(c, t, startBound, index.tree);
        r := StartInNextLeaf();
      }
    }

    /** No pair of the responsible leaf qualifies: the scan starts with the next leaf, if there is one. */
    method StartInNextLeaf() returns (r: Option<RecordId>)
      requires index.Valid() && leafPage.Valid() && leafPage.nextPageId == HeadId(rest, INVALID_PAGE_ID)
      requires Chained(index.pages, rest, INVALID_PAGE_ID, index.cfg) && AllFilled(rest)
      requires INVALID_PAGE_ID !in index.pages
      modifies this`leafPage, this`cursor, this`rest, this`ahead
      ensures (fresh(leafPage) || leafPage == old(leafPage)) && leafPage.Valid()
      ensures leafPage.nextPageId == HeadId(rest, INVALID_PAGE_ID)
      ensures Chained(index.pages, rest, INVALID_PAGE_ID, index.cfg) && AllFilled(rest)
      ensures ahead == (if cursor < |leafPage.slots| then leafPage.slots[cursor + 1..] else []) + Concat(rest)
      ensures var s := Concat(old(rest));
              if s == [] then r == None else r == Some(s[0].val) && ahead == s[1..]
    {
      hide Chained, AllFilled, BPlusTreeIndex.Valid;
      var loaded := LoadNextLeafPage();
      cursor := 0;
      r := if loaded then Some(leafPage.slots[cursor].val) else None;
      ahead := (if cursor < |leafPage.slots| then leafPage.slots[cursor + 1..] else []) + Concat(rest);
    }

    method StartAtFirst()
      requires index.Valid() && startBound.Unbounded? && index.rootPageId != INVALID_PAGE_ID
      requires AllFilled(Leaves(index.tree))
      modifies this`leafPage, this`cursor, this`rest, this`ahead
      ensures fresh(leafPage) && leafPage.Valid() && cursor == 0 && leafPage.slots != []
      ensures leafPage.nextPageId == HeadId(rest, INVALID_PAGE_ID)
      ensures Chained(index.pages, rest, INVALID_PAGE_ID, index.cfg) && AllFilled(rest)
      ensures INVALID_PAGE_ID !in index.pages
      ensures ahead == leafPage.slots[1..] + Concat(rest)
      ensures From(index.Pairs(), startBound) == [leafPage.slots[0]] + ahead
    {
      hide WellFormed, Stored, Leaves, Chained, Flat, From, Owned;
      leafPage := GetFirstLeafPage(index);
      FirstFacts(index.pages, index.tree, index.height, index.cfg);
      cursor := 0;
      rest := Leaves(index.tree)[1..];
      ahead := leafPage.slots[1..] + Concat(rest);
    }

    /** One call of `next`. */
    method Next() returns (r: Option<RecordId>)
      requires Valid()
      modifies this
      ensures Valid()
      ensures index.rootPageId == INVALID_PAGE_ID ==> r == None
      ensures index.rootPageId != INVALID_PAGE_ID ==> started
      ensures index.rootPageId != INVALID_PAGE_ID && old(started) ==>
                && ahead == (if old(ahead) == [] then [] else old(ahead)[1..])
                && r == (if old(ahead) != [] && BeforeEnd(endBound, old(ahead)[0].key)
                         then Some(old(ahead)[0].val) else None)
      ensures index.rootPageId != INVALID_PAGE_ID && !old(started) ==>
                var s := From(index.Pairs(), startBound);
                if s == [] then r == None else r == Some(s[0].val) && ahead == s[1..]
    {
      if index.rootPageId == INVALID_PAGE_ID {
        return None;
      }
      if started {
        var kv := Advance();
        match kv {
          case None => r := None;
          case Some(x) =>
            match endBound {
              case Included(end) => r := if x.key <= end then Some(x.val) else None;
              case Excluded(end) => r := if x.key < end then Some(x.val) else None;
              case Unbounded => r := Some(x.val);
            }
        }
      } else {
        r := Start();
      }
    }

    /** The consumer loop: pull until the first `None`. */
    method Drain() returns (rids: seq<RecordId>)
      requires Valid() && !started
      modifies this
      ensures rids == Rids(Yields(index.Pairs(), startBound, endBound))
    {
      hide TreeIndexIterator.Valid, BPlusTreeIndex.Valid;
      rids := [];
      var r := Next();
      ghost var s := From(index.Pairs(), startBound);
      if r.Some? {
        ghost var done := [s[0]];
        rids := [r.value];
        r := Next();
        ghost var todo := s[1..];
        while r.Some?
          invariant Valid() && started && index.rootPageId != INVALID_PAGE_ID
          invariant rids == Rids(done)
          invariant done + While(todo, endBound) == Yields(index.Pairs(), startBound, endBound)
          invariant r == if todo != [] && BeforeEnd(endBound, todo[0].key) then Some(todo[0].val) else None
          invariant ahead == if todo == [] then [] else todo[1..]
          decreases |todo|
        {
          rids := rids + [r.value];
          assert done + ([todo[0]] + While(todo[1..], endBound)) == done + [todo[0]] + While(todo[1..], endBound);
          done := done + [todo[0]];
          todo := todo[1..];
          r := Next();
        }
        assert While(todo, endBound) == [];
        assert done + [] == done;
      } else {
        assert Yields(index.Pairs(), startBound, endBound) == [];
      }
    }
  }

  lemma NothingBehind(rest: seq<Tree>)
    requires AllFilled(rest)
    ensures Concat(rest) == [] <==> rest == []
  {}

  /** Descends along the first slots to the leftmost leaf. */
  method GetFirstLeafPage(index: BPlusTreeIndex) returns (leaf: LeafPage)
    requires index.Valid() && index.rootPageId != INVALID_PAGE_ID
    ensures fresh(leaf) && leaf.Valid() && Leaves(index.tree) != []
    ensures Leaves(index.tree)[0].id in index.pages
    ensures leaf.Value() == index.pages[Leaves(index.tree)[0].id]
  {
    var curr := index.FetchTreePage(index.rootPageId);
    ghost var s, next, h, lo, hi := index.tree, INVALID_PAGE_ID, index.height, EMPTY_KEY, None;
    LeafChain(index.pages, s, next, h, lo, hi, index.cfg);
    while curr.InternalObj?
      invariant Stored(index.pages, s, next, index.cfg) && Ordered(s, h, lo, hi, index.cfg) && Least(s) <= Size(s)
      invariant FirstLeaf(s) == FirstLeaf(index.tree)
      invariant fresh(ObjectOf(curr)) && ValidPage(curr) && ValueOf(curr) == index.pages[s.id]
      decreases h
    {
      ghost var kid := s.kids[0];
      assert KidsStored(index.pages, s, next, index.cfg) && ListStored(index.pages, s.kids, next, index.cfg);
      assert Stored(index.pages, kid, FirstOf(s.kids[1..], next), index.cfg);
      assert curr.inner.slots[0].val == kid.id;
      next := FirstOf(s.kids[1..], next);
      hi := KidHi(s.keys, 0, hi);
      s, h := kid, h - 1;
      var nextPageId := curr.inner.slots[0].val;
      curr := index.FetchTreePage(nextPageId);
    }
    leaf := curr.leaf;
  }

  /** What a descent for `key` tells about its leaf and the chain behind it. */
  lemma HoleFacts(pages: Pages, c: Context, t: Tree, tree: Tree, h: nat, cfg: Config, key: Key)
    requires Plug(c, t) == tree && t.LeafNode? && Reached(pages, c, t, 0, cfg, key)
    requires WellFormed(tree, h, cfg) && Stored(pages, tree, INVALID_PAGE_ID, cfg)
    requires AllFilled(Leaves(tree))
    ensures t.id in pages && pages[t.id] == Leaf(t.kvs, cfg.leafMax, HeadId(LeavesAfter(c), INVALID_PAGE_ID))
    ensures Chained(pages, LeavesAfter(c), INVALID_PAGE_ID, cfg) && AllFilled(LeavesAfter(c))
    ensures INVALID_PAGE_ID !in pages
    ensures Flat(tree) == FlatBefore(c) + t.kvs + FlatAfter(c)
    ensures AllBelow(FlatBefore(c), key) && NoneBelow(FlatAfter(c), Some(key + 1))
    ensures Sorted(t.kvs)
  {
    ChainFromHole(pages, c, t, tree, h, cfg);
    LeafPlace(c, t, 0, cfg, key);
    LeafIsSorted(t, 0, Lo(c), Hi(c), cfg);
    FilledAfter(c, t);
  }

  /** The leftmost leaf and the chain behind it make up the whole tree. */
  lemma FirstFacts(pages: Pages, tree: Tree, h: nat, cfg: Config)
    requires WellFormed(tree, h, cfg) && Stored(pages, tree, INVALID_PAGE_ID, cfg) && Owned(pages, Ids(tree))
    requires AllFilled(Leaves(tree))
    ensures Leaves(tree) != []
    ensures var t, rest := Leaves(tree)[0], Leaves(tree)[1..];
            && t.LeafNode? && t.kvs != [] && t.id in pages
            && pages[t.id] == Leaf(t.kvs, cfg.leafMax, HeadId(rest, INVALID_PAGE_ID))
            && Chained(pages, rest, INVALID_PAGE_ID, cfg) && AllFilled(rest)
            && INVALID_PAGE_ID !in pages
            && From(Flat(tree), Unbounded) == [t.kvs[0]] + (t.kvs[1..] + Concat(rest))
  {
    hide WellFormed, Stored, Ids, From, Leaves, Chained, Flat;
    TreeChain(pages, tree, h, cfg);
    LeavesExist(tree, h, cfg);
    var t, rest := Leaves(tree)[0], Leaves(tree)[1..];
    assert [] + [t] + rest == Leaves(tree);
    ChainedAt(pages, [], t, rest, INVALID_PAGE_ID, cfg);
    FlatHead(tree);
    FromSplit([], Flat(tree), Unbounded);
    assert [] + Flat(tree) == Flat(tree);
    assert Flat(tree) == [t.kvs[0]] + (t.kvs[1..] + Concat(rest));
  }

  lemma LeavesExist(tree: Tree, h: nat, cfg: Config)
    requires WellFormed(tree, h, cfg)
    ensures Leaves(tree) != []
  {
    OrderedFlat(tree, h, EMPTY_KEY, None, cfg);
  }

  lemma FlatHead(tree: Tree)
    requires Leaves(tree) != [] && Leaves(tree)[0].LeafNode?
    ensures Flat(tree) == Leaves(tree)[0].kvs + Concat(Leaves(tree)[1..])
  {}

  lemma FilledAfter(c: Context, t: Tree)
    requires AllFilled(Leaves(Plug(c, t)))
    ensures AllFilled(LeavesAfter(c))
  {
    hide Plug, Leaves, LeavesBefore, LeavesAfter;
    PlugLeaves(c, t);
    assert forall i | 0 <= i < |LeavesAfter(c)| ::
        LeavesAfter(c)[i] == Leaves(Plug(c, t))[|LeavesBefore(c)| + |Leaves(t)| + i];
  }

  /** The first pair of the range sits in the leaf the descent found. */
  lemma StartInside(c: Context, t: Tree, start: Bound, tree: Tree, i: nat)
    requires !start.Unbounded? && t.LeafNode? && i < |t.kvs| && Sorted(t.kvs)
    requires Flat(tree) == FlatBefore(c) + t.kvs + FlatAfter(c)
    requires AllBelow(FlatBefore(c), start.key) && NoneBelow(FlatAfter(c), Some(start.key + 1))
    requires AfterStart(start, t.kvs[i].key)
    requires forall j | 0 <= j < i :: !AfterStart(start, t.kvs[j].key)
    ensures From(Flat(tree), start) == [t.kvs[i]] + (t.kvs[i + 1..] + FlatAfter(c))
  {
    hide Flat, FlatBefore, FlatAfter, From;
    var a, b := FlatBefore(c) + t.kvs[..i], t.kvs[i..] + FlatAfter(c);
    assert Flat(tree) == a + b;
    FromSplit(a, b, start);
    assert b == [t.kvs[i]] + (t.kvs[i + 1..] + FlatAfter(c));
  }

  /** No pair of the leaf is in the range: the range is whatever follows the leaf. */
  lemma StartBehind(c: Context, t: Tree, start: Bound, tree: Tree)
    requires !start.Unbounded? && t.LeafNode?
    requires Flat(tree) == FlatBefore(c) + t.kvs + FlatAfter(c)
    requires AllBelow(FlatBefore(c), start.key) && NoneBelow(FlatAfter(c), Some(start.key + 1))
    requires forall j | 0 <= j < |t.kvs| :: !AfterStart(start, t.kvs[j].key)
    ensures From(Flat(tree), start) == FlatAfter(c)
  {
    hide Flat, FlatBefore, FlatAfter, From;
    FromSplit(FlatBefore(c) + t.kvs, FlatAfter(c), start);
  }

  lemma TwoPairs(s: seq<KV<RecordId>>, a: KV<RecordId>, b: KV<RecordId>)
    requires Sorted(s) && ToMap(s) == map[a.key := a.val, b.key := b.val] && a.key < b.key
    ensures s == [a, b]
  {
    forall i | 0 <= i < |s| ensures s[i] == a || s[i] == b { ToMapAt(s, i); }
    ToMapFinds(s, a.key);
    ToMapFinds(s, b.key);
    var i :| 0 <= i < |s| && s[i].key == a.key;
    var j :| 0 <= j < |s| && s[j].key == b.key;
    assert |s| <= 2;
  }

  /** An index of the keys 1 and 5, and a scan of the range (2, 4): it hands out the record of 5. */
  method OvershootRuns() returns (rids: seq<RecordId>)
    ensures rids == [RecordId(1, 1)]
  {
    hide BPlusTreeIndex.Valid, ToMap, Yields, Select, Sorted;
    var a, b := KV(1, RecordId(1, 0)), KV(5, RecordId(1, 1));
    var index := new BPlusTreeIndex(4, 4);
    index.Insert(a.key, a.val);
    index.Insert(b.key, b.val);
    PairsSorted(index);
    TwoPairs(index.Pairs(), a, b);
    ScanOvershoots();
    var scan := new TreeIndexIterator(index, Excluded(2), Excluded(4));
    rids := scan.Drain();
  }

  lemma PairsSorted(index: BPlusTreeIndex)
    requires index.Valid()
    ensures Sorted(index.Pairs())
  {
    if index.rootPageId != INVALID_PAGE_ID { TreeSorted(index.tree, index.height, index.cfg); }
  }
}
