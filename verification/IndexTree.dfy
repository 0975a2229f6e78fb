/**
 The shape of a B+ tree as a value: what the linked pages of an index add up to.
 A `Context` is a tree with one subtree missing; its frames are the pages on the path from the root
 that a descent leaves behind, nearest first.
 */
module IndexTree {
  import opened Prelude
  import opened KeyValues

  datatype Tree =
    | LeafNode(id: PageId, kvs: seq<KV<RecordId>>)
    | InnerNode(id: PageId, keys: seq<Key>, kids: seq<Tree>)

  datatype Config = Config(internalMax: nat, leafMax: nat)

  // ---- contents -------------------------------------------------------------------------------

  /** The leaves, left to right. */
  ghost function Leaves(t: Tree): seq<Tree>
    decreases t, 1
  {
    match t
    case LeafNode(_, _) => [t]
    case InnerNode(_, _, kids) => LeavesAll(kids)
  }

  ghost function LeavesAll(ts: seq<Tree>): seq<Tree>
    decreases ts, 0
  {
    if ts == [] then [] else Leaves(ts[0]) + LeavesAll(ts[1..])
  }

  ghost function Concat(leaves: seq<Tree>): seq<KV<RecordId>> {
    if leaves == [] then []
    else (if leaves[0].LeafNode? then leaves[0].kvs else []) + Concat(leaves[1..])
  }

  /** All pairs of the tree, left to right. */
  ghost function Flat(t: Tree): seq<KV<RecordId>> { Concat(Leaves(t)) }

  ghost function FlatAll(ts: seq<Tree>): seq<KV<RecordId>> { Concat(LeavesAll(ts)) }

  lemma {:induction false} LeavesAllAppend(a: seq<Tree>, b: seq<Tree>)
    ensures LeavesAll(a + b) == LeavesAll(a) + LeavesAll(b)
  {
    if a == [] {
      assert a + b == b;
    } else {
      assert (a + b)[1..] == a[1..] + b;
      LeavesAllAppend(a[1..], b);
    }
  }

  lemma {:induction false} ConcatAppend(a: seq<Tree>, b: seq<Tree>)
    ensures Concat(a + b) == Concat(a) + Concat(b)
  {
    if a == [] {
      assert a + b == b;
    } else {
      assert (a + b)[1..] == a[1..] + b;
      ConcatAppend(a[1..], b);
    }
  }

  lemma FlatAllAppend(a: seq<Tree>, b: seq<Tree>)
    ensures FlatAll(a + b) == FlatAll(a) + FlatAll(b)
  {
    LeavesAllAppend(a, b);
    ConcatAppend(LeavesAll(a), LeavesAll(b));
  }

  lemma FlatLeaf(t: Tree)
    requires t.LeafNode?
    ensures Flat(t) == t.kvs
  {
    assert Leaves(t) == [t] && [t][1..] == [];
    assert Concat([t]) == t.kvs + Concat([t][1..]);
  }

  lemma LeavesAllOne(t: Tree)
    ensures LeavesAll([t]) == Leaves(t) && FlatAll([t]) == Flat(t)
  {
    assert [t][1..] == [];
  }

  /** Splitting a list of subtrees around one of them splits its leaves and its pairs. */
  lemma Around(l: seq<Tree>, t: Tree, r: seq<Tree>)
    ensures LeavesAll(l + [t] + r) == LeavesAll(l) + Leaves(t) + LeavesAll(r)
    ensures FlatAll(l + [t] + r) == FlatAll(l) + Flat(t) + FlatAll(r)
  {
    LeavesAllAppend(l + [t], r);
    LeavesAllAppend(l, [t]);
    FlatAllAppend(l + [t], r);
    FlatAllAppend(l, [t]);
    LeavesAllOne(t);
  }

  // ---- order and occupancy --------------------------------------------------------------------

  /** Keys strictly below an upper bound; no bound means unlimited. */
  ghost predicate Below(k: Key, hi: Option<Key>) { hi.Some? ==> k < hi.value }

  ghost predicate Within<V>(s: seq<KV<V>>, lo: Key, hi: Option<Key>) {
    forall i | 0 <= i < |s| :: lo <= s[i].key && Below(s[i].key, hi)
  }

  /** Lower and upper key bound of subtree `i` under separators `keys`. */
  ghost function KidLo(keys: seq<Key>, i: nat, lo: Key): Key
    requires i < |keys|
  { if i == 0 then lo else keys[i] }

  ghost function KidHi(keys: seq<Key>, i: nat, hi: Option<Key>): Option<Key>
    requires i < |keys|
  { if i + 1 == |keys| then hi else Some(keys[i + 1]) }

  /** Separators 1.. rise strictly inside the page's own bounds; slot zero is at most the lower bound. */
  ghost predicate KeysOk(keys: seq<Key>, lo: Key, hi: Option<Key>) {
    && |keys| > 0 && keys[0] <= lo
    && (forall i | 1 <= i < |keys| :: lo < keys[i] && Below(keys[i], hi))
    && (forall i, j | 1 <= i < j < |keys| :: keys[i] < keys[j])
  }

  ghost function Size(t: Tree): nat { if t.LeafNode? then |t.kvs| else |t.kids| }

  ghost function MaxSize(t: Tree, cfg: Config): nat { if t.LeafNode? then cfg.leafMax else cfg.internalMax }

  /** Fewest entries a usable page has, whatever its occupancy rule. */
  ghost function Least(t: Tree): nat { if t.LeafNode? then 1 else 2 }

  /** Occupancy of a page other than the root. */
  ghost predicate Fits(t: Tree, cfg: Config) {
    && Least(t) <= Size(t)
    && MaxSize(t, cfg) / 2 <= Size(t) <= MaxSize(t, cfg)
  }

  /**
   Order, balance and occupancy below the top page of `t`: every leaf lies `h` levels down, separators
   bound their subtrees, and every page but the top one is filled between half and full.
   */
  ghost predicate Ordered(t: Tree, h: nat, lo: Key, hi: Option<Key>, cfg: Config)
    decreases t
  {
    match t
    case LeafNode(_, kvs) => h == 0 && Sorted(kvs) && Within(kvs, lo, hi)
    case InnerNode(_, keys, kids) =>
      && h > 0
      && |keys| == |kids|
      && KeysOk(keys, lo, hi)
      && (forall i | 0 <= i < |kids| ::
            Fits(kids[i], cfg) && Ordered(kids[i], h - 1, KidLo(keys, i, lo), KidHi(keys, i, hi), cfg))
  }

  /** A whole tree: the root may be less than half full. */
  ghost predicate WellFormed(t: Tree, h: nat, cfg: Config) {
    Ordered(t, h, EMPTY_KEY, None, cfg) && Least(t) <= Size(t) <= MaxSize(t, cfg)
  }

  /** The pairs of an ordered tree are sorted and within its bounds, and no usable subtree is empty. */
  lemma {:induction false} OrderedFlat(t: Tree, h: nat, lo: Key, hi: Option<Key>, cfg: Config)
    requires Ordered(t, h, lo, hi, cfg)
    ensures Sorted(Flat(t)) && Within(Flat(t), lo, hi)
    ensures Least(t) <= Size(t) ==> Flat(t) != [] && Leaves(t) != []
    decreases t, 1
  {
    match t
    case LeafNode(_, kvs) =>
      FlatLeaf(t);
    case InnerNode(_, keys, kids) =>
      OrderedFlatKids(t, h, lo, hi, cfg, |kids|);
      assert kids[..|kids|] == kids;
  }

  lemma {:induction false} OrderedFlatKids(t: Tree, h: nat, lo: Key, hi: Option<Key>, cfg: Config, n: nat)
    requires t.InnerNode? && Ordered(t, h, lo, hi, cfg) && n <= |t.kids|
    ensures Sorted(FlatAll(t.kids[..n]))
    ensures Within(FlatAll(t.kids[..n]), lo, if n == 0 then hi else KidHi(t.keys, n - 1, hi))
    ensures n > 0 ==> FlatAll(t.kids[..n]) != [] && LeavesAll(t.kids[..n]) != []
    decreases t, 0, n
  {
    NoKids();
    if n > 0 {
      hide Ordered, Fits, Sorted, Within, KeysOk, FlatAll, Flat, LeavesAll, Leaves, Concat;
      assert t.kids[..0] == [];
      OrderedFlatKids(t, h, lo, hi, cfg, n - 1);
      var kid := t.kids[n - 1];
      KidOrdered(t, h, lo, hi, cfg, n - 1);
      OrderedFlat(kid, h - 1, KidLo(t.keys, n - 1, lo), KidHi(t.keys, n - 1, hi), cfg);
      hide KidHi, KidLo;
      assert t.kids[..n] == t.kids[..n - 1] + [kid];
      FlatAllAppend(t.kids[..n - 1], [kid]);
      LeavesAllAppend(t.kids[..n - 1], [kid]);
      LeavesAllOne(kid);
      KidBehind(FlatAll(t.kids[..n - 1]), Flat(kid), t.keys, n - 1, lo, hi);
    }
  }

  lemma NoKids()
    ensures FlatAll([]) == []
  {}

  lemma KidOrdered(t: Tree, h: nat, lo: Key, hi: Option<Key>, cfg: Config, i: nat)
    requires t.InnerNode? && Ordered(t, h, lo, hi, cfg) && i < |t.kids|
    ensures h > 0 && |t.keys| == |t.kids| && KeysOk(t.keys, lo, hi) && Least(t.kids[i]) <= Size(t.kids[i])
    ensures Ordered(t.kids[i], h - 1, KidLo(t.keys, i, lo), KidHi(t.keys, i, hi), cfg)
  {}

  /** The pairs of subtree i go behind those of the subtrees before it. */
  lemma KidBehind(before: seq<KV<RecordId>>, kvs: seq<KV<RecordId>>, keys: seq<Key>, i: nat, lo: Key, hi: Option<Key>)
    requires i < |keys| && KeysOk(keys, lo, hi) && Sorted(before) && Sorted(kvs)
    requires if i == 0 then before == [] else Within(before, lo, KidHi(keys, i - 1, hi))
    requires Within(kvs, KidLo(keys, i, lo), KidHi(keys, i, hi))
    ensures Sorted(before + kvs) && Within(before + kvs, lo, KidHi(keys, i, hi))
  {
    if i > 0 {
      assert KidHi(keys, i - 1, hi) == Some(keys[i]) && KidLo(keys, i, lo) == keys[i];
      assert lo < keys[i] && Below(keys[i], KidHi(keys, i, hi));
    }
  }

  /** The lower bound of a subtree may rise to any key that none of its pairs is below. */
  lemma {:induction false} RaiseLo(t: Tree, h: nat, lo: Key, hi: Option<Key>, cfg: Config, lo': Key)
    requires Ordered(t, h, lo, hi, cfg) && lo <= lo'
    requires t.InnerNode? || Size(t) >= Least(t)
    requires forall i | 0 <= i < |Flat(t)| :: lo' <= Flat(t)[i].key
    ensures Ordered(t, h, lo', hi, cfg)
    decreases t
  {
    match t
    case LeafNode(_, kvs) =>
      FlatLeaf(t);
    case InnerNode(_, keys, kids) =>
      var kid := kids[0];
      assert kids == [kid] + kids[1..];
      FlatAllAppend([kid], kids[1..]);
      LeavesAllOne(kid);
      OrderedFlat(kid, h - 1, lo, KidHi(keys, 0, hi), cfg);
      assert forall i | 0 <= i < |Flat(kid)| :: Flat(kid)[i] == Flat(t)[i];
      RaiseLo(kid, h - 1, lo, KidHi(keys, 0, hi), cfg, lo');
      assert lo' <= Flat(kid)[0].key;
      forall i | 1 <= i < |keys| ensures lo' < keys[i] {
        assert Below(Flat(kid)[0].key, KidHi(keys, 0, hi));
      }
  }

  /** The upper bound of a subtree may always rise. */
  lemma {:induction false} RaiseHi(t: Tree, h: nat, lo: Key, hi: Option<Key>, cfg: Config, hi': Option<Key>)
    requires Ordered(t, h, lo, hi, cfg)
    requires hi' == None || (hi.Some? && hi.value <= hi'.value)
    ensures Ordered(t, h, lo, hi', cfg)
    decreases t
  {
    if t.InnerNode? {
      var n := |t.kids| - 1;
      RaiseHi(t.kids[n], h - 1, KidLo(t.keys, n, lo), hi, cfg, hi');
    }
  }

  // ---- contexts -------------------------------------------------------------------------------

  datatype Context = Top | Frame(up: Context, id: PageId, keys: seq<Key>, left: seq<Tree>, right: seq<Tree>)

  ghost function Plug(c: Context, t: Tree): Tree
    decreases c
  {
    match c
    case Top => t
    case Frame(up, id, keys, l, r) => Plug(up, InnerNode(id, keys, l + [t] + r))
  }

  ghost function Lo(c: Context): Key {
    match c
    case Top => EMPTY_KEY
    case Frame(up, _, keys, l, _) => if 0 < |l| < |keys| then keys[|l|] else Lo(up)
  }

  ghost function Hi(c: Context): Option<Key> {
    match c
    case Top => None
    case Frame(up, _, keys, l, _) => if |l| + 1 < |keys| then Some(keys[|l| + 1]) else Hi(up)
  }

  ghost function LeavesBefore(c: Context): seq<Tree> {
    if c.Top? then [] else LeavesBefore(c.up) + LeavesAll(c.left)
  }

  ghost function LeavesAfter(c: Context): seq<Tree> {
    if c.Top? then [] else LeavesAll(c.right) + LeavesAfter(c.up)
  }

  ghost function FlatBefore(c: Context): seq<KV<RecordId>> { Concat(LeavesBefore(c)) }

  ghost function FlatAfter(c: Context): seq<KV<RecordId>> { Concat(LeavesAfter(c)) }

  /** Page ids of the frames, root first. */
  function Path(c: Context): seq<PageId> { if c.Top? then [] else Path(c.up) + [c.id] }

  lemma ContextSplit(c: Context)
    requires c.Frame?
    ensures FlatBefore(c) == FlatBefore(c.up) + FlatAll(c.left)
    ensures FlatAfter(c) == FlatAll(c.right) + FlatAfter(c.up)
  {
    ConcatAppend(LeavesBefore(c.up), LeavesAll(c.left));
    ConcatAppend(LeavesAll(c.right), LeavesAfter(c.up));
  }

  lemma Reassociate<T>(a: seq<T>, l: seq<T>, m: seq<T>, r: seq<T>, b: seq<T>)
    ensures a + (l + m + r) + b == (a + l) + m + (r + b)
  {}

  lemma {:induction false} PlugLeaves(c: Context, t: Tree)
    ensures Leaves(Plug(c, t)) == LeavesBefore(c) + Leaves(t) + LeavesAfter(c)
    ensures Flat(Plug(c, t)) == FlatBefore(c) + Flat(t) + FlatAfter(c)
    decreases c
  {
    match c
    case Top =>
    case Frame(up, id, keys, l, r) =>
      var p := InnerNode(id, keys, l + [t] + r);
      PlugLeaves(up, p);
      Around(l, t, r);
      assert Leaves(p) == LeavesAll(l) + Leaves(t) + LeavesAll(r);
      Reassociate(LeavesBefore(up), LeavesAll(l), Leaves(t), LeavesAll(r), LeavesAfter(up));
      ContextSplit(c);
      assert Flat(p) == FlatAll(l) + Flat(t) + FlatAll(r);
      Reassociate(FlatBefore(up), FlatAll(l), Flat(t), FlatAll(r), FlatAfter(up));
  }

  /** Filling the hole with an ordered subtree of height `h` that fits makes a well-formed tree. */
  ghost predicate OrderedContext(c: Context, h: nat, cfg: Config)
    decreases c
  {
    c.Top? || (
      var n := |c.left| + 1 + |c.right|;
      && OrderedContext(c.up, h + 1, cfg)
      && |c.keys| == n
      && KeysOk(c.keys, Lo(c.up), Hi(c.up))
      && 2 <= n <= cfg.internalMax && (c.up.Frame? ==> cfg.internalMax / 2 <= n)
      && (forall i | 0 <= i < |c.left| ::
            Fits(c.left[i], cfg)
            && Ordered(c.left[i], h, KidLo(c.keys, i, Lo(c.up)), KidHi(c.keys, i, Hi(c.up)), cfg))
      && (forall i | 0 <= i < |c.right| ::
            Fits(c.right[i], cfg)
            && Ordered(c.right[i], h, KidLo(c.keys, |c.left| + 1 + i, Lo(c.up)),
                       KidHi(c.keys, |c.left| + 1 + i, Hi(c.up)), cfg)))
  }

  /** Occupancy at the hole: the root rule when nothing is above. */
  ghost predicate FitsHole(c: Context, t: Tree, cfg: Config) {
    if c.Top? then Least(t) <= Size(t) <= MaxSize(t, cfg) else Fits(t, cfg)
  }

  lemma ZipUp(c: Context, t: Tree, h: nat, cfg: Config)
    requires c.Frame? && OrderedContext(c, h, cfg)
    requires Ordered(t, h, Lo(c), Hi(c), cfg) && Fits(t, cfg)
    ensures Ordered(InnerNode(c.id, c.keys, c.left + [t] + c.right), h + 1, Lo(c.up), Hi(c.up), cfg)
    ensures FitsHole(c.up, InnerNode(c.id, c.keys, c.left + [t] + c.right), cfg)
  {
    var kids := c.left + [t] + c.right;
    forall i | 0 <= i < |kids|
      ensures Fits(kids[i], cfg)
      ensures Ordered(kids[i], h, KidLo(c.keys, i, Lo(c.up)), KidHi(c.keys, i, Hi(c.up)), cfg)
    {
      if i > |c.left| {
        assert kids[i] == c.right[i - |c.left| - 1];
        assert i == |c.left| + 1 + (i - |c.left| - 1);
      }
    }
  }

  lemma {:induction false} PlugWellFormed(c: Context, t: Tree, h: nat, cfg: Config) returns (h': nat)
    requires OrderedContext(c, h, cfg)
    requires Ordered(t, h, Lo(c), Hi(c), cfg) && FitsHole(c, t, cfg)
    ensures WellFormed(Plug(c, t), h', cfg)
    decreases c
  {
    if c.Top? {
      h' := h;
    } else {
      ZipUp(c, t, h, cfg);
      h' := PlugWellFormed(c.up, InnerNode(c.id, c.keys, c.left + [t] + c.right), h + 1, cfg);
    }
  }

  /** Stepping down into subtree `i`. */
  ghost function Down(c: Context, t: Tree, i: nat): Context
    requires t.InnerNode? && i < |t.kids|
  {
    Frame(c, t.id, t.keys, t.kids[..i], t.kids[i + 1..])
  }

  lemma ZipDown(c: Context, t: Tree, h: nat, cfg: Config, i: nat)
    requires OrderedContext(c, h, cfg)
    requires Ordered(t, h, Lo(c), Hi(c), cfg) && FitsHole(c, t, cfg)
    requires t.InnerNode? && i < |t.kids|
    ensures h > 0 && OrderedContext(Down(c, t, i), h - 1, cfg)
    ensures Plug(Down(c, t, i), t.kids[i]) == Plug(c, t)
    ensures Lo(Down(c, t, i)) == KidLo(t.keys, i, Lo(c)) && Hi(Down(c, t, i)) == KidHi(t.keys, i, Hi(c))
    ensures Ordered(t.kids[i], h - 1, Lo(Down(c, t, i)), Hi(Down(c, t, i)), cfg) && Fits(t.kids[i], cfg)
  {
    assert t.kids[..i] + [t.kids[i]] + t.kids[i + 1..] == t.kids;
  }

  ghost predicate AllBelow<V>(s: seq<KV<V>>, lo: Key) {
    forall i | 0 <= i < |s| :: s[i].key < lo
  }

  ghost predicate NoneBelow<V>(s: seq<KV<V>>, hi: Option<Key>) {
    s != [] ==> hi.Some? && forall i | 0 <= i < |s| :: hi.value <= s[i].key
  }

  /** Everything before the hole is below its lower bound, everything after is at or above its upper bound. */
  lemma {:induction false} ContextBounds(c: Context, h: nat, cfg: Config)
    requires OrderedContext(c, h, cfg)
    ensures AllBelow(FlatBefore(c), Lo(c)) && NoneBelow(FlatAfter(c), Hi(c))
    decreases c
  {
    if c.Frame? {
      ContextBounds(c.up, h + 1, cfg);
      ContextSplit(c);
      KidsBelow(c, h, cfg, |c.left|);
      assert c.left[..|c.left|] == c.left;
      KidsAbove(c, h, cfg, 0);
      assert c.right[0..] == c.right;
      assert Lo(c.up) <= Lo(c);
      assert |c.left| + 1 < |c.keys| ==> Below(c.keys[|c.left| + 1], Hi(c.up));
      assert NoneBelow(FlatAll(c.right), Hi(c));
      assert NoneBelow(FlatAfter(c.up), Hi(c));
    } else {
      assert FlatAfter(c) == [] && FlatBefore(c) == [];
    }
  }

  lemma {:induction false} KidsBelow(c: Context, h: nat, cfg: Config, n: nat)
    requires c.Frame? && OrderedContext(c, h, cfg) && n <= |c.left|
    ensures forall i | 0 <= i < |FlatAll(c.left[..n])| :: Lo(c.up) <= FlatAll(c.left[..n])[i].key < Lo(c)
    decreases n
  {
    if n > 0 {
      KidsBelow(c, h, cfg, n - 1);
      var kid := c.left[n - 1];
      OrderedFlat(kid, h, KidLo(c.keys, n - 1, Lo(c.up)), KidHi(c.keys, n - 1, Hi(c.up)), cfg);
      assert c.left[..n] == c.left[..n - 1] + [kid];
      FlatAllAppend(c.left[..n - 1], [kid]);
      LeavesAllOne(kid);
    }
  }

  lemma {:induction false} KidsAbove(c: Context, h: nat, cfg: Config, n: nat)
    requires c.Frame? && OrderedContext(c, h, cfg) && n <= |c.right|
    ensures FlatAll(c.right[n..]) != [] ==> n < |c.right|
    ensures n < |c.right| ==> Within(FlatAll(c.right[n..]), c.keys[|c.left| + 1 + n], Hi(c.up))
    decreases |c.right| - n
  {
    if n < |c.right| {
      KidsAbove(c, h, cfg, n + 1);
      var kid := c.right[n];
      var i := |c.left| + 1 + n;
      OrderedFlat(kid, h, KidLo(c.keys, i, Lo(c.up)), KidHi(c.keys, i, Hi(c.up)), cfg);
      assert Within(Flat(kid), c.keys[i], Hi(c.up));
      assert c.right[n..] == [kid] + c.right[n + 1..];
      FlatAllAppend([kid], c.right[n + 1..]);
      LeavesAllOne(kid);
      assert Within(FlatAll(c.right[n + 1..]), c.keys[i], Hi(c.up));
    }
  }

  // ---- splitting ------------------------------------------------------------------------------

  ghost function LeftHalf(t: Tree): Tree {
    var mid := Size(t) / 2;
    match t
    case LeafNode(id, kvs) => LeafNode(id, kvs[..mid])
    case InnerNode(id, keys, kids) =>
      InnerNode(id, if mid <= |keys| then keys[..mid] else [], kids[..mid])
  }

  ghost function RightHalf(t: Tree, q: PageId): Tree {
    var mid := Size(t) / 2;
    match t
    case LeafNode(_, kvs) => LeafNode(q, kvs[mid..])
    case InnerNode(_, keys, kids) =>
      InnerNode(q, if mid <= |keys| then keys[mid..] else [], kids[mid..])
  }

  /** Halving an overfull page: the two halves in order, around the least key of the right one. */
  ghost predicate Halved(t: Tree, tl: Tree, tr: Tree, h: nat, lo: Key, hi: Option<Key>, cfg: Config) {
    && Fits(tl, cfg) && Fits(tr, cfg)
    && Flat(tl) + Flat(tr) == Flat(t)
    && Flat(tr) != []
    && var m := Flat(tr)[0].key;
    && lo < m && Below(m, hi)
    && Ordered(tl, h, lo, Some(m), cfg)
    && Ordered(tr, h, m, hi, cfg)
  }

  lemma HalvesOrdered(t: Tree, q: PageId, h: nat, lo: Key, hi: Option<Key>, cfg: Config)
    requires Ordered(t, h, lo, hi, cfg) && Size(t) == MaxSize(t, cfg) + 1
    requires cfg.internalMax >= 3 && cfg.leafMax >= 1
    ensures Halved(t, LeftHalf(t), RightHalf(t, q), h, lo, hi, cfg)
    ensures Size(LeftHalf(t)) == Size(t) / 2 && Size(LeftHalf(t)) + Size(RightHalf(t, q)) == Size(t)
  {
    if t.LeafNode? { LeafHalves(t, q, h, lo, hi, cfg); } else { InnerHalves(t, q, h, lo, hi, cfg); }
  }

  lemma LeafHalves(t: Tree, q: PageId, h: nat, lo: Key, hi: Option<Key>, cfg: Config)
    requires t.LeafNode? && Ordered(t, h, lo, hi, cfg) && Size(t) == cfg.leafMax + 1
    requires cfg.leafMax >= 1
    ensures Halved(t, LeftHalf(t), RightHalf(t, q), h, lo, hi, cfg)
  {
    var mid := Size(t) / 2;
    var tl, tr := LeftHalf(t), RightHalf(t, q);
    FlatLeaf(tl);
    FlatLeaf(tr);
    FlatLeaf(t);
    assert t.kvs[..mid] + t.kvs[mid..] == t.kvs;
    assert lo <= t.kvs[0].key < t.kvs[mid].key;
  }

  lemma InnerHalves(t: Tree, q: PageId, h: nat, lo: Key, hi: Option<Key>, cfg: Config)
    requires t.InnerNode? && Ordered(t, h, lo, hi, cfg) && Size(t) == cfg.internalMax + 1
    requires cfg.internalMax >= 3
    ensures Halved(t, LeftHalf(t), RightHalf(t, q), h, lo, hi, cfg)
  {
    var mid := Size(t) / 2;
    var tl, tr := LeftHalf(t), RightHalf(t, q);
    assert t.kids[..mid] + t.kids[mid..] == t.kids;
    FlatAllAppend(t.kids[..mid], t.kids[mid..]);
    InnerCut(t, q, h, lo, hi, cfg, mid);
    var s := t.keys[mid];
    OrderedFlat(tr, h, s, hi, cfg);
    var m := Flat(tr)[0].key;
    RaiseLo(tr, h, s, hi, cfg, m);
    RaiseHi(tl, h, lo, Some(s), cfg, Some(m));
  }

  /** Cutting an inner page before slot `mid` leaves two ordered pages on either side of that separator. */
  lemma InnerCut(t: Tree, q: PageId, h: nat, lo: Key, hi: Option<Key>, cfg: Config, mid: nat)
    requires t.InnerNode? && Ordered(t, h, lo, hi, cfg) && 1 <= mid < |t.kids|
    ensures lo < t.keys[mid] && Below(t.keys[mid], hi)
    ensures Ordered(InnerNode(t.id, t.keys[..mid], t.kids[..mid]), h, lo, Some(t.keys[mid]), cfg)
    ensures Ordered(InnerNode(q, t.keys[mid..], t.kids[mid..]), h, t.keys[mid], hi, cfg)
  {
    var s := t.keys[mid];
    var lk, rk := t.keys[..mid], t.keys[mid..];
    forall i | 0 <= i < mid
      ensures KidLo(t.keys, i, lo) == KidLo(lk, i, lo) && KidHi(t.keys, i, hi) == KidHi(lk, i, Some(s))
    {}
    forall i | 0 <= i < |rk|
      ensures KidLo(t.keys, mid + i, lo) == KidLo(rk, i, s) && KidHi(t.keys, mid + i, hi) == KidHi(rk, i, hi)
    {}
    var tr := InnerNode(q, rk, t.kids[mid..]);
    forall i | 0 <= i < |rk|
      ensures Fits(tr.kids[i], cfg) && Ordered(tr.kids[i], h - 1, KidLo(rk, i, s), KidHi(rk, i, hi), cfg)
    {
      assert tr.kids[i] == t.kids[mid + i];
    }
  }

  /** The parent page after a child made way for its two halves, separated by `m`. */
  ghost function Adopt(c: Context, tl: Tree, m: Key, tr: Tree): Tree
    requires c.Frame? && |c.left| < |c.keys|
  {
    InnerNode(c.id, c.keys[..|c.left| + 1] + [m] + c.keys[|c.left| + 1..], c.left + [tl, tr] + c.right)
  }

  lemma AdoptFlat(c: Context, tl: Tree, m: Key, tr: Tree)
    requires c.Frame? && |c.left| < |c.keys|
    ensures Leaves(Adopt(c, tl, m, tr)) == LeavesAll(c.left) + (Leaves(tl) + Leaves(tr)) + LeavesAll(c.right)
    ensures Flat(Adopt(c, tl, m, tr)) == FlatAll(c.left) + (Flat(tl) + Flat(tr)) + FlatAll(c.right)
  {
    assert [tl] + [tr] == [tl, tr];
    LeavesAllAppend(c.left + [tl, tr], c.right);
    LeavesAllAppend(c.left, [tl, tr]);
    LeavesAllAppend([tl], [tr]);
    FlatAllAppend(c.left + [tl, tr], c.right);
    FlatAllAppend(c.left, [tl, tr]);
    FlatAllAppend([tl], [tr]);
    LeavesAllOne(tl);
    LeavesAllOne(tr);
  }

  lemma AdoptKeys(keys: seq<Key>, i: nat, m: Key, lo: Key, hi: Option<Key>)
    requires i < |keys| && KeysOk(keys, lo, hi)
    requires KidLo(keys, i, lo) < m && Below(m, KidHi(keys, i, hi))
    ensures KeysOk(keys[..i + 1] + [m] + keys[i + 1..], lo, hi)
  {
    var r := keys[..i + 1] + [m] + keys[i + 1..];
    assert r[i + 1] == m && forall j | 0 <= j <= i :: r[j] == keys[j];
    assert forall j | i + 1 < j < |r| :: r[j] == keys[j - 1];
    assert lo < m && Below(m, hi);
    assert forall j | 1 <= j <= i :: keys[j] < m;
    assert forall j | i + 1 < j < |r| :: m < r[j];
  }

  lemma AdoptOrdered(c: Context, tl: Tree, m: Key, tr: Tree, h: nat, cfg: Config)
    requires c.Frame? && OrderedContext(c, h, cfg)
    requires Fits(tl, cfg) && Ordered(tl, h, Lo(c), Some(m), cfg)
    requires Fits(tr, cfg) && Ordered(tr, h, m, Hi(c), cfg)
    requires Lo(c) < m && Below(m, Hi(c))
    ensures Ordered(Adopt(c, tl, m, tr), h + 1, Lo(c.up), Hi(c.up), cfg)
  {
    var p := Adopt(c, tl, m, tr);
    AdoptKeys(c.keys, |c.left|, m, Lo(c.up), Hi(c.up));
    forall j | 0 <= j < |p.kids|
      ensures Fits(p.kids[j], cfg)
      ensures Ordered(p.kids[j], h, KidLo(p.keys, j, Lo(c.up)), KidHi(p.keys, j, Hi(c.up)), cfg)
    {
      AdoptKid(c, tl, m, tr, h, cfg, j);
    }
  }

  lemma AdoptKid(c: Context, tl: Tree, m: Key, tr: Tree, h: nat, cfg: Config, j: nat)
    requires c.Frame? && OrderedContext(c, h, cfg)
    requires Fits(tl, cfg) && Ordered(tl, h, Lo(c), Some(m), cfg)
    requires Fits(tr, cfg) && Ordered(tr, h, m, Hi(c), cfg)
    requires j < |c.left| + 2 + |c.right|
    ensures var p := Adopt(c, tl, m, tr);
            && |p.kids| == |p.keys| == |c.left| + 2 + |c.right|
            && Fits(p.kids[j], cfg)
            && Ordered(p.kids[j], h, KidLo(p.keys, j, Lo(c.up)), KidHi(p.keys, j, Hi(c.up)), cfg)
  {
    var p := Adopt(c, tl, m, tr);
    var i := |c.left|;
    if j < i {
      assert p.kids[j] == c.left[j];
      assert KidHi(p.keys, j, Hi(c.up)) == KidHi(c.keys, j, Hi(c.up));
    } else if j == i {
      assert p.kids[j] == tl;
    } else if j == i + 1 {
      assert p.kids[j] == tr && p.keys[j] == m;
      assert KidHi(p.keys, j, Hi(c.up)) == Hi(c);
    } else {
      var r := j - i - 2;
      assert p.kids[j] == c.right[r];
      assert KidLo(p.keys, j, Lo(c.up)) == KidLo(c.keys, i + 1 + r, Lo(c.up));
      assert KidHi(p.keys, j, Hi(c.up)) == KidHi(c.keys, i + 1 + r, Hi(c.up));
    }
  }
}
