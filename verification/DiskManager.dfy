/** The page file and its on-disk free list (storage/disk_manager.rs, storage/page/freelist_page.rs). */
module DiskManager {
  import opened Prelude

  const PAGE_SIZE: nat := 4096

  /** 4096 bytes less a header of three 32-bit numbers, four bytes per entry. */
  const FREELIST_PAGE_MAX_SIZE: nat := (PAGE_SIZE - 12) / 4

  type Bytes = seq<byte>

  function Zeros(n: nat): (zeros: Bytes)
    ensures |zeros| == n && forall i :: 0 <= i < n ==> zeros[i] == 0
  {
    seq(n, _ => 0)
  }

  const EMPTY_PAGE: Bytes := Zeros(PAGE_SIZE)

  datatype FreelistImage = FreelistImage(nextPageId: PageId, currentSize: nat, maxSize: nat, entries: seq<PageId>)

  /** What a page of the file holds: plain bytes, or an encoded free-list page. */
  datatype Block = Raw(bytes: Bytes) | Freelist(image: FreelistImage)

  // ---- the free list as a value ---------------------------------------------------------------

  /** `chain` is the free-list pages in link order and `lists[i]` the entries of page `chain[i]`. */
  datatype Store = Store(next: PageId, chain: seq<PageId>, lists: seq<seq<PageId>>)

  function FirstNonEmpty(lists: seq<seq<PageId>>): (i: nat)
    ensures i <= |lists| && forall k :: 0 <= k < i ==> lists[k] == []
    ensures i < |lists| ==> lists[i] != []
  {
    if lists == [] || lists[0] != [] then 0 else FirstNonEmpty(lists[1..]) + 1
  }

  function FirstNotFull(lists: seq<seq<PageId>>): (i: nat)
    ensures i <= |lists| && forall k :: 0 <= k < i ==> |lists[k]| >= FREELIST_PAGE_MAX_SIZE
    ensures i < |lists| ==> |lists[i]| < FREELIST_PAGE_MAX_SIZE
  {
    if lists == [] || |lists[0]| < FREELIST_PAGE_MAX_SIZE then 0 else FirstNotFull(lists[1..]) + 1
  }

  /** A page id: the last entry of the first non-empty free-list page, else the file grows. */
  function Allocate(s: Store): (PageId, Store) {
    var i := FirstNonEmpty(s.lists);
    if i < |s.lists| then
      var l := s.lists[i];
      (l[|l| - 1], s.(lists := s.lists[i := l[..|l| - 1]]))
    else (s.next, s.(next := s.next + 1))
  }

  /** Records a freed page; when all free-list pages are full one more is allocated, from that same list. */
  function Release(s: Store, p: PageId): Store {
    var i := FirstNotFull(s.lists);
    if i < |s.lists| then s.(lists := s.lists[i := s.lists[i] + [p]])
    else
      var (id, s') := Allocate(s);
      s'.(chain := s'.chain + [id], lists := s'.lists + [[p]])
  }

  ghost function Listed(lists: seq<seq<PageId>>): multiset<PageId> {
    if lists == [] then multiset{} else multiset(lists[0]) + Listed(lists[1..])
  }

  ghost function Below(next: PageId): (ids: set<PageId>)
    ensures forall p :: p in ids <==> 1 <= p < next
  {
    if next <= 1 then {} else Below(next - 1) + {next - 1}
  }

  /** The ids 1..next are split, each exactly once, into used pages, free-list pages and free-list entries. */
  ghost predicate Partition(s: Store, inUse: set<PageId>) {
    && s.next >= 1 && |s.chain| == |s.lists|
    && multiset(inUse) + multiset(s.chain) + Listed(s.lists) == multiset(Below(s.next))
  }

  lemma {:induction false} ListedUpdate(lists: seq<seq<PageId>>, i: nat, l: seq<PageId>)
    requires i < |lists|
    ensures Listed(lists[i := l]) + multiset(lists[i]) == Listed(lists) + multiset(l)
  {
    if i == 0 {
      assert lists[0 := l][1..] == lists[1..];
    } else {
      assert lists[i := l][1..] == lists[1..][i - 1 := l];
      ListedUpdate(lists[1..], i - 1, l);
      assert lists[1..][i - 1] == lists[i];
      var head, a, b := multiset(lists[0]), Listed(lists[1..][i - 1 := l]), Listed(lists[1..]);
      assert Listed(lists[i := l]) == head + a && Listed(lists) == head + b;
      assert head + a + multiset(lists[i]) == head + (b + multiset(l));
    }
  }

  lemma {:induction false} ListedAppend(lists: seq<seq<PageId>>, l: seq<PageId>)
    ensures Listed(lists + [l]) == Listed(lists) + multiset(l)
  {
    if lists == [] {
      assert (lists + [l])[1..] == [];
    } else {
      assert (lists + [l])[1..] == lists[1..] + [l];
      ListedAppend(lists[1..], l);
    }
  }

  lemma {:induction false} ListedHas(lists: seq<seq<PageId>>, p: PageId)
    ensures p in Listed(lists) <==> exists i :: 0 <= i < |lists| && p in lists[i]
  {
    if lists != [] {
      ListedHas(lists[1..], p);
      if p in Listed(lists) {
        if p !in lists[0] {
          var i :| 0 <= i < |lists[1..]| && p in lists[1..][i];
          assert p in lists[i + 1];
        }
      }
      if i :| 0 <= i < |lists| && p in lists[i] {
        if i > 0 {
          assert lists[1..][i - 1] == lists[i];
        }
      }
    }
  }

  lemma BelowGrows(next: PageId)
    requires next >= 1
    ensures multiset(Below(next + 1)) == multiset(Below(next)) + multiset{next}
  {
    assert Below(next + 1) == Below(next) + {next};
  }

  lemma Cancel(a: multiset<PageId>, b: multiset<PageId>, c: multiset<PageId>)
    requires a + c == b + c
    ensures a == b
  {
    assert forall x :: a[x] == (a + c)[x] - c[x] && b[x] == (b + c)[x] - c[x];
  }

  lemma LastTaken(l: seq<PageId>)
    requires l != []
    ensures multiset(l) == multiset(l[..|l| - 1]) + multiset{l[|l| - 1]}
  {
    assert l == l[..|l| - 1] + [l[|l| - 1]];
  }

  /** Where the allocated id comes from. */
  lemma AllocateMoves(s: Store)
    requires |s.chain| == |s.lists|
    ensures var (p, s') := Allocate(s);
            && s'.chain == s.chain && |s'.lists| == |s.lists|
            && (s'.next == s.next ==> Listed(s.lists) == Listed(s'.lists) + multiset{p})
            && (s'.next != s.next ==> s'.next == s.next + 1 && p == s.next && s'.lists == s.lists)
  {
    hide Listed;
    var i := FirstNonEmpty(s.lists);
    if i < |s.lists| {
      var l := s.lists[i];
      ListedUpdate(s.lists, i, l[..|l| - 1]);
      LastTaken(l);
      var rest := s.lists[i := l[..|l| - 1]];
      Cancel(Listed(s.lists), Listed(rest) + multiset{l[|l| - 1]}, multiset(l[..|l| - 1]));
    }
  }

  /** Allocation never hands out a page in use, and loses none. */
  lemma AllocateConserves(s: Store, inUse: set<PageId>)
    requires Partition(s, inUse)
    ensures var (p, s') := Allocate(s);
            p !in inUse && p !in s.chain && p != INVALID_PAGE_ID && Partition(s', inUse + {p})
  {
    hide Allocate, Listed;
    AllocateMoves(s);
    BelowGrows(s.next);
    var (p, s') := Allocate(s);
    var all := multiset(inUse) + multiset(s.chain) + Listed(s.lists);
    assert forall q :: all[q] <= 1;
    if s'.next == s.next {
      assert multiset{p}[p] == 1 && all[p] == multiset(inUse)[p] + multiset(s.chain)[p] + Listed(s.lists)[p];
      assert p in Below(s.next);
    } else {
      assert p !in all;
    }
    assert multiset(inUse + {p}) == multiset(inUse) + multiset{p};
  }

  /** Freeing a page keeps the partition, also when it makes the free list swallow one of its own entries. */
  lemma ReleaseConserves(s: Store, inUse: set<PageId>, p: PageId)
    requires Partition(s, inUse) && p in inUse
    ensures Partition(Release(s, p), inUse - {p})
  {
    hide Allocate, Listed;
    var i := FirstNotFull(s.lists);
    assert multiset(inUse) == multiset(inUse - {p}) + multiset{p};
    if i < |s.lists| {
      ListedUpdate(s.lists, i, s.lists[i] + [p]);
      assert multiset(s.lists[i] + [p]) == multiset(s.lists[i]) + multiset{p};
      Cancel(Listed(Release(s, p).lists), Listed(s.lists) + multiset{p}, multiset(s.lists[i]));
    } else {
      AllocateConserves(s, inUse);
      AllocateMoves(s);
      var (id, s') := Allocate(s);
      ListedAppend(s'.lists, [p]);
      assert multiset(inUse + {id}) == multiset(inUse) + multiset{id};
      assert multiset(s'.chain + [id]) == multiset(s'.chain) + multiset{id};
    }
  }

  // ---- whole runs -----------------------------------------------------------------------------

  datatype Op = Alloc | Free(p: PageId)

  /** The used pages after a run; frees of pages not in use are not part of a run. */
  ghost function Run(s: Store, inUse: set<PageId>, ops: seq<Op>): Option<(Store, set<PageId>)>
    decreases |ops|
  {
    if ops == [] then Some((s, inUse))
    else
      match ops[0]
      case Alloc => var (p, s') := Allocate(s); Run(s', inUse + {p}, ops[1..])
      case Free(p) => if p in inUse then Run(Release(s, p), inUse - {p}, ops[1..]) else None
  }

  lemma {:induction false} RunConserves(s: Store, inUse: set<PageId>, ops: seq<Op>)
    requires Partition(s, inUse) && Run(s, inUse, ops).Some?
    ensures var (s', inUse') := Run(s, inUse, ops).value;
            Partition(s', inUse') && s'.next == |inUse'| + |s'.chain| + |Listed(s'.lists)| + 1
    decreases |ops|
  {
    if ops == [] {
      Counted(s, inUse);
    } else if ops[0].Alloc? {
      AllocateConserves(s, inUse);
      RunConserves(Allocate(s).1, inUse + {Allocate(s).0}, ops[1..]);
    } else {
      ReleaseConserves(s, inUse, ops[0].p);
      RunConserves(Release(s, ops[0].p), inUse - {ops[0].p}, ops[1..]);
    }
  }

  lemma {:induction false} BelowCount(next: PageId)
    requires next >= 1
    ensures |Below(next)| == next - 1
  {
    if next > 1 {
      BelowCount(next - 1);
    }
  }

  lemma Counted(s: Store, inUse: set<PageId>)
    requires Partition(s, inUse)
    ensures s.next == |inUse| + |s.chain| + |Listed(s.lists)| + 1
  {
    BelowCount(s.next);
    assert |multiset(Below(s.next))| == |Below(s.next)|;
    assert |multiset(inUse) + multiset(s.chain) + Listed(s.lists)| ==
      |multiset(inUse)| + |multiset(s.chain)| + |Listed(s.lists)|;
  }

  /** A freed page is the next one handed out exactly when the first free-list page had room for it. */
  lemma RecycleExact(s: Store, inUse: set<PageId>, p: PageId)
    requires Partition(s, inUse) && p in inUse && s.chain != []
    ensures Allocate(Release(s, p)).0 == p <==> |s.lists[0]| < FREELIST_PAGE_MAX_SIZE
  {
    if |s.lists[0]| >= FREELIST_PAGE_MAX_SIZE {
      var q := Allocate(Release(s, p)).0;
      var l := s.lists[0];
      assert q in l;
      ListedHas(s.lists, q);
      assert (multiset(inUse) + multiset(s.chain) + Listed(s.lists))[q] <= 1;
      assert q !in inUse;
    }
  }

  // ---- the free list in the file --------------------------------------------------------------

  /** The id stored as link to position i of the chain. */
  ghost function Link(chain: seq<PageId>, i: nat): PageId {
    if i < |chain| then chain[i] else INVALID_PAGE_ID
  }

  function Image(next: PageId, entries: seq<PageId>): FreelistImage {
    FreelistImage(next, |entries|, FREELIST_PAGE_MAX_SIZE, entries)
  }

  ghost predicate PageOnDisk(file: map<PageId, Block>, s: Store, i: nat)
    requires |s.chain| == |s.lists| && i < |s.chain|
  {
    && |s.lists[i]| <= FREELIST_PAGE_MAX_SIZE
    && s.chain[i] in file && file[s.chain[i]] == Freelist(Image(Link(s.chain, i + 1), s.lists[i]))
  }

  /** The file holds the chain of free-list pages, and pages waiting in it are zeroed. */
  ghost predicate OnDisk(file: map<PageId, Block>, s: Store, head: PageId) {
    && |s.chain| == |s.lists| && file.Keys == Below(s.next) && head == Link(s.chain, 0)
    && (forall i :: 0 <= i < |s.chain| ==> PageOnDisk(file, s, i))
    && (forall p :: p in Listed(s.lists) ==> p in file && file[p] == Raw(EMPTY_PAGE))
  }

  ghost predicate PlainPages(file: map<PageId, Block>, pages: set<PageId>) {
    forall p :: p in pages ==> p in file && file[p].Raw? && |file[p].bytes| == PAGE_SIZE
  }

  lemma Disjointness(s: Store, inUse: set<PageId>)
    requires Partition(s, inUse)
    ensures forall i, j :: 0 <= i < j < |s.chain| ==> s.chain[i] != s.chain[j]
    ensures forall p :: p in s.chain ==> p in Below(s.next) && p !in inUse && p !in Listed(s.lists)
    ensures forall p :: p in Listed(s.lists) ==> p in Below(s.next) && p !in inUse
    ensures inUse <= Below(s.next)
  {
    var all := multiset(inUse) + multiset(s.chain) + Listed(s.lists);
    assert forall p :: all[p] <= 1 && (p in all ==> p in Below(s.next));
    forall i, j | 0 <= i < j < |s.chain| ensures s.chain[i] != s.chain[j] {
      assert s.chain == s.chain[..j] + [s.chain[j]] + s.chain[j + 1..];
      assert s.chain[i] in s.chain[..j];
      assert multiset(s.chain) == multiset(s.chain[..j]) + multiset{s.chain[j]} + multiset(s.chain[j + 1..]);
      assert all[s.chain[j]] >= multiset(s.chain)[s.chain[j]];
    }
    forall p | p in s.chain ensures p in Below(s.next) && p !in inUse && p !in Listed(s.lists) {
      assert multiset(s.chain)[p] >= 1;
    }
  }

  /** Taking the last entry off the first non-empty page. */
  lemma PoppedOnDisk(file: map<PageId, Block>, s: Store, head: PageId, inUse: set<PageId>, i: nat)
    requires OnDisk(file, s, head) && Partition(s, inUse) && i == FirstNonEmpty(s.lists) < |s.lists|
    ensures var l := s.lists[i];
            var file' := file[s.chain[i] := Freelist(Image(Link(s.chain, i + 1), l[..|l| - 1]))];
            && OnDisk(file', Allocate(s).1, head)
            && Allocate(s).0 in file' && file'[Allocate(s).0] == Raw(EMPTY_PAGE)
  {
    hide Listed;
    Disjointness(s, inUse);
    AllocateMoves(s);
    assert PageOnDisk(file, s, i);
    var (p, s') := Allocate(s);
    var l := s.lists[i];
    var file' := file[s.chain[i] := Freelist(Image(Link(s.chain, i + 1), l[..|l| - 1]))];
    forall j | 0 <= j < |s'.chain| ensures PageOnDisk(file', s', j) {
      assert PageOnDisk(file, s, j);
    }
  }

  /** Putting an entry on the first page with room. */
  lemma PushedOnDisk(file: map<PageId, Block>, s: Store, head: PageId, inUse: set<PageId>, i: nat, p: PageId)
    requires OnDisk(file, s, head) && Partition(s, inUse) && i < |s.lists| && |s.lists[i]| < FREELIST_PAGE_MAX_SIZE
    requires p in inUse && p in file && file[p] == Raw(EMPTY_PAGE)
    ensures var s' := s.(lists := s.lists[i := s.lists[i] + [p]]);
            OnDisk(file[s.chain[i] := Freelist(Image(Link(s.chain, i + 1), s.lists[i] + [p]))], s', head)
  {
    hide Listed;
    Disjointness(s, inUse);
    assert PageOnDisk(file, s, i);
    var s' := s.(lists := s.lists[i := s.lists[i] + [p]]);
    ListedUpdate(s.lists, i, s.lists[i] + [p]);
    assert multiset(s.lists[i] + [p]) == multiset(s.lists[i]) + multiset{p};
    Cancel(Listed(s'.lists), Listed(s.lists) + multiset{p}, multiset(s.lists[i]));
    var file' := file[s.chain[i] := Freelist(Image(Link(s.chain, i + 1), s.lists[i] + [p]))];
    forall j | 0 <= j < |s'.chain| ensures PageOnDisk(file', s', j) {
      assert PageOnDisk(file, s, j);
    }
  }

  /** Hanging a new empty page at the end of the chain. */
  lemma ExtendedOnDisk(file: map<PageId, Block>, s: Store, head: PageId, inUse: set<PageId>, id: PageId)
    requires OnDisk(file, s, head) && Partition(s, inUse) && s.chain != [] && id in inUse && id in file
    requires file[id] == Freelist(Image(INVALID_PAGE_ID, []))
    ensures var n := |s.chain| - 1;
            OnDisk(file[s.chain[n] := Freelist(Image(id, s.lists[n]))],
                   s.(chain := s.chain + [id], lists := s.lists + [[]]), head)
    ensures Partition(s.(chain := s.chain + [id], lists := s.lists + [[]]), inUse - {id})
  {
    hide Listed;
    Disjointness(s, inUse);
    ListedAppend(s.lists, []);
    var n := |s.chain| - 1;
    assert PageOnDisk(file, s, n);
    var s' := s.(chain := s.chain + [id], lists := s.lists + [[]]);
    var file' := file[s.chain[n] := Freelist(Image(id, s.lists[n]))];
    forall j | 0 <= j < |s'.chain| ensures PageOnDisk(file', s', j) {
      if j < n {
        assert PageOnDisk(file, s, j);
      }
    }
    assert multiset(inUse) == multiset(inUse - {id}) + multiset{id};
    assert multiset(s.chain + [id]) == multiset(s.chain) + multiset{id};
  }

  class FreelistPage {
    var nextPageId: PageId
    var currentSize: nat
    var maxSize: nat
    var entries: seq<PageId>

    ghost predicate Valid()
      reads this
    {
      currentSize == |entries| && maxSize == FREELIST_PAGE_MAX_SIZE
    }

    constructor ()
      ensures Valid() && nextPageId == INVALID_PAGE_ID && entries == []
    {
      nextPageId, currentSize, maxSize, entries := INVALID_PAGE_ID, 0, FREELIST_PAGE_MAX_SIZE, [];
    }

    constructor Decode(image: FreelistImage)
      ensures nextPageId == image.nextPageId && currentSize == image.currentSize
      ensures maxSize == image.maxSize && entries == image.entries
    {
      nextPageId, currentSize, maxSize, entries := image.nextPageId, image.currentSize, image.maxSize, image.entries;
    }

    function Encode(): FreelistImage
      reads this
    {
      FreelistImage(nextPageId, currentSize, maxSize, entries)
    }

    predicate IsFull()
      reads this
    {
      currentSize >= maxSize
    }

    method Push(pageId: PageId)
      requires Valid()
      modifies this`entries, this`currentSize
      ensures Valid() && entries == old(entries) + [pageId]
    {
      entries := entries + [pageId];
      currentSize := currentSize + 1;
    }

    method Pop() returns (pageId: Option<PageId>)
      requires Valid()
      modifies this`entries, this`currentSize
      ensures Valid()
      ensures old(entries) == [] ==> pageId == None && entries == []
      ensures old(entries) != [] ==> pageId.Some? && old(entries) == entries + [pageId.value]
    {
      if entries == [] {
        return None;
      }
      pageId := Some(entries[|entries| - 1]);
      entries := entries[..|entries| - 1];
      currentSize := currentSize - 1;
    }
  }

  class DiskManager {
    var nextPageId: PageId
    var freelistPageId: PageId
    var file: map<PageId, Block>
    ghost var chain: seq<PageId>
    ghost var lists: seq<seq<PageId>>
    ghost var used: set<PageId>

    ghost function Model(): Store
      reads this
    {
      Store(nextPageId, chain, lists)
    }

    /** Well formed, except that the used pages `odd` need not hold plain bytes. */
    ghost predicate ValidBut(odd: set<PageId>)
      reads this
    {
      && Partition(Model(), used) && OnDisk(file, Model(), freelistPageId)
      && PlainPages(file, used - odd)
    }

    ghost predicate Valid()
      reads this
    {
      ValidBut({})
    }

    lemma UsedValid()
      requires Valid()
      ensures INVALID_PAGE_ID !in used
    {
      Disjointness(Model(), used);
    }

    method FreelistPop() returns (r: Option<PageId>)
      requires Valid()
      modifies this`file, this`lists, this`used
      ensures Valid()
      ensures r.None? ==> file == old(file) && Model() == old(Model()) && used == old(used)
                          && FirstNonEmpty(lists) == |lists|
      ensures r.Some? ==> FirstNonEmpty(old(lists)) < |old(lists)| && Allocate(old(Model())) == (r.value, Model())
                          && used == old(used) + {r.value} && r.value in file && file[r.value] == Raw(EMPTY_PAGE)
      ensures forall p :: p in old(used) ==> p in file && file[p] == old(file)[p]
    {
      hide Partition, Listed, Allocate, OnDisk, PageOnDisk, FirstNonEmpty;
      var freelistPageId := this.freelistPageId;
      ghost var i := 0;
      ReadLink(file, Model(), this.freelistPageId, used, i);
      while freelistPageId != INVALID_PAGE_ID
        invariant unchanged(this)
        invariant i <= |chain| && freelistPageId == Link(chain, i)
        invariant forall k :: 0 <= k < i ==> lists[k] == []
        decreases |chain| - i
      {
        ReadLink(file, Model(), this.freelistPageId, used, i);
        var freelistPage := new FreelistPage.Decode(file[freelistPageId].image);
        var popped := freelistPage.Pop();
        if popped.Some? {
          PoppedOnDisk(file, Model(), this.freelistPageId, used, i);
          AllocateConserves(Model(), used);
          PoppedEntry(Model(), i, freelistPage.entries, popped.value);
          file := file[freelistPageId := Freelist(freelistPage.Encode())];
          lists := lists[i := freelistPage.entries];
          used := used + {popped.value};
          return popped;
        }
        freelistPageId := freelistPage.nextPageId;
        i := i + 1;
      }
      ReadLink(file, Model(), this.freelistPageId, used, i);
      r := None;
    }

    /** A zeroed page that is not in use. */
    method AllocatePage() returns (pageId: PageId)
      requires Valid()
      modifies this`file, this`lists, this`used, this`nextPageId
      ensures Valid() && Allocate(old(Model())) == (pageId, Model())
      ensures pageId !in old(used) && used == old(used) + {pageId} && pageId in file && file[pageId] == Raw(EMPTY_PAGE)
      ensures forall p :: p in old(used) ==> p in file && file[p] == old(file)[p]
    {
      hide Partition, Listed, OnDisk;
      AllocateConserves(Model(), used);
      var popped := FreelistPop();
      if popped.Some? {
        return popped.value;
      }
      GrownOnDisk(file, Model(), freelistPageId, used);
      pageId := nextPageId;
      nextPageId := nextPageId + 1;
      file := file[pageId := Raw(EMPTY_PAGE)];
      used := used + {pageId};
    }

    /** A page holding an empty, unlinked free-list page. */
    method AllocateFreelistPage() returns (pageId: PageId)
      requires Valid()
      modifies this`file, this`lists, this`used, this`nextPageId
      ensures ValidBut({pageId}) && Allocate(old(Model())) == (pageId, Model())
      ensures pageId !in old(used) && used == old(used) + {pageId}
      ensures pageId in file && file[pageId] == Freelist(Image(INVALID_PAGE_ID, []))
      ensures forall p :: p in old(used) ==> p in file && file[p] == old(file)[p]
    {
      hide Partition, Listed, Allocate;
      pageId := AllocatePage();
      RewrittenOnDisk(file, Model(), freelistPageId, used, pageId, Freelist(Image(INVALID_PAGE_ID, [])));
      var freelistPage := new FreelistPage();
      file := file[pageId := Freelist(freelistPage.Encode())];
    }

    /** Hangs a new empty page at the end of the chain, whose pages are all full. */
    method ExtendChain(currPageId: PageId) returns (nextPageId: PageId)
      requires Valid() && chain != [] && currPageId == chain[|chain| - 1]
      modifies this`file, this`lists, this`used, this`nextPageId, this`chain
      ensures Valid() && nextPageId !in old(used) && used == old(used) && freelistPageId == old(freelistPageId)
      ensures var s := Allocate(old(Model()));
              nextPageId == s.0 && Model() == s.1.(chain := s.1.chain + [s.0], lists := s.1.lists + [[]])
      ensures chain == old(chain) + [nextPageId] && |lists| == |chain| && lists[|chain| - 1] == []
      ensures forall p :: p in used ==> p in file && file[p] == old(file)[p]
    {
      hide Partition, Listed, Allocate, OnDisk, PageOnDisk;
      ReadLink(file, Model(), freelistPageId, used, 0);
      AllocateConserves(Model(), used);
      AllocateMoves(Model());
      nextPageId := AllocateFreelistPage();
      ReadLink(file, Model(), freelistPageId, used, |chain| - 1);
      ExtendedOnDisk(file, Model(), freelistPageId, used, nextPageId);
      var currFreelistPage := new FreelistPage.Decode(file[currPageId].image);
      currFreelistPage.nextPageId := nextPageId;
      file := file[currPageId := Freelist(currFreelistPage.Encode())];
      chain, lists, used := chain + [nextPageId], lists + [[]], used - {nextPageId};
    }

    method FreelistPush(pageId: PageId)
      requires Valid() && chain != [] && pageId in used && file[pageId] == Raw(EMPTY_PAGE)
      modifies this`file, this`lists, this`used, this`nextPageId, this`chain
      ensures Valid() && Model() == Release(old(Model()), pageId) && used == old(used) - {pageId}
      ensures forall p :: p in used ==> p in file && file[p] == old(file)[p]
    {
      hide Partition, Listed, Allocate, OnDisk, PageOnDisk, FirstNotFull;
      var currPageId := INVALID_PAGE_ID;
      var nextPageId := freelistPageId;
      ghost var i := 0;
      ReadLink(file, Model(), freelistPageId, used, i);
      while true
        invariant unchanged(this)
        invariant i <= |chain| && nextPageId == Link(chain, i)
        invariant currPageId == if i == 0 then INVALID_PAGE_ID else chain[i - 1]
        invariant forall k :: 0 <= k < i ==> |lists[k]| >= FREELIST_PAGE_MAX_SIZE
        decreases |chain| - i
      {
        ReadLink(file, Model(), freelistPageId, used, i);
        if nextPageId == INVALID_PAGE_ID {
          ReleaseFull(Model(), pageId);
          nextPageId := ExtendChain(currPageId);
        }
        ReadLink(file, Model(), freelistPageId, used, i);
        var freelistPage := new FreelistPage.Decode(file[nextPageId].image);
        if freelistPage.IsFull() {
          currPageId := nextPageId;
          nextPageId := freelistPage.nextPageId;
          i := i + 1;
        } else {
          ReleaseConserves(old(Model()), old(used), pageId);
          if i < |old(lists)| {
            ReleaseRoom(old(Model()), pageId, i);
          }
          PushedOnDisk(file, Model(), freelistPageId, used, i, pageId);
          freelistPage.Push(pageId);
          file := file[nextPageId := Freelist(freelistPage.Encode())];
          lists := lists[i := lists[i] + [pageId]];
          used := used - {pageId};
          break;
        }
      }
    }

    method DeallocatePage(pageId: PageId)
      requires Valid() && freelistPageId != INVALID_PAGE_ID && pageId in used
      modifies this`file, this`lists, this`used, this`nextPageId, this`chain
      ensures Valid() && Model() == Release(old(Model()), pageId) && used == old(used) - {pageId}
      ensures forall p :: p in used ==> p in file && file[p] == old(file)[p]
    {
      hide Partition, Listed, Allocate, PageOnDisk, Release;
      RewrittenOnDisk(file, Model(), freelistPageId, used, pageId, Raw(EMPTY_PAGE));
      file := file[pageId := Raw(EMPTY_PAGE)];
      FreelistPush(pageId);
    }

    method ReadPage(pageId: PageId) returns (r: Result<Block, string>)
      ensures r == if pageId == INVALID_PAGE_ID then Err("Cannot read invalid page ID")
                   else if pageId in file then Ok(file[pageId]) else Err("failed to fill whole buffer")
    {
      if pageId == INVALID_PAGE_ID {
        return Err("Cannot read invalid page ID");
      }
      if pageId !in file {
        return Err("failed to fill whole buffer");
      }
      r := Ok(file[pageId]);
    }

    method WritePage(pageId: PageId, data: Bytes) returns (r: Result<(), string>)
      requires Valid() && pageId in used
      modifies this`file
      ensures Valid()
      ensures r.Ok? <==> |data| == PAGE_SIZE
      ensures file == if r.Ok? then old(file)[pageId := Raw(data)] else old(file)
    {
      hide Partition, Listed, OnDisk;
      if |data| != PAGE_SIZE {
        return Err("Page size is not 4096");
      }
      RewrittenOnDisk(file, Model(), freelistPageId, used, pageId, Raw(data));
      file := file[pageId := Raw(data)];
      r := Ok(());
    }

    /** A new file: page 1 starts the free list and four pages hold the system tables. */
    constructor ()
      ensures Valid() && freelistPageId == 1 && used == {2, 3, 4, 5} && Model() == Store(6, [1], [[]])
    {
      nextPageId, freelistPageId, file := 1, INVALID_PAGE_ID, map[];
      chain, lists, used := [], [], {};
      new;
      hide Partition, Allocate, OnDisk, FirstNonEmpty, Link, Image;
      NothingYet();
      SetUpFreelist();
      SetUpSystemPages();
    }

    /** Opens the file of an earlier manager: its length tells the next page id, its meta page the free list. */
    constructor Reopen(file: map<PageId, Block>, freelistPageId: PageId, ghost earlier: DiskManager)
      requires earlier.Valid() && file == earlier.file && freelistPageId == earlier.freelistPageId
      ensures Valid() && Model() == earlier.Model() && used == earlier.used && this.file == file
      ensures this.freelistPageId == freelistPageId
    {
      nextPageId, this.freelistPageId, this.file := |file.Keys| + 1, freelistPageId, file;
      chain, lists, used := earlier.chain, earlier.lists, earlier.used;
      new;
      assert nextPageId == earlier.nextPageId by {
        BelowCount(earlier.nextPageId);
      }
      hide Partition, OnDisk, PlainPages;
    }

    method SetUpFreelist()
      requires Valid() && Model() == Store(1, [], []) && used == {} && freelistPageId == INVALID_PAGE_ID
      modifies this
      ensures Valid() && Model() == Store(2, [1], [[]]) && used == {} && freelistPageId == 1
    {
      hide Partition, Allocate, OnDisk, FirstNonEmpty;
      NothingYet();
      var first := AllocateFreelistPage();
      FirstListPage(file);
      freelistPageId := first;
      chain, lists, used := [first], [[]], {};
    }

    method SetUpSystemPages()
      requires Valid() && Model() == Store(2, [1], [[]]) && used == {}
      modifies this`file, this`lists, this`used, this`nextPageId
      ensures Valid() && Model() == Store(6, [1], [[]]) && used == {2, 3, 4, 5}
    {
      hide Partition, Allocate, OnDisk, FirstNonEmpty, PlainPages;
      for i := 2 to 6
        invariant Valid() && Model() == Store(i, [1], [[]]) && used == Below(i) - {1}
      {
        NoneFree(i);
        var p := AllocatePage();
      }
    }
  }

  lemma NothingYet()
    ensures Partition(Store(1, [], []), {}) && OnDisk(map[], Store(1, [], []), INVALID_PAGE_ID)
    ensures Allocate(Store(1, [], [])) == (1, Store(2, [], []))
  {
    assert Below(1) == {};
  }

  lemma FirstListPage(file: map<PageId, Block>)
    requires OnDisk(file, Store(2, [], []), INVALID_PAGE_ID) && 1 in file
    requires file[1] == Freelist(Image(INVALID_PAGE_ID, []))
    ensures Partition(Store(2, [1], [[]]), {}) && OnDisk(file, Store(2, [1], [[]]), 1)
  {
    assert Below(2) == {1};
    assert multiset([1]) == multiset{1};
    assert Listed([[]]) == multiset{};
  }

  lemma NoneFree(next: PageId)
    ensures Allocate(Store(next, [1], [[]])) == (next, Store(next + 1, [1], [[]]))
  {
  }

  lemma ReleaseRoom(s: Store, p: PageId, i: nat)
    requires i < |s.lists| && |s.lists[i]| < FREELIST_PAGE_MAX_SIZE
    requires forall k :: 0 <= k < i ==> |s.lists[k]| >= FREELIST_PAGE_MAX_SIZE
    ensures Release(s, p) == s.(lists := s.lists[i := s.lists[i] + [p]])
  {
    assert FirstNotFull(s.lists) == i;
  }

  lemma ReleaseFull(s: Store, p: PageId)
    requires forall k :: 0 <= k < |s.lists| ==> |s.lists[k]| >= FREELIST_PAGE_MAX_SIZE
    ensures var (id, s') := Allocate(s);
            && Release(s, p) == s'.(chain := s'.chain + [id], lists := s'.lists + [[p]])
            && (s'.lists + [[]])[|s'.lists| := [] + [p]] == s'.lists + [[p]]
  {
    assert FirstNotFull(s.lists) == |s.lists|;
    assert [] + [p] == [p];
  }

  lemma PoppedEntry(s: Store, i: nat, entries: seq<PageId>, p: PageId)
    requires i == FirstNonEmpty(s.lists) < |s.lists| && s.lists[i] == entries + [p]
    ensures Allocate(s) == (p, s.(lists := s.lists[i := entries]))
    ensures s.lists[i][..|s.lists[i]| - 1] == entries
  {
    assert s.lists[i][..|s.lists[i]| - 1] == entries;
  }

  /** Following the chain: page i is on disk and not in use, and past the last page the link is invalid. */
  lemma ReadLink(file: map<PageId, Block>, s: Store, head: PageId, inUse: set<PageId>, i: nat)
    requires OnDisk(file, s, head) && Partition(s, inUse)
    ensures |s.chain| == |s.lists| && head == Link(s.chain, 0)
    ensures Link(s.chain, i) == INVALID_PAGE_ID <==> i >= |s.chain|
    ensures i < |s.chain| ==>
              && s.chain[i] in file && s.chain[i] !in inUse && |s.lists[i]| <= FREELIST_PAGE_MAX_SIZE
              && file[s.chain[i]] == Freelist(Image(Link(s.chain, i + 1), s.lists[i]))
  {
    hide Listed;
    Disjointness(s, inUse);
    if i < |s.chain| {
      assert PageOnDisk(file, s, i);
      assert s.chain[i] in s.chain;
    }
  }

  /** Growing the file by one zeroed page. */
  lemma GrownOnDisk(file: map<PageId, Block>, s: Store, head: PageId, inUse: set<PageId>)
    requires OnDisk(file, s, head) && Partition(s, inUse)
    ensures OnDisk(file[s.next := Raw(EMPTY_PAGE)], s.(next := s.next + 1), head)
    ensures s.next !in file
  {
    hide Listed;
    Disjointness(s, inUse);
    var s', file' := s.(next := s.next + 1), file[s.next := Raw(EMPTY_PAGE)];
    forall j | 0 <= j < |s'.chain| ensures PageOnDisk(file', s', j) {
      assert PageOnDisk(file, s, j);
    }
  }

  /** Writing a page in use does not disturb the free list. */
  lemma RewrittenOnDisk(file: map<PageId, Block>, s: Store, head: PageId, inUse: set<PageId>, p: PageId, b: Block)
    requires OnDisk(file, s, head) && Partition(s, inUse) && p in inUse
    ensures p in file && OnDisk(file[p := b], s, head)
  {
    hide Listed;
    Disjointness(s, inUse);
    var file' := file[p := b];
    forall j | 0 <= j < |s.chain| ensures PageOnDisk(file', s, j) {
      assert PageOnDisk(file, s, j);
    }
  }
}
