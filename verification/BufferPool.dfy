/** The buffer pool over the page file (buffer/buffer_pool.rs, buffer/page.rs). */
module BufferPool {
  import opened Prelude
  import opened Replacer
  import Disk = DiskManager

  type Bytes = Disk.Bytes

  // ---- the pool as a value --------------------------------------------------------------------

  datatype Frame = Frame(pageId: PageId, data: Bytes, pinCount: nat, isDirty: bool)

  datatype Pool = Pool(
    frames: seq<Frame>,
    table: map<PageId, FrameId>,
    free: seq<FrameId>,
    nodes: map<FrameId, LRUKNode>,
    since: map<FrameId, nat>,
    file: map<PageId, Disk.Block>,
    used: set<PageId>)

  ghost predicate Mapped(s: Pool, f: FrameId) {
    f < |s.frames| && s.frames[f].pageId in s.table && s.table[s.frames[f].pageId] == f
  }

  ghost predicate MappedOk(s: Pool, f: FrameId)
    requires f < |s.frames|
  {
    var frame := s.frames[f];
    && f in s.nodes && (s.nodes[f].isEvictable <==> frame.pinCount == 0)
    && f in s.since && s.nodes[f].history == [s.since[f]]
    && |frame.data| == Disk.PAGE_SIZE
    && (!frame.isDirty ==> frame.pageId in s.file && s.file[frame.pageId] == Disk.Raw(frame.data))
  }

  ghost predicate Distinct(free: seq<FrameId>) {
    forall i, j :: 0 <= i < j < |free| ==> free[i] != free[j]
  }

  ghost predicate TableOk(s: Pool) {
    forall p :: p in s.table ==> p in s.used && s.table[p] < |s.frames| && s.frames[s.table[p]].pageId == p
  }

  ghost predicate FreeOk(s: Pool, hole: set<FrameId>) {
    Distinct(s.free) && forall f :: f in s.free ==> f < |s.frames| && !Mapped(s, f) && f !in hole
  }

  ghost predicate FrameOk(s: Pool, f: FrameId, hole: set<FrameId>)
    requires f < |s.frames|
  {
    if Mapped(s, f) then MappedOk(s, f) && f !in hole
    else s.frames[f].pinCount == 0 && (f in hole || f in s.free)
  }

  /** Frames are mapped by one page or free, except that those in `hole` are neither. */
  ghost predicate InvBut(s: Pool, hole: set<FrameId>) {
    && TableOk(s) && FreeOk(s, hole)
    && (forall f :: f in s.nodes ==> Mapped(s, f))
    && (forall f :: f in hole ==> f < |s.frames|)
    && (forall f :: 0 <= f < |s.frames| ==> FrameOk(s, f, hole))
    && Disk.PlainPages(s.file, s.used)
  }

  /** What a page holds as far as its users can tell. */
  ghost function Content(s: Pool, p: PageId): Bytes {
    if p in s.table && s.table[p] < |s.frames| then s.frames[s.table[p]].data
    else if p in s.file && s.file[p].Raw? then s.file[p].bytes
    else []
  }

  ghost function Contents(s: Pool): map<PageId, Bytes> {
    map p | p in s.used :: Content(s, p)
  }

  // ---- steps ----------------------------------------------------------------------------------

  /** A frame untouched by a step stays in order. */
  lemma FrameStays(s: Pool, s': Pool, f: FrameId, hole: set<FrameId>, hole': set<FrameId>)
    requires f < |s.frames| == |s'.frames| && FrameOk(s, f, hole) && s'.frames[f] == s.frames[f]
    requires Mapped(s', f) <==> Mapped(s, f)
    requires Mapped(s, f) ==>
               && f in s.nodes && f in s'.nodes && s.nodes[f] == s'.nodes[f]
               && f in s.since && f in s'.since && s.since[f] == s'.since[f]
               && f !in hole'
               && (s.frames[f].pageId in s.file ==>
                     s.frames[f].pageId in s'.file && s'.file[s.frames[f].pageId] == s.file[s.frames[f].pageId])
    requires !Mapped(s, f) && f !in hole' ==> f in s'.free
    ensures FrameOk(s', f, hole')
  {
  }

  /** What the invariant says of one frame. */
  lemma OneFrame(s: Pool, f: FrameId, hole: set<FrameId>)
    requires InvBut(s, hole) && f < |s.frames|
    ensures FrameOk(s, f, hole)
    ensures Mapped(s, f) ==> f in s.nodes && f in s.since && f !in hole && s.frames[f].pageId in s.used && f !in s.free
    ensures !Mapped(s, f) ==> f !in s.nodes && (f in hole || f in s.free)
  {
  }

  /** Taking a frame off the free list. */
  lemma TakeFree(s: Pool)
    requires InvBut(s, {}) && s.free != []
    ensures InvBut(s.(free := s.free[1..]), {s.free[0]})
  {
    hide FrameOk;
    var s' := s.(free := s.free[1..]);
    assert forall f :: Mapped(s', f) == Mapped(s, f);
    assert forall f :: f in s'.free ==> f in s.free && f != s.free[0];
    assert s.free[0] in s.free;
    assert FreeOk(s', {s.free[0]});
    forall f | 0 <= f < |s'.frames| ensures FrameOk(s', f, {s.free[0]}) {
      OneFrame(s, f, {});
      if f in s.free && f != s.free[0] {
        var i :| 0 <= i < |s.free| && s.free[i] == f;
        assert s'.free[i - 1] == f;
      }
      FrameStays(s, s', f, {}, {s.free[0]});
    }
  }

  /** Writing a mapped frame's data to its page. */
  function Flushed(s: Pool, f: FrameId): Pool
    requires f < |s.frames|
  {
    s.(frames := s.frames[f := s.frames[f].(isDirty := false)],
       file := s.file[s.frames[f].pageId := Disk.Raw(s.frames[f].data)])
  }

  lemma FlushKeeps(s: Pool, f: FrameId, hole: set<FrameId>)
    requires InvBut(s, hole) && Mapped(s, f)
    ensures InvBut(Flushed(s, f), hole) && Contents(Flushed(s, f)) == Contents(s)
    ensures forall g :: Mapped(Flushed(s, f), g) == Mapped(s, g)
  {
    hide FrameOk;
    var s' := Flushed(s, f);
    assert forall g :: Mapped(s', g) == Mapped(s, g);
    OneFrame(s, f, hole);
    MappedData(s, f, hole);
    forall g | 0 <= g < |s'.frames| ensures FrameOk(s', g, hole) {
      OneFrame(s, g, hole);
      if g == f {
        FlushedFrame(s, f, hole);
      } else {
        FrameStays(s, s', g, hole, hole);
      }
    }
  }

  lemma MappedData(s: Pool, f: FrameId, hole: set<FrameId>)
    requires f < |s.frames| && FrameOk(s, f, hole) && Mapped(s, f)
    ensures |s.frames[f].data| == Disk.PAGE_SIZE
    ensures !s.frames[f].isDirty ==>
              s.frames[f].pageId in s.file && s.file[s.frames[f].pageId] == Disk.Raw(s.frames[f].data)
    ensures f in s.nodes && (s.nodes[f].isEvictable <==> s.frames[f].pinCount == 0)
    ensures f in s.since && s.nodes[f].history == [s.since[f]]
  {
  }

  lemma FlushedFrame(s: Pool, f: FrameId, hole: set<FrameId>)
    requires f < |s.frames| && FrameOk(s, f, hole) && Mapped(s, f)
    ensures FrameOk(Flushed(s, f), f, hole)
  {
  }

  /** Unmapping an unpinned clean frame. */
  function Unmapped(s: Pool, f: FrameId): Pool
    requires f < |s.frames|
  {
    s.(table := s.table - {s.frames[f].pageId}, nodes := s.nodes - {f}, since := s.since - {f})
  }

  lemma Unmap(s: Pool, f: FrameId)
    requires InvBut(s, {}) && Mapped(s, f) && s.frames[f].pinCount == 0 && !s.frames[f].isDirty
    ensures InvBut(Unmapped(s, f), {f}) && Contents(Unmapped(s, f)) == Contents(s)
  {
    hide FrameOk;
    var s' := Unmapped(s, f);
    OneFrame(s, f, {});
    MappedData(s, f, {});
    assert forall g :: Mapped(s', g) <==> Mapped(s, g) && g != f;
    forall g | 0 <= g < |s'.frames| ensures FrameOk(s', g, {f}) {
      OneFrame(s, g, {});
      if g == f {
        HoleFrame(s', f, {f});
      } else {
        FrameStays(s, s', g, {}, {f});
      }
    }
  }

  lemma HoleFrame(s: Pool, f: FrameId, hole: set<FrameId>)
    requires f < |s.frames| && !Mapped(s, f) && s.frames[f].pinCount == 0 && (f in hole || f in s.free)
    ensures FrameOk(s, f, hole)
  {
  }

  /** Mapping a page into a frame taken by `TakeFree` or `Unmap`. */
  function Installed(s: Pool, f: FrameId, p: PageId, t: nat): Pool
    requires f < |s.frames| && p in s.file && s.file[p].Raw?
  {
    s.(frames := s.frames[f := Frame(p, s.file[p].bytes, 1, false)], table := s.table[p := f],
       nodes := s.nodes[f := LRUKNode([t], false)], since := s.since[f := t])
  }

  lemma Install(s: Pool, f: FrameId, p: PageId, t: nat)
    requires InvBut(s, {f}) && p in s.used && p !in s.table
    ensures f < |s.frames| && p in s.file && s.file[p].Raw? && f !in s.nodes
    ensures InvBut(Installed(s, f, p, t), {}) && Mapped(Installed(s, f, p, t), f)
  {
    hide FrameOk;
    OneFrame(s, f, {f});
    var s' := Installed(s, f, p, t);
    assert forall g :: Mapped(s', g) <==> Mapped(s, g) || g == f;
    forall g | 0 <= g < |s'.frames| ensures FrameOk(s', g, {}) {
      OneFrame(s, g, {f});
      if g == f {
        NewFrame(s', f);
      } else {
        FrameStays(s, s', g, {f}, {});
      }
    }
    assert f !in s.free;
  }

  lemma InstallContents(s: Pool, f: FrameId, p: PageId, t: nat)
    requires TableOk(s) && !Mapped(s, f) && f < |s.frames| && p !in s.table && p in s.file && s.file[p].Raw?
    ensures Contents(Installed(s, f, p, t)) == Contents(s)
  {
  }

  lemma NewFrame(s: Pool, f: FrameId)
    requires f < |s.frames| && Mapped(s, f) && s.frames[f].pinCount == 1 && |s.frames[f].data| == Disk.PAGE_SIZE
    requires s.frames[f].pageId in s.file && s.file[s.frames[f].pageId] == Disk.Raw(s.frames[f].data)
    requires f in s.nodes && f in s.since && s.nodes[f] == LRUKNode([s.since[f]], false)
    ensures FrameOk(s, f, {})
  {
  }

  /** One more or one less reference to a mapped frame, and the evictable flag that goes with it. */
  function Repinned(s: Pool, f: FrameId, pins: nat): Pool
    requires f < |s.frames| && f in s.nodes
  {
    s.(frames := s.frames[f := s.frames[f].(pinCount := pins)],
       nodes := s.nodes[f := s.nodes[f].(isEvictable := pins == 0)])
  }

  lemma Repin(s: Pool, f: FrameId, pins: nat)
    requires InvBut(s, {}) && Mapped(s, f)
    ensures f in s.nodes
    ensures InvBut(Repinned(s, f, pins), {}) && Contents(Repinned(s, f, pins)) == Contents(s)
  {
    hide FrameOk;
    OneFrame(s, f, {});
    var s' := Repinned(s, f, pins);
    assert forall g :: Mapped(s', g) == Mapped(s, g);
    forall g | 0 <= g < |s'.frames| ensures FrameOk(s', g, {}) {
      OneFrame(s, g, {});
      if g == f {
        RepinnedFrame(s, f, pins);
      } else {
        FrameStays(s, s', g, {}, {});
      }
    }
  }

  lemma RepinnedFrame(s: Pool, f: FrameId, pins: nat)
    requires f < |s.frames| && Mapped(s, f) && FrameOk(s, f, {})
    ensures FrameOk(Repinned(s, f, pins), f, {})
  {
  }

  /** New data for a mapped frame. */
  function Overwritten(s: Pool, f: FrameId, data: Bytes): Pool
    requires f < |s.frames|
  {
    s.(frames := s.frames[f := s.frames[f].(data := data, isDirty := true)])
  }

  lemma Overwrite(s: Pool, f: FrameId, data: Bytes)
    requires InvBut(s, {}) && Mapped(s, f) && |data| == Disk.PAGE_SIZE
    ensures InvBut(Overwritten(s, f, data), {})
    ensures Contents(Overwritten(s, f, data)) == Contents(s)[s.frames[f].pageId := data]
  {
    hide FrameOk;
    OneFrame(s, f, {});
    var s' := Overwritten(s, f, data);
    assert forall g :: Mapped(s', g) == Mapped(s, g);
    forall g | 0 <= g < |s'.frames| ensures FrameOk(s', g, {}) {
      OneFrame(s, g, {});
      if g == f {
        OverwrittenFrame(s, f, data);
      } else {
        FrameStays(s, s', g, {}, {});
      }
    }
  }

  lemma OverwrittenFrame(s: Pool, f: FrameId, data: Bytes)
    requires f < |s.frames| && Mapped(s, f) && FrameOk(s, f, {}) && |data| == Disk.PAGE_SIZE
    ensures FrameOk(Overwritten(s, f, data), f, {})
  {
  }

  /** Freeing an unpinned frame together with its page; other used pages stay on disk as they were. */
  function Discarded(s: Pool, f: FrameId, file: map<PageId, Disk.Block>): Pool
    requires f < |s.frames|
  {
    Pool(s.frames[f := Frame(INVALID_PAGE_ID, Disk.EMPTY_PAGE, 0, false)], s.table - {s.frames[f].pageId}, s.free + [f],
         s.nodes - {f}, s.since - {f}, file, s.used - {s.frames[f].pageId})
  }

  lemma Discard(s: Pool, f: FrameId, file: map<PageId, Disk.Block>)
    requires InvBut(s, {}) && Mapped(s, f) && s.frames[f].pinCount == 0 && INVALID_PAGE_ID !in s.used
    requires forall q :: q in s.used - {s.frames[f].pageId} ==> q in s.file && q in file && file[q] == s.file[q]
    ensures InvBut(Discarded(s, f, file), {})
  {
    hide FrameOk;
    OneFrame(s, f, {});
    var s' := Discarded(s, f, file);
    assert forall g :: Mapped(s', g) <==> Mapped(s, g) && g != f;
    forall g | 0 <= g < |s'.frames| ensures FrameOk(s', g, {}) {
      OneFrame(s, g, {});
      if g == f {
        HoleFrame(s', f, {});
      } else {
        FrameStays(s, s', g, {}, {});
      }
    }
  }

  lemma DiscardContents(s: Pool, f: FrameId, file: map<PageId, Disk.Block>)
    requires TableOk(s) && Mapped(s, f)
    requires forall q :: q in s.used - {s.frames[f].pageId} ==> q in s.file && q in file && file[q] == s.file[q]
    ensures Contents(Discarded(s, f, file)) == Contents(s) - {s.frames[f].pageId}
  {
  }

  /** The disk hands over one more zeroed page. */
  lemma OneMorePage(s: Pool, hole: set<FrameId>, p: PageId, file: map<PageId, Disk.Block>)
    requires InvBut(s, hole) && p !in s.used && p in file && file[p] == Disk.Raw(Disk.EMPTY_PAGE)
    requires forall q :: q in s.used ==> q in file && q in s.file && file[q] == s.file[q]
    ensures var s' := s.(file := file, used := s.used + {p});
            InvBut(s', hole) && Contents(s') == Contents(s)[p := Disk.EMPTY_PAGE]
  {
    hide FrameOk;
    var s' := s.(file := file, used := s.used + {p});
    assert forall g :: Mapped(s', g) == Mapped(s, g);
    forall g | 0 <= g < |s'.frames| ensures FrameOk(s', g, hole) {
      OneFrame(s, g, hole);
      FrameStays(s, s', g, hole, hole);
    }
  }

  /** A new pool. */
  lemma AllFree(s: Pool, none: Frame)
    requires s.table == map[] && s.nodes == map[] && |s.free| == |s.frames| && none.pinCount == 0
    requires forall i :: 0 <= i < |s.free| ==> s.free[i] == i && s.frames[i] == none
    requires Disk.PlainPages(s.file, s.used)
    ensures InvBut(s, {})
  {
    forall f | 0 <= f < |s.frames| ensures FrameOk(s, f, {}) {
      assert s.free[f] == f;
    }
  }

  // ---- the manager ----------------------------------------------------------------------------

  class Page {
    var pageId: PageId
    var data: Bytes
    var pinCount: nat
    var isDirty: bool

    ghost function View(): Frame
      reads this
    {
      Frame(pageId, data, pinCount, isDirty)
    }

    constructor ()
      ensures View() == Frame(INVALID_PAGE_ID, Disk.EMPTY_PAGE, 0, false)
    {
      pageId, data, pinCount, isDirty := INVALID_PAGE_ID, Disk.EMPTY_PAGE, 0, false;
    }

    method Destroy()
      modifies this
      ensures View() == Frame(INVALID_PAGE_ID, Disk.EMPTY_PAGE, 0, false)
    {
      pageId, data, pinCount, isDirty := INVALID_PAGE_ID, Disk.EMPTY_PAGE, 0, false;
    }

    method SetData(data: Bytes)
      modifies this
      ensures View() == old(View()).(data := data, isDirty := true)
    {
      this.data := data;
      isDirty := true;
    }

    method Replace(other: Frame)
      modifies this
      ensures View() == other
    {
      pageId, data, pinCount, isDirty := other.pageId, other.data, other.pinCount, other.isDirty;
    }
  }

  /** A pinned page as its users hold it. */
  datatype PageRef = PageRef(page: Page)

  class BufferPoolManager {
    const pool: seq<Page>
    const replacer: LRUKReplacer
    const disk: Disk.DiskManager
    var pageTable: map<PageId, FrameId>
    var freeList: seq<FrameId>
    ghost var frames: seq<Frame>
    ghost var refs: multiset<Page>

    ghost function State(): Pool
      reads this, replacer, disk
    {
      Pool(frames, pageTable, freeList, replacer.nodeStore, replacer.since, disk.file, disk.used)
    }

    ghost function PageContents(): map<PageId, Bytes>
      reads this, replacer, disk
    {
      Contents(State())
    }

    /** `frames` mirrors the page objects, and pins count the references handed out and not yet dropped. */
    ghost predicate Linked()
      reads this`frames, this`refs, pool
    {
      && |frames| == |pool|
      && (forall i, j :: 0 <= i < j < |pool| ==> pool[i] != pool[j])
      && (forall i :: 0 <= i < |pool| ==> pool[i].View() == frames[i] && frames[i].pinCount == refs[pool[i]])
      && (forall page :: page in refs ==> page in pool)
    }

    ghost predicate Backed()
      reads replacer, disk
    {
      && replacer.Valid() && replacer.replacerSize == |pool| && replacer.k == 2
      && disk.Valid() && disk.freelistPageId != INVALID_PAGE_ID
    }

    ghost predicate ValidBut(hole: set<FrameId>)
      reads this, pool, replacer, disk
    {
      Linked() && Backed() && InvBut(State(), hole)
    }

    ghost predicate Valid()
      reads this, pool, replacer, disk
    {
      ValidBut({})
    }

    constructor (numPages: nat, disk: Disk.DiskManager)
      requires disk.Valid() && disk.freelistPageId != INVALID_PAGE_ID
      ensures Valid() && this.disk == disk && |pool| == numPages && refs == multiset{} && pageTable == map[]
      ensures fresh(replacer) && forall i :: 0 <= i < |pool| ==> fresh(pool[i])
      ensures replacer.currentTimestamp == 0 && freeList == seq(numPages, i requires 0 <= i < numPages => i)
    {
      var pages: seq<Page> := [];
      var free: seq<FrameId> := [];
      ghost var none := Frame(INVALID_PAGE_ID, Disk.EMPTY_PAGE, 0, false);
      for i := 0 to numPages
        invariant |pages| == |free| == i
        invariant forall k :: 0 <= k < i ==> fresh(pages[k]) && pages[k].View() == none && free[k] == k
        invariant forall j, k :: 0 <= j < k < i ==> pages[j] != pages[k]
      {
        var page := new Page();
        free := free + [i];
        pages := pages + [page];
      }
      pool, freeList, pageTable, this.disk := pages, free, map[], disk;
      replacer := new LRUKReplacer(numPages, 2);
      frames, refs := seq(numPages, _ => none), multiset{};
      new;
      AllFree(State(), none);
    }

    /** Assigns one page object and its mirror. */
    method ReplacePage(f: FrameId, frame: Frame, ghost newRefs: multiset<Page>)
      requires Linked() && f < |pool|
      requires forall p :: p in newRefs ==> p in pool
      requires forall i :: 0 <= i < |pool| && i != f ==> newRefs[pool[i]] == refs[pool[i]]
      requires newRefs[pool[f]] == frame.pinCount
      modifies this`frames, this`refs, pool[f]
      ensures Linked() && frames == old(frames)[f := frame] && refs == newRefs
    {
      pool[f].Replace(frame);
      frames := frames[f := frame];
      refs := newRefs;
    }

    /** Writes a resident page back. */
    method FlushPage(pageId: PageId) returns (r: Result<bool, string>)
      requires Linked() && disk.Valid() && TableOk(State())
      requires pageId in pageTable ==> |frames[pageTable[pageId]].data| == Disk.PAGE_SIZE
      modifies this`frames, this`refs, pool, disk`file
      ensures Linked() && disk.Valid() && refs == old(refs)
      ensures r == Ok(pageId in pageTable)
      ensures State() == if pageId in pageTable then Flushed(old(State()), pageTable[pageId]) else old(State())
      ensures old(Valid()) ==> Valid() && PageContents() == old(PageContents())
    {
      hide FrameOk, InvBut, Disk.Partition, Disk.OnDisk, Disk.PlainPages;
      if pageId !in pageTable {
        return Ok(false);
      }
      var frameId := pageTable[pageId];
      var page := pool[frameId];
      assert page.View() == frames[frameId] && frames[frameId].pageId == pageId;
      var written := disk.WritePage(pageId, page.data);
      assert written.Ok?;
      ReplacePage(frameId, Frame(page.pageId, page.data, page.pinCount, false), refs);
      if old(Valid()) {
        FlushKeeps(old(State()), frameId, {});
      }
      r := Ok(true);
    }

    method PageIdOf(frameId: FrameId) returns (pageId: PageId)
      requires Linked() && frameId < |pool|
      ensures pageId == frames[frameId].pageId
    {
      assert pool[frameId].View() == frames[frameId];
      pageId := pool[frameId].pageId;
    }

    /** Writes a dirty victim back; the replacer has let go of it already. */
    method WriteBackVictim(frameId: FrameId, ghost s: Pool)
      requires Linked() && Backed() && InvBut(s, {}) && frameId in s.nodes && s.nodes[frameId].isEvictable
      requires State() == s.(nodes := s.nodes - {frameId}, since := s.since - {frameId})
      modifies this`frames, this`refs, pool, disk`file
      ensures Linked() && Backed() && refs == old(refs) && frameId < |s.frames|
      ensures var s' := CleanVictim(s, frameId);
              State() == s'.(nodes := s.nodes - {frameId}, since := s.since - {frameId})
    {
      hide FrameOk, InvBut, Contents, Flushed, Mapped, Disk.Partition, Disk.OnDisk, Disk.PlainPages, AllTracked;
      EvictableFrame(s, frameId);
      var evictedPage := pool[frameId];
      assert evictedPage.View() == frames[frameId];
      hide Linked;
      if evictedPage.isDirty {
        FlushedWhileTracked(s, frameId);
        var flushed := FlushPage(evictedPage.pageId);
      }
    }

    /** Writes the victim back if needed and unmaps it. */
    method UnmapVictim(frameId: FrameId, ghost s: Pool)
      requires Linked() && Backed() && InvBut(s, {}) && frameId in s.nodes && s.nodes[frameId].isEvictable
      requires State() == s.(nodes := s.nodes - {frameId}, since := s.since - {frameId})
      modifies this`pageTable, this`frames, this`refs, pool, disk`file
      ensures ValidBut({frameId}) && PageContents() == Contents(s)
      ensures frameId < |s.frames| && pageTable == old(pageTable) - {s.frames[frameId].pageId}
      ensures refs == old(refs) && freeList == old(freeList)
      ensures forall i :: 0 <= i < |pool| && i != frameId ==> frames[i] == old(frames[i])
    {
      hide FrameOk, InvBut, Contents, CleanVictim, Unmapped, Mapped, TableOk, Flushed;
      hide Disk.Partition, Disk.OnDisk, Disk.PlainPages, AllTracked;
      EvictableFrame(s, frameId);
      var evictedPageId := PageIdOf(frameId);
      WriteBackVictim(frameId, s);
      CleanVictimKeeps(s, frameId);
      pageTable := pageTable - {evictedPageId};
      UnmappedIs(CleanVictim(s, frameId), frameId);
    }

    /** Takes a free frame or evicts one; a dirty victim is written back first. */
    method AllocateFrame() returns (r: Result<FrameId, string>)
      requires Valid() && replacer.currentTimestamp < HALF_RANGE
      modifies this`freeList, this`pageTable, this`frames, this`refs, pool, disk`file,
               replacer`nodeStore, replacer`since, replacer`currentSize
      ensures refs == old(refs)
      ensures r.Err? <==> old(freeList) == [] && old(replacer.Evictables()) == {}
      ensures r.Err? ==> Valid() && State() == old(State())
      ensures r.Ok? ==> ValidBut({r.value}) && PageContents() == old(PageContents())
      ensures r.Ok? ==> r.value < |pool| && old(frames[r.value]).pinCount == 0
      ensures r.Ok? ==> forall i :: 0 <= i < |pool| && i != r.value ==> frames[i] == old(frames[i])
      ensures r.Ok? && old(freeList) != [] ==>
                && r.value == old(freeList)[0] && freeList == old(freeList)[1..]
                && pageTable == old(pageTable) && replacer.since == old(replacer.since)
      ensures r.Ok? && old(freeList) == [] ==>
                && FirstLoaded(r.value, old(replacer.Evictables()), old(replacer.since))
                && pageTable == old(pageTable) - {old(frames)[r.value].pageId} && freeList == []
                && replacer.since == old(replacer.since) - {r.value}
    {
      hide FrameOk, InvBut, TableOk, FreeOk, Contents, Disk.Partition, Disk.OnDisk, Disk.PlainPages, Sooner, AllTracked;
      ghost var s := State();
      if freeList != [] {
        TakeFree(s);
        TakeFreeContents(s);
        UnmappedFrame(s.(free := s.free[1..]), freeList[0]);
        r := Ok(freeList[0]);
        freeList := freeList[1..];
        return;
      }
      LoadedOnce(s, {});
      ghost var evictables := replacer.Evictables();
      var victim := replacer.Evict();
      if victim.None? {
        return Err("Cannot allocate free frame");
      }
      EvictableFrame(s, victim.value);
      LongestLoaded(s.nodes, replacer.log, s.since, victim.value, evictables);
      UnmapVictim(victim.value, s);
      r := Ok(victim.value);
    }

    /** Has the replacer track a newly loaded frame. */
    method TrackFrame(f: FrameId)
      requires Backed() && f !in replacer.nodeStore && |replacer.nodeStore| < |pool|
      modifies replacer
      ensures Backed() && replacer.currentTimestamp == old(replacer.currentTimestamp) + 1
      ensures replacer.nodeStore == old(replacer.nodeStore)[f := LRUKNode([|old(replacer.log)|], false)]
      ensures replacer.since == old(replacer.since)[f := |old(replacer.log)|]
    {
      hide Disk.Partition, Disk.OnDisk, Disk.PlainPages, AllTracked;
      var recorded := replacer.RecordAccess(f);
      assert recorded.Ok?;
      var set_ := replacer.SetEvictable(f, false);
    }

    lemma FrameMirror(f: FrameId)
      requires Linked() && f < |pool|
      ensures pool[f].View() == frames[f] && refs[pool[f]] == frames[f].pinCount && pool[f] in pool
    {
    }

    /** Puts page p, read from disk, into frame f, pinned once. */
    method InstallPage(f: FrameId, p: PageId, data: Bytes)
      requires ValidBut({f}) && p in disk.used && p !in pageTable && p in disk.file && disk.file[p] == Disk.Raw(data)
      modifies this`frames, this`refs, this`pageTable, pool, replacer
      ensures Valid() && PageContents() == old(PageContents()) && pageTable == old(pageTable)[p := f] && f < |pool|
      ensures frames == old(frames)[f := Frame(p, data, 1, false)] && refs == old(refs)[pool[f] := 1]
      ensures old(refs)[pool[f]] == 0 && replacer.currentTimestamp == old(replacer.currentTimestamp) + 1
      ensures old(frames)[f].pinCount == 0 && pool[f] in pool && pool[f].pageId == p && pool[f].data == data
      ensures replacer.since == old(replacer.since)[f := old(replacer.currentTimestamp)]
    {
      hide FrameOk, InvBut, TableOk, FreeOk, Contents, Disk.Partition, Disk.OnDisk, Disk.PlainPages, AllTracked;
      ghost var s := State();
      ghost var t := |replacer.log|;
      UnmappedFrame(s, f);
      FrameMirror(f);
      RoomForFrame(s, f);
      Install(s, f, p, t);
      InvTable(s, {f});
      InstallContents(s, f, p, t);
      hide Mapped;
      pageTable := pageTable[p := f];
      ReplacePage(f, Frame(p, data, 1, false), refs[pool[f] := 1]);
      FrameMirror(f);
      hide Linked;
      TrackFrame(f);
      assert State() == Installed(s, f, p, t);
    }

    /** Has the disk allocate a page and puts it into frame f. */
    method InstallNewPage(f: FrameId) returns (p: PageId)
      requires ValidBut({f})
      modifies this`frames, this`refs, this`pageTable, pool, replacer, disk
      ensures Valid() && f < |pool| && p !in old(PageContents())
      ensures PageContents() == old(PageContents())[p := Disk.EMPTY_PAGE]
      ensures frames == old(frames)[f := Frame(p, Disk.EMPTY_PAGE, 1, false)] && refs == old(refs)[pool[f] := 1]
      ensures old(refs)[pool[f]] == 0 && old(frames)[f].pinCount == 0
      ensures pool[f] in pool && pool[f].pageId == p && pool[f].data == Disk.EMPTY_PAGE
      ensures pageTable == old(pageTable)[p := f] && freeList == old(freeList)
      ensures replacer.currentTimestamp == old(replacer.currentTimestamp) + 1
      ensures replacer.since == old(replacer.since)[f := old(replacer.currentTimestamp)]
    {
      hide FrameOk, InvBut, TableOk, FreeOk, Contents, Disk.Partition, Disk.OnDisk, Disk.PlainPages, AllTracked, Linked;
      ghost var s := State();
      UsedOnDisk(s, {f});
      p := disk.AllocatePage();
      OneMorePage(s, {f}, p, disk.file);
      InstallPage(f, p, Disk.EMPTY_PAGE);
    }

    /** Page `p` was loaded into the next free frame, or into the one of the page loaded first among those unpinned. */
    ghost predicate Loaded(page: Page, p: PageId, s: Pool, now: nat)
      reads this, replacer, disk
    {
      exists f :: 0 <= f < |pool| && pool[f] == page && LoadedNext(s, f, p, now, State())
    }

    /** A new zeroed page, pinned; every page already there keeps its content. */
    method NewPage() returns (r: Result<PageRef, string>)
      requires Valid() && replacer.currentTimestamp < HALF_RANGE
      modifies this, pool, replacer, disk
      ensures Valid()
      ensures r.Err? <==> old(freeList) == [] && old(replacer.Evictables()) == {}
      ensures r.Err? ==> State() == old(State()) && refs == old(refs)
      ensures r.Ok? ==>
                var page := r.value.page;
                && page in pool && page.pageId !in old(PageContents())
                && PageContents() == old(PageContents())[page.pageId := Disk.EMPTY_PAGE]
                && page.data == Disk.EMPTY_PAGE && old(refs)[page] == 0 && refs == old(refs)[page := 1]
      ensures r.Ok? ==> Loaded(r.value.page, r.value.page.pageId, old(State()), old(replacer.currentTimestamp))
      ensures r.Ok? ==> replacer.currentTimestamp == old(replacer.currentTimestamp) + 1
      ensures PinnedKept(old(frames), frames)
    {
      hide FrameOk, InvBut, TableOk, FreeOk, Contents, Disk.Partition, Disk.OnDisk, Disk.PlainPages, AllTracked;
      hide Linked, Loaded;
      FramesMirror();
      PinnedAcross(frames, frames, frames, |frames|);
      hide PinnedKept;
      if freeList == [] {
        var size := replacer.Size();
        if size == 0 {
          return Err("Cannot new page because buffer pool is full and no page to evict");
        }
      }
      var page := LoadNewPage();
      r := Ok(PageRef(page));
    }

    method LoadNewPage() returns (page: Page)
      requires Valid() && replacer.currentTimestamp < HALF_RANGE && (freeList != [] || replacer.Evictables() != {})
      modifies this, pool, replacer, disk
      ensures Valid() && page in pool && page.pageId !in old(PageContents())
      ensures PageContents() == old(PageContents())[page.pageId := Disk.EMPTY_PAGE]
      ensures page.data == Disk.EMPTY_PAGE && old(refs)[page] == 0 && refs == old(refs)[page := 1]
      ensures Loaded(page, page.pageId, old(State()), old(replacer.currentTimestamp))
      ensures replacer.currentTimestamp == old(replacer.currentTimestamp) + 1
      ensures PinnedKept(old(frames), frames)
    {
      hide FrameOk, InvBut, TableOk, FreeOk, Contents, Disk.Partition, Disk.OnDisk, Disk.PlainPages, AllTracked;
      hide Linked, PinnedKept, Mapped, EvictablesOf, FirstLoaded, LoadedNext;
      FramesMirror();
      ghost var s, now := State(), replacer.currentTimestamp;
      var frame := AllocateFrame();
      FramesMirror();
      ghost var mid := State();
      var newPageId := InstallNewPage(frame.value);
      PinnedAcross(s.frames, mid.frames, frames, frame.value);
      LoadedThrough(s, mid, State(), frame.value, newPageId, now);
      page := pool[frame.value];
    }

    /** A resident page and the frame it is in. */
    lemma Resident(p: PageId)
      requires Valid() && p in pageTable
      ensures pageTable[p] < |pool| == |frames| && frames[pageTable[p]].pageId == p && pool[pageTable[p]].pageId == p
      ensures refs[pool[pageTable[p]]] == 0 ==> pageTable[p] in replacer.Evictables()
      ensures p in PageContents() && p in disk.used
      ensures forall f :: f in replacer.Evictables() ==> f < |pool|
    {
      hide Disk.Partition, Disk.OnDisk, Disk.PlainPages, AllTracked, FreeOk;
      TableFrame(State(), p);
      if refs[pool[pageTable[p]]] == 0 { EvictableUnpinned(State(), pageTable[p]); }
    }

    lemma TableInContents()
      requires Valid()
      ensures forall p :: p in pageTable ==> p in PageContents()
    {
      hide Disk.Partition, Disk.OnDisk, Disk.PlainPages, AllTracked, FreeOk, FrameOk;
    }

    /** What loading a page into a free frame leaves behind. */
    lemma FreeFrameUsed(page: Page, p: PageId, s: Pool, now: nat)
      requires Loaded(page, p, s, now) && s.free != []
      ensures s.free[0] < |pool| && pool[s.free[0]] == page && pageTable == s.table[p := s.free[0]]
      ensures freeList == s.free[1..] && replacer.since == s.since[s.free[0] := now]
    {
    }

    /** With no free frame, the page loaded first among those unpinned goes. */
    lemma OldestGone(page: Page, p: PageId, s: Pool, now: nat, v: FrameId)
      requires Loaded(page, p, s, now) && s.free == [] && FirstLoaded(v, EvictablesOf(s.nodes), s.since)
      ensures v < |s.frames| && pageTable == (s.table - {s.frames[v].pageId})[p := v]
    {
      hide LoadedNext, EvictablesOf;
      var f :| 0 <= f < |pool| && pool[f] == page && LoadedNext(s, f, p, now, State());
      SameVictim(s, f, v, p, now, State());
    }

    lemma FramesMirror()
      requires Linked()
      ensures |frames| == |pool|
    {
    }

    /** Sets the pin count of a resident page, and lets the replacer know whether it may be evicted. */
    method SetPins(f: FrameId, pins: nat)
      requires Valid() && f in replacer.nodeStore
      modifies this`frames, this`refs, pool, replacer`nodeStore, replacer`currentSize
      ensures Valid() && PageContents() == old(PageContents()) && f < |pool|
      ensures frames == old(frames)[f := old(frames)[f].(pinCount := pins)] && refs == old(refs)[pool[f] := pins]
    {
      hide FrameOk, InvBut, Contents, Disk.Partition, Disk.OnDisk, Disk.PlainPages, AllTracked, TableOk, FreeOk;
      hide EvictablesOf;
      ghost var s := State();
      NodeFrame(s, f);
      hide Mapped;
      FrameMirror(f);
      var page := pool[f];
      ReplacePage(f, Frame(page.pageId, page.data, pins, page.isDirty), refs[pool[f] := pins]);
      hide Linked;
      var set_ := replacer.SetEvictable(f, pins == 0);
      Repin(s, f, pins);
      assert State() == Repinned(s, f, pins);
    }

    /** One more pin on a resident page. */
    method PinResident(p: PageId) returns (f: FrameId)
      requires Valid() && p in pageTable
      modifies this`frames, this`refs, pool, replacer`nodeStore, replacer`currentSize
      ensures Valid() && PageContents() == old(PageContents()) && f < |pool| && pool[f] in pool
      ensures PinnedKept(old(frames), frames) && refs == old(refs)[pool[f] := old(refs)[pool[f]] + 1]
      ensures pool[f].pageId == p && p in PageContents() && pool[f].data == PageContents()[p] && f == pageTable[p]
    {
      hide FrameOk, InvBut, FreeOk, Disk.Partition, Disk.OnDisk, Disk.PlainPages, AllTracked;
      f := pageTable[p];
      TableFrame(State(), p);
      assert pool[f].View() == frames[f];
      SetPins(f, pool[f].pinCount + 1);
      assert pool[f].View() == frames[f];
    }

    /** A pin on page p: its data is what was last set on it, however often it was evicted meanwhile. */
    method FetchPage(p: PageId) returns (r: Result<PageRef, string>)
      requires Valid() && replacer.currentTimestamp < HALF_RANGE && p in disk.used
      modifies this, pool, replacer, disk`file
      ensures Valid() && PageContents() == old(PageContents()) && disk.used == old(disk.used)
      ensures r.Err? <==> p !in old(pageTable) && old(freeList) == [] && old(replacer.Evictables()) == {}
      ensures r.Err? ==> State() == old(State()) && refs == old(refs)
      ensures r.Ok? ==>
                var page := r.value.page;
                && page in pool && page.pageId == p && p in PageContents() && page.data == PageContents()[p]
                && refs == old(refs)[page := old(refs)[page] + 1]
      ensures p in old(pageTable) ==>
                && r.Ok? && pageTable == old(pageTable) && freeList == old(freeList)
                && replacer.since == old(replacer.since) && replacer.currentTimestamp == old(replacer.currentTimestamp)
                && r.value.page == pool[pageTable[p]]
      ensures PinnedKept(old(frames), frames)
    {
      hide FrameOk, InvBut, TableOk, FreeOk, Contents, Disk.Partition, Disk.OnDisk, Disk.PlainPages, AllTracked, Linked;
      hide PinnedKept, Mapped;
      FramesMirror();
      PinnedAcross(frames, frames, frames, |frames|);
      if p in pageTable {
        var f := PinResident(p);
        return Ok(PageRef(pool[f]));
      }
      var frame := AllocateFrame();
      if frame.Err? {
        return Err(frame.error);
      }
      FramesMirror();
      UsedOnDisk(State(), {frame.value});
      disk.UsedValid();
      ContentOnDisk(State(), p);
      var data := disk.ReadPage(p);
      ghost var between := frames;
      InstallPage(frame.value, p, data.value.bytes);
      PinnedAcross(old(frames), between, frames, frame.value);
      r := Ok(PageRef(pool[frame.value]));
    }

    /** New data on one page object, and on its mirror. */
    method DirtyPage(page: Page, data: Bytes, ghost f: FrameId)
      requires Linked() && f < |pool| && pool[f] == page
      modifies this`frames, page
      ensures Linked() && frames == old(frames)[f := old(frames)[f].(data := data, isDirty := true)]
    {
      page.SetData(data);
      frames := frames[f := page.View()];
    }

    /** Sets the data of a page through a pin on it. */
    method SetData(ref: PageRef, data: Bytes)
      requires Valid() && ref.page in refs && |data| == Disk.PAGE_SIZE
      modifies this`frames, this`refs, pool
      ensures Valid() && refs == old(refs) && ref.page.pageId == old(ref.page.pageId)
      ensures ref.page.pageId in old(PageContents()) && PageContents() == old(PageContents())[ref.page.pageId := data]
      ensures forall i :: 0 <= i < |pool| && pool[i] != ref.page ==> frames[i] == old(frames)[i]
    {
      hide FrameOk, InvBut, TableOk, FreeOk, Contents, Disk.Partition, Disk.OnDisk, Disk.PlainPages, AllTracked;
      ghost var s := State();
      ghost var f :| 0 <= f < |pool| && pool[f] == ref.page;
      PinnedFrame(s, f);
      UsedOnDisk(s, {});
      Overwrite(s, f, data);
      hide Mapped, EvictablesOf;
      DirtyPage(ref.page, data, f);
      hide Linked;
      assert State() == Overwritten(s, f, data);
    }

    /** Dropping a pin; the last one makes the frame evictable. */
    method DropRef(ref: PageRef)
      requires Valid() && ref.page in refs
      modifies this`frames, this`refs, pool, replacer`nodeStore, replacer`currentSize
      ensures Valid() && PageContents() == old(PageContents())
      ensures refs == old(refs)[ref.page := old(refs)[ref.page] - 1]
      ensures PinnedKept(old(frames), frames)
    {
      hide FrameOk, InvBut, TableOk, FreeOk, Disk.Partition, Disk.OnDisk, Disk.PlainPages, AllTracked;
      ghost var s := State();
      ghost var g :| 0 <= g < |pool| && pool[g] == ref.page;
      PinnedFrame(s, g);
      var pageId := ref.page.pageId;
      var f := pageTable[pageId];
      SetPins(f, ref.page.pinCount - 1);
    }

    /** Afterwards the disk alone holds every page's content. */
    method FlushAllPages()
      requires Valid()
      modifies this`frames, this`refs, pool, disk`file
      ensures Valid() && PageContents() == old(PageContents()) && refs == old(refs)
      ensures forall p :: p in disk.used ==> WrittenBack(State(), p)
    {
      hide FrameOk, InvBut, FreeOk, Contents, Flushed, WrittenBack, Mapped, Disk.Partition, Disk.OnDisk;
      hide Disk.PlainPages, AllTracked;
      var pageIds := pageTable.Keys;
      forall p | p in disk.used && p !in pageIds ensures WrittenBack(State(), p) {
        NotResident(State(), p);
      }
      while pageIds != {}
        invariant Valid() && PageContents() == old(PageContents()) && refs == old(refs)
        invariant pageIds <= pageTable.Keys
        invariant forall p :: p in disk.used && p !in pageIds ==> WrittenBack(State(), p)
        decreases |pageIds|
      {
        var pageId :| pageId in pageIds;
        InvTable(State(), {});
        FlushWrites(State(), pageId);
        var flushed := FlushPage(pageId);
        pageIds := pageIds - {pageId};
      }
    }

    /** Frees the frame of an unpinned page. */
    method RetireFrame(p: PageId)
      requires Valid() && p in pageTable && pageTable[p] < |frames| && frames[pageTable[p]].pinCount == 0
      modifies this`pageTable, this`freeList, this`frames, this`refs, pool, replacer
      ensures Linked() && Backed() && refs == old(refs) && PinnedKept(old(frames), frames)
      ensures State() == Discarded(old(State()), old(pageTable)[p], disk.file).(used := disk.used)
    {
      hide FrameOk, InvBut, FreeOk, Mapped, Contents, Disk.Partition, Disk.OnDisk, Disk.PlainPages, AllTracked;
      var frameId := pageTable[p];
      ghost var s := State();
      TableFrame(s, p);
      NodeFrame(s, frameId);
      EvictableUnpinned(s, frameId);
      ReplacePage(frameId, Frame(INVALID_PAGE_ID, Disk.EMPTY_PAGE, 0, false), refs);
      hide Linked, TableOk;
      pageTable := pageTable - {p};
      freeList := freeList + [frameId];
      replacer.Remove(frameId);
    }

    /** Frees the frame of an unpinned page, then the page itself. */
    method DiscardPage(p: PageId)
      requires Valid() && p in pageTable && pageTable[p] < |frames| && frames[pageTable[p]].pinCount == 0
      modifies this`pageTable, this`freeList, this`frames, this`refs, pool, replacer, disk
      ensures Valid() && refs == old(refs) && PageContents() == old(PageContents()) - {p} && p !in pageTable
      ensures PinnedKept(old(frames), frames)
    {
      hide FrameOk, InvBut, FreeOk, Mapped, Contents, Linked, PinnedKept, TableOk;
      hide Disk.Partition, Disk.OnDisk, Disk.PlainPages, AllTracked;
      ghost var s := State();
      ghost var frameId := pageTable[p];
      TableFrame(s, p);
      NodeFrame(s, frameId);
      UsedOnDisk(s, {});
      disk.UsedValid();
      RetireFrame(p);
      disk.DeallocatePage(p);
      Discard(s, frameId, disk.file);
      DiscardContents(s, frameId, disk.file);
      assert State() == Discarded(s, frameId, disk.file);
    }

    /** Drops an unpinned resident page from pool and disk; a page that is not resident is left alone. */
    method DeletePage(p: PageId) returns (r: Result<bool, string>)
      requires Valid()
      modifies this, pool, replacer, disk
      ensures Valid() && refs == old(refs) && PinnedKept(old(frames), frames)
      ensures r == Ok(!(p in old(pageTable) && old(frames[pageTable[p]]).pinCount > 0))
      ensures r == Ok(true) && p in old(pageTable) ==> PageContents() == old(PageContents()) - {p} && p !in pageTable
      ensures r == Ok(false) || p !in old(pageTable) ==> State() == old(State())
    {
      hide FrameOk, InvBut, FreeOk, Contents, Disk.Partition, Disk.OnDisk, Disk.PlainPages, AllTracked;
      if p !in pageTable {
        return Ok(true);
      }
      TableFrame(State(), p);
      var page := pool[pageTable[p]];
      assert page.View() == frames[pageTable[p]];
      if page.pinCount > 0 {
        return Ok(false);
      }
      DiscardPage(p);
      r := Ok(true);
    }
  }

  /** The page on disk is what its users see. */
  ghost predicate WrittenBack(s: Pool, p: PageId) {
    p in s.file && s.file[p] == Disk.Raw(Content(s, p))
  }

  /** Flushing one page writes it back and leaves those written back as they are. */
  lemma FlushWrites(s: Pool, p: PageId)
    requires InvBut(s, {}) && p in s.table
    ensures s.table[p] < |s.frames| && |s.frames[s.table[p]].data| == Disk.PAGE_SIZE
    ensures var s' := Flushed(s, s.table[p]);
            && s'.table == s.table && s'.used == s.used
            && WrittenBack(s', p) && forall q :: q in s.used && WrittenBack(s, q) ==> WrittenBack(s', q)
  {
    OneFrame(s, s.table[p], {});
    MappedData(s, s.table[p], {});
  }

  lemma NotResident(s: Pool, p: PageId)
    requires InvBut(s, {}) && p in s.used && p !in s.table
    ensures WrittenBack(s, p)
  {
  }

  /** A tracked frame is mapped. */
  lemma NodeFrame(s: Pool, f: FrameId)
    requires InvBut(s, {}) && f in s.nodes
    ensures Mapped(s, f) && TableOk(s)
  {
  }

  lemma TableFrame(s: Pool, p: PageId)
    requires InvBut(s, {}) && p in s.table
    ensures p in s.used && s.table[p] < |s.frames| && s.frames[s.table[p]].pageId == p && s.table[p] in s.nodes
  {
    OneFrame(s, s.table[p], {});
  }

  /** A pinned frame is mapped by its page. */
  lemma PinnedFrame(s: Pool, f: FrameId)
    requires InvBut(s, {}) && f < |s.frames| && s.frames[f].pinCount > 0
    ensures Mapped(s, f) && f in s.nodes && s.frames[f].pageId in s.used
  {
    OneFrame(s, f, {});
  }

  lemma EvictableUnpinned(s: Pool, f: FrameId)
    requires InvBut(s, {}) && Mapped(s, f) && s.frames[f].pinCount == 0
    ensures f in s.nodes && s.nodes[f].isEvictable
  {
    OneFrame(s, f, {});
    MappedData(s, f, {});
  }

  /** Pinned frames keep their page, its data and its dirty flag. */
  ghost predicate PinnedKept(before: seq<Frame>, after: seq<Frame>) {
    && |before| == |after|
    && forall i :: 0 <= i < |before| && before[i].pinCount > 0 ==>
         after[i].pageId == before[i].pageId && after[i].data == before[i].data && after[i].isDirty == before[i].isDirty
  }

  lemma PinnedAcross(a: seq<Frame>, b: seq<Frame>, c: seq<Frame>, f: FrameId)
    requires |a| == |b| == |c| && (f < |a| ==> a[f].pinCount == 0)
    requires forall i :: 0 <= i < |a| && i != f ==> b[i] == a[i]
    requires forall i :: 0 <= i < |a| && i != f ==> c[i] == b[i]
    ensures PinnedKept(a, c)
  {
  }

  ghost function CleanVictim(s: Pool, f: FrameId): Pool
    requires f < |s.frames|
  {
    if s.frames[f].isDirty then Flushed(s, f) else s
  }

  /** Eviction changes no page's content. */
  lemma CleanVictimKeeps(s: Pool, f: FrameId)
    requires InvBut(s, {}) && f in s.nodes && s.nodes[f].isEvictable
    ensures f < |s.frames|
    ensures var s' := CleanVictim(s, f);
            && |s'.frames| == |s.frames| && s'.frames[f].pageId == s.frames[f].pageId
            && (forall g :: 0 <= g < |s.frames| && g != f ==> s'.frames[g] == s.frames[g])
            && s'.nodes == s.nodes && s'.since == s.since && s'.table == s.table && s'.free == s.free
              && s'.used == s.used
            && InvBut(Unmapped(s', f), {f}) && Contents(Unmapped(s', f)) == Contents(s)
  {
    hide FrameOk, InvBut, Contents, Unmapped, TableOk;
    EvictableFrame(s, f);
    if s.frames[f].isDirty {
      FlushKeeps(s, f, {});
    }
    Unmap(CleanVictim(s, f), f);
  }

  lemma FlushedWhileTracked(s: Pool, f: FrameId)
    requires f < |s.frames|
    ensures Flushed(s.(nodes := s.nodes - {f}, since := s.since - {f}), f) ==
            Flushed(s, f).(nodes := s.nodes - {f}, since := s.since - {f})
    ensures var s' := Flushed(s, f);
            && s'.nodes == s.nodes && s'.since == s.since && s'.table == s.table && s'.free == s.free
              && s'.used == s.used
            && s'.frames == s.frames[f := s.frames[f].(isDirty := false)]
  {
  }

  lemma UnmappedIs(s: Pool, f: FrameId)
    requires f < |s.frames|
    ensures Unmapped(s, f) ==
            s.(table := s.table - {s.frames[f].pageId}, nodes := s.nodes - {f}, since := s.since - {f})
  {
  }

  lemma UsedOnDisk(s: Pool, hole: set<FrameId>)
    requires InvBut(s, hole)
    ensures Contents(s).Keys == s.used
    ensures forall p :: p in s.used ==> p in s.file && s.file[p].Raw? && |s.file[p].bytes| == Disk.PAGE_SIZE
    ensures forall p :: p in s.table ==> p in s.used
  {
  }

  lemma ContentOnDisk(s: Pool, p: PageId)
    requires p in s.used && p !in s.table && p in s.file && s.file[p].Raw?
    ensures p in Contents(s) && Contents(s)[p] == s.file[p].bytes
  {
  }

  lemma InvTable(s: Pool, hole: set<FrameId>)
    requires InvBut(s, hole)
    ensures TableOk(s)
  {
  }

  /** A frame that is not tracked leaves room in the replacer. */
  lemma RoomForFrame(s: Pool, f: FrameId)
    requires InvBut(s, {f})
    ensures |s.nodes| < |s.frames|
  {
    UnmappedFrame(s, f);
    forall g | g in s.nodes ensures g < |s.frames| {
      assert Mapped(s, g);
    }
    FewerThan(s.nodes.Keys, f, |s.frames|);
  }

  lemma {:induction false} AtMost(frames: set<FrameId>, n: nat)
    requires forall g :: g in frames ==> g < n
    ensures |frames| <= n
  {
    if n > 0 {
      AtMost(frames - {n - 1}, n - 1);
    } else if f :| f in frames {
      assert false;
    }
  }

  lemma FewerThan(frames: set<FrameId>, f: FrameId, n: nat)
    requires f < n && f !in frames && forall g :: g in frames ==> g < n
    ensures |frames| < n
  {
    AtMost(frames + {f}, n);
  }

  /** `f` was loaded before every other frame of `frames`. */
  ghost predicate FirstLoaded(f: FrameId, frames: set<FrameId>, since: map<FrameId, nat>) {
    f in frames && f in since && forall g :: g in frames && g != f ==> g in since && since[f] < since[g]
  }

  /** From `s`, page `p` was loaded into frame f: the next free one, or the one of the page loaded first. */
  ghost predicate LoadedNext(s: Pool, f: FrameId, p: PageId, now: nat, s': Pool) {
    && f < |s.frames| && s'.since == s.since[f := now]
    && if s.free != [] then f == s.free[0] && s'.free == s.free[1..] && s'.table == s.table[p := f]
       else FirstLoaded(f, EvictablesOf(s.nodes), s.since) && s'.free == []
            && s'.table == (s.table - {s.frames[f].pageId})[p := f]
  }

  lemma SameVictim(s: Pool, f: FrameId, v: FrameId, p: PageId, now: nat, s': Pool)
    requires s.free == [] && LoadedNext(s, f, p, now, s') && FirstLoaded(v, EvictablesOf(s.nodes), s.since)
    ensures f == v < |s.frames| && s'.table == (s.table - {s.frames[v].pageId})[p := v]
  {
    hide EvictablesOf;
  }

  lemma LoadedThrough(s: Pool, mid: Pool, s': Pool, f: FrameId, p: PageId, now: nat)
    requires f < |s.frames| && s'.free == mid.free && s'.table == mid.table[p := f] && s'.since == mid.since[f := now]
    requires s.free != [] ==> f == s.free[0] && mid.free == s.free[1..] && mid.table == s.table && mid.since == s.since
    requires s.free == [] ==>
               && FirstLoaded(f, EvictablesOf(s.nodes), s.since) && mid.free == []
               && mid.table == s.table - {s.frames[f].pageId} && mid.since == s.since - {f}
    ensures LoadedNext(s, f, p, now, s')
  {
  }

  lemma TakeFreeContents(s: Pool)
    requires s.free != []
    ensures Contents(s.(free := s.free[1..])) == Contents(s)
  {
  }

  lemma UnmappedFrame(s: Pool, f: FrameId)
    requires InvBut(s, {f})
    ensures f < |s.frames| && !Mapped(s, f) && s.frames[f].pinCount == 0 && f !in s.nodes
  {
    OneFrame(s, f, {f});
  }

  lemma EvictableFrame(s: Pool, f: FrameId)
    requires InvBut(s, {}) && f in s.nodes && s.nodes[f].isEvictable
    ensures TableOk(s) && Mapped(s, f) && s.frames[f].pinCount == 0 && |s.frames[f].data| == Disk.PAGE_SIZE
  {
    OneFrame(s, f, {});
    MappedData(s, f, {});
  }

  /** Every resident page was recorded as accessed exactly once, when it was loaded. */
  ghost predicate OnceAccessed(nodes: map<FrameId, LRUKNode>, since: map<FrameId, nat>) {
    forall f :: f in nodes ==> f in since && nodes[f].history == [since[f]]
  }

  lemma LoadedOnce(s: Pool, hole: set<FrameId>)
    requires InvBut(s, hole)
    ensures OnceAccessed(s.nodes, s.since)
  {
    forall f | f in s.nodes ensures f in s.since && s.nodes[f].history == [s.since[f]] {
      OneFrame(s, f, hole);
      MappedData(s, f, hole);
    }
  }

  /** So the k-distance order is the order of loading. */
  lemma LongestLoaded(nodes: map<FrameId, LRUKNode>, log: seq<FrameId>, since: map<FrameId, nat>, v: FrameId,
      evictables: set<FrameId>)
    requires AllTracked(log, since, 2, nodes) && OnceAccessed(nodes, since) && v in evictables
             && evictables <= nodes.Keys
    requires forall g :: g in evictables && g != v ==> Sooner(log, since, 2, v, g)
    ensures FirstLoaded(v, evictables, since)
  {
    hide Young, Oldest, Tracked;
    Front(log, v, since[v], 2, nodes[v].history);
    forall g | g in evictables && g != v ensures since[v] < since[g] {
      Front(log, g, since[g], 2, nodes[g].history);
      assert Sooner(log, since, 2, v, g);
    }
  }

  /** Where references count, the page referenced once goes before the one referenced twice. */
  lemma ReferencesWouldDiffer()
    ensures var since := map[0 := 0, 1 := 1];
            Sooner([0, 1], since, 2, 0, 1) && Sooner([0, 1, 0], since, 2, 1, 0)
  {
    AccessLists();
  }

  lemma AccessLists()
    ensures Accesses([0, 1], 0, 0) == [0] && Accesses([0, 1], 1, 1) == [1]
    ensures Accesses([0, 1, 0], 0, 0) == [0, 2] && Accesses([0, 1, 0], 1, 1) == [1]
  {
  }

  /** Two frames, holding pages a and b, loaded in this order and unpinned. */
  ghost predicate TwoLoaded(m: BufferPoolManager, a: PageId, b: PageId)
    reads m, m.pool, m.replacer, m.disk
  {
    && m.Valid() && |m.pool| == 2 && m.freeList == [] && a != b && m.pageTable == map[a := 0, b := 1]
    && 0 in m.replacer.since && 1 in m.replacer.since && m.replacer.since[0] < m.replacer.since[1]
    && m.refs == multiset{} && m.replacer.currentTimestamp < HALF_RANGE
  }

  /** Loads a page into the first free frame, and unpins it again. */
  method LoadOne(m: BufferPoolManager) returns (p: PageId)
    requires m.Valid() && m.freeList != [] && m.refs == multiset{} && m.replacer.currentTimestamp < HALF_RANGE
    modifies m, m.pool, m.replacer, m.disk
    ensures m.Valid() && m.refs == multiset{} && m.freeList == old(m.freeList)[1..]
    ensures m.replacer.currentTimestamp == old(m.replacer.currentTimestamp) + 1
    ensures var f := old(m.freeList)[0];
            && m.pageTable == old(m.pageTable)[p := f]
            && m.replacer.since == old(m.replacer.since)[f := old(m.replacer.currentTimestamp)]
    ensures p !in old(m.pageTable)
  {
    hide BufferPoolManager.Valid, BufferPoolManager.PageContents, PinnedKept, BufferPoolManager.Loaded, FirstLoaded;
    ghost var s, now := m.State(), m.replacer.currentTimestamp;
    m.TableInContents();
    var r := m.NewPage();
    p := r.value.page.pageId;
    m.FreeFrameUsed(r.value.page, p, s, now);
    m.DropRef(r.value);
  }

  method LoadTwo() returns (m: BufferPoolManager, a: PageId, b: PageId)
    ensures fresh(m) && fresh(m.replacer) && fresh(m.disk) && (forall i :: 0 <= i < |m.pool| ==> fresh(m.pool[i]))
    ensures TwoLoaded(m, a, b)
  {
    hide BufferPoolManager.Valid;
    var disk := new Disk.DiskManager();
    m := new BufferPoolManager(2, disk);
    assert m.freeList == [0, 1] && [0, 1][1..] == [1] && [1][1..] == [];
    a := LoadOne(m);
    b := LoadOne(m);
  }

  /**
   Two frames: pages a and b are loaded, a is fetched once more, and then a third page is loaded. It takes the frame of
   a, the page referenced last and most often, and b stays.
   */
  method EvictionRuns() returns (aGone: bool, bStays: bool)
    ensures aGone && bStays
  {
    hide BufferPoolManager.Valid, BufferPoolManager.PageContents, PinnedKept, BufferPoolManager.Loaded;
    var m, a, b := LoadTwo();
    m.Resident(a);
    var again := m.FetchPage(a);
    m.DropRef(again.value);
    m.Resident(a);
    m.Resident(b);
    ghost var s, now := m.State(), m.replacer.currentTimestamp;
    assert FirstLoaded(0, m.replacer.Evictables(), s.since);
    var c := m.NewPage();
    m.OldestGone(c.value.page, c.value.page.pageId, s, now, 0);
    aGone := a !in m.pageTable;
    bStays := b in m.pageTable;
  }
}
