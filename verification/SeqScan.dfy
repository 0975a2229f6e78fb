/** The sequential scan, serial or by batches of pages (execution/physical_plan/seq_scan.rs). */
module SeqScan {
  import opened Prelude
  import opened Parallel
  import opened TP = TablePage
  import opened TH = TableHeap

  const SCAN_BATCH: nat := 16

  const CYCLE: string := "Cycle in table page chain"

  const UNREADABLE: string := "failed to fill whole buffer"

  type Item = Result<Tuple, string>

  /** Reading a page and decoding it as a table page. */
  function ReadPage(store: Store, id: PageId): Result<PageImage, string> {
    if id in store then Decode(store[id]) else Err(UNREADABLE)
  }

  ghost function Tuples(slots: seq<Slot>): (items: seq<Item>)
    ensures |items| == |slots|
  {
    seq(|slots|, k requires 0 <= k < |slots| => Ok(slots[k].tuple))
  }

  // ---- decoding pages -------------------------------------------------------------------------

  function TupleIn(p: PageImage, slot: nat): Item {
    if slot >= |p.infos| then Err("tuple_id out of range")
    else if p.infos[slot].offset + p.infos[slot].size > |p.data| then Err("range end index out of range")
    else Ok(p.data[p.infos[slot].offset..p.infos[slot].offset + p.infos[slot].size])
  }

  /** The rows of a page from a slot on, up to the first that cannot be read. */
  function DecodeRows(p: PageImage, slot: nat): seq<Item>
    decreases p.numTuples - slot
  {
    if slot >= p.numTuples then []
    else
      var row := TupleIn(p, slot);
      [row] + if row.Err? then [] else DecodeRows(p, slot + 1)
  }

  lemma {:induction false} DecodedRows(p: PageImage, slot: nat)
    requires WellFormed(p) && slot <= p.numTuples
    ensures DecodeRows(p, slot) == Tuples(Slots(p))[slot..]
    decreases p.numTuples - slot
  {
    if slot < p.numTuples {
      Inside(p, slot);
      DecodedRows(p, slot + 1);
      assert Tuples(Slots(p))[slot] == Ok(SlotAt(p, slot).tuple);
    }
  }

  function AllRows(p: PageImage): seq<Item> { DecodeRows(p, 0) }

  /** Of a well-formed page these are its tuples. */
  lemma AllRowsAre(p: PageImage)
    requires WellFormed(p)
    ensures AllRows(p) == Tuples(Slots(p))
  {
    DecodedRows(p, 0);
  }

  /**
   * What following the links from `next` yields: the rows page by page, and an error at a page seen before or one that
   * cannot be read as a table page.
   */
  function ScanFrom(store: Store, next: PageId, visited: set<PageId>): seq<Item>
    decreases |store.Keys - visited|
  {
    if next == INVALID_PAGE_ID then []
    else if next in visited then [Err(CYCLE)]
    else
      match ReadPage(store, next)
      case Err(e) => [Err(e)]
      case Ok(page) =>
        assert store.Keys - (visited + {next}) == store.Keys - visited - {next};
        AllRows(page) + ScanFrom(store, page.nextPageId, visited + {next})
  }

  function Flatten(pages: seq<seq<Item>>): seq<Item> {
    if pages == [] then [] else Flatten(pages[..|pages| - 1]) + pages[|pages| - 1]
  }

  /** The rows of a batch of pages. */
  ghost function BatchRows(pages: seq<PageImage>): seq<Item> { Flatten(MapAll(AllRows, pages)) }

  /** One more page of a batch. */
  lemma FlattenMore(pages: seq<PageImage>, p: PageImage)
    ensures BatchRows(pages + [p]) == BatchRows(pages) + AllRows(p)
  {
    hide DecodeRows;
    var mapped := MapAll(AllRows, pages + [p]);
    assert mapped[..|pages|] == MapAll(AllRows, pages);
    assert mapped[|pages|] == AllRows(p);
  }

  // ---- the operator ---------------------------------------------------------------------------

  /** The item a call handed out, as a call result. */
  ghost function Handed(item: Item): Result<Option<Tuple>, string> {
    match item
    case Ok(tuple) => Ok(Some(tuple))
    case Err(e) => Err(e)
  }

  class ScanState {
    const heap: TableHeap
    const parallelism: nat
    var nextPage: PageId
    var visited: set<PageId>
    var pending: seq<Item>

    constructor (heap: TableHeap, parallelism: nat)
      ensures this.heap == heap && this.parallelism == parallelism
      ensures nextPage == heap.firstPageId && visited == {} && pending == []
    {
      this.heap, this.parallelism := heap, parallelism;
      nextPage, visited, pending := heap.firstPageId, {}, [];
    }

    /** What future calls will hand out. */
    ghost function Remaining(): seq<Item>
      reads this, heap
    {
      pending + ScanFrom(heap.store, nextPage, visited)
    }

    /** Follows the chain for up to a batch of pages; a page seen before or unreadable ends it. */
    method ReadPages() returns (pages: seq<PageImage>, failure: Option<string>)
      requires nextPage != INVALID_PAGE_ID
      modifies this`nextPage, this`visited
      ensures old(ScanFrom(heap.store, nextPage, visited)) ==
              BatchRows(pages) + if failure.Some? then [Err(failure.value)] else ScanFrom(heap.store, nextPage, visited)
      ensures failure.Some? ==> nextPage == INVALID_PAGE_ID
      ensures nextPage == INVALID_PAGE_ID || |heap.store.Keys - visited| < old(|heap.store.Keys - visited|)
    {
      hide ReadPage, ScanFrom, BatchRows;
      ghost var store, all := heap.store, ScanFrom(heap.store, nextPage, visited);
      pages, failure := [], None;
      NoPages();
      for i := 0 to SCAN_BATCH
        invariant failure == None && all == BatchRows(pages) + ScanFrom(store, nextPage, visited)
        invariant i == 0 ==> nextPage == old(nextPage) && visited == old(visited)
        invariant i > 0 && nextPage != INVALID_PAGE_ID ==> |store.Keys - visited| < |store.Keys - old(visited)|
      {
        if nextPage == INVALID_PAGE_ID {
          break;
        }
        var pageId := nextPage;
        ScanStep(store, pageId, visited);
        if pageId in visited {
          failure := Some(CYCLE);
          nextPage := INVALID_PAGE_ID;
          break;
        }
        visited := visited + {pageId};
        var read := ReadPage(heap.store, pageId);
        if read.Err? {
          failure := Some(read.error);
          nextPage := INVALID_PAGE_ID;
          break;
        }
        var page := read.value;
        nextPage := page.nextPageId;
        MoreRows(pages, page, ScanFrom(store, nextPage, visited));
        pages := pages + [page];
      }
    }

    /** Queues the tuples of the next batch of pages; a worker that fails ends the scan. */
    method ReadBatch() returns (lost: Option<string>)
      requires nextPage != INVALID_PAGE_ID && pending == []
      modifies this
      ensures if lost.Some? then Remaining() == [] && parallelism > 1 else Remaining() == old(Remaining())
      ensures nextPage == INVALID_PAGE_ID || |heap.store.Keys - visited| < old(|heap.store.Keys - visited|)
    {
      hide ScanFrom, Flatten, MapAll;
      var pages, failure := ReadPages();
      var decoded := OrderedMap(pages, parallelism, AllRows);
      NothingAhead(heap.store, visited);
      if decoded.Err? {
        nextPage := INVALID_PAGE_ID;
        return Some(decoded.error);
      }
      pending := Flatten(decoded.value);
      if failure.Some? {
        pending := pending + [Err(failure.value)];
      }
      lost := None;
    }

    lemma Queued()
      ensures Remaining() == pending + ScanFrom(heap.store, nextPage, visited)
      ensures pending != [] ==> Remaining() != [] && Remaining()[0] == pending[0]
                                && Remaining()[1..] == pending[1..] + ScanFrom(heap.store, nextPage, visited)
    {
      hide ScanFrom;
    }

    /** Hands out the next tuple of the batched scan, or the error that ends it; `lost` says that a worker failed. */
    method Next() returns (r: Result<Option<Tuple>, string>, ghost lost: bool)
      modifies this
      ensures lost ==> r.Err? && Remaining() == [] && parallelism > 1
      ensures !lost && old(Remaining()) == [] ==> r == Ok(None) && Remaining() == []
      ensures !lost && old(Remaining()) != [] ==>
                r == Handed(old(Remaining())[0]) && Remaining() == old(Remaining())[1..]
    {
      hide ScanFrom, Remaining;
      ghost var due := Remaining();
      while true
        invariant Remaining() == due
        decreases nextPage != INVALID_PAGE_ID, |heap.store.Keys - visited|
      {
        if pending != [] {
          var row := pending[0];
          Queued();
          pending := pending[1..];
          Queued();
          return (match row case Ok(t) => Ok(Some(t)) case Err(e) => Err(e)), false;
        }
        if nextPage == INVALID_PAGE_ID {
          Queued();
          NothingAhead(heap.store, visited);
          return Ok(None), false;
        }
        var failed := ReadBatch();
        if failed.Some? {
          return Err(failed.value), true;
        }
      }
    }
  }

  lemma MoreRows(pages: seq<PageImage>, page: PageImage, rest: seq<Item>)
    ensures BatchRows(pages) + (AllRows(page) + rest) == BatchRows(pages + [page]) + rest
  {
    FlattenMore(pages, page);
  }

  lemma NoPages()
    ensures BatchRows([]) == []
  {
  }

  lemma NothingAhead(store: Store, visited: set<PageId>)
    ensures ScanFrom(store, INVALID_PAGE_ID, visited) == []
  {
  }

  /** Following one link. */
  lemma ScanStep(store: Store, next: PageId, visited: set<PageId>)
    requires next != INVALID_PAGE_ID
    ensures next in visited ==> ScanFrom(store, next, visited) == [Err(CYCLE)]
    ensures next !in visited && ReadPage(store, next).Err? ==>
              ScanFrom(store, next, visited) == [Err(ReadPage(store, next).error)]
    ensures next !in visited && ReadPage(store, next).Ok? ==>
              && |store.Keys - (visited + {next})| < |store.Keys - visited|
              && var page := ReadPage(store, next).value;
                ScanFrom(store, next, visited) == AllRows(page) + ScanFrom(store, page.nextPageId, visited + {next})
  {
    hide AllRows, Decode;
    if next !in visited && next in store {
      assert store.Keys - (visited + {next}) == store.Keys - visited - {next};
    }
  }

  class PhysicalSeqScan {
    const heap: TableHeap
    const parallelism: nat
    var rows: TableIterator?
    var scan: ScanState?

    constructor (heap: TableHeap, workers: nat)
      ensures this.heap == heap && !Ready()
    {
      this.heap := heap;
      parallelism := if workers < 1 then 1 else if workers > 64 then 64 else workers;
      rows, scan := null, null;
    }

    predicate Ready()
      reads this
    {
      if parallelism > 1 then scan != null else rows != null
    }

    ghost predicate Valid()
      reads this, heap, rows, scan
    {
      && heap.Valid()
      && (scan != null ==> scan.heap == heap)
      && (rows != null ==> rows.heap == heap && rows.Valid())
    }

    /** What future calls will hand out. */
    ghost function Remaining(): seq<Item>
      reads this, heap, rows, scan
      requires Valid() && Ready()
    {
      if parallelism > 1 then scan.Remaining() else RowTuples(rows.Remaining())
    }

    /** Starts a scan: serial or batched, all tuples of the table are to come, in the same order. */
    method Init()
      requires heap.Valid()
      modifies this
      ensures Valid() && Ready() && Remaining() == RowTuples(heap.Rows())
    {
      rows, scan := null, null;
      if parallelism > 1 {
        scan := new ScanState(heap, parallelism);
        ScanIsRows(heap.store, heap.chain, heap.slots, 0, {});
      } else {
        rows := new TableIterator(heap);
      }
    }

    /** Hands out the next tuple. A worker that fails, in a batched scan, ends it with an error. */
    method Next() returns (r: Result<Option<Tuple>, string>, ghost lost: bool)
      requires Valid()
      modifies rows, scan
      ensures Valid()
      ensures !Ready() ==> r.Err?
      ensures lost ==> r.Err? && Ready() && Remaining() == [] && parallelism > 1
      ensures Ready() && !lost && old(Remaining()) == [] ==> r == Ok(None) && Remaining() == []
      ensures Ready() && !lost && old(Remaining()) != [] ==>
                r == Handed(old(Remaining())[0]) && Remaining() == old(Remaining())[1..]
    {
      if parallelism > 1 {
        if scan == null {
          return Err("scan not initialized"), false;
        }
        r, lost := scan.Next();
        return;
      }
      lost := false;
      if rows == null {
        return Err("table iterator not created"), false;
      }
      var row := rows.Next();
      r := Ok(match row case Some(pair) => Some(pair.1) case None => None);
    }
  }

  ghost function RowTuples(rows: seq<Row>): (items: seq<Item>)
    ensures |items| == |rows|
  {
    seq(|rows|, n requires 0 <= n < |rows| => Ok(rows[n].slot.tuple))
  }

  /** On a table's own chain the batched scan meets no page twice and yields its rows from page i on. */
  lemma {:induction false} ScanIsRows(store: Store, chain: seq<PageId>, slots: seq<seq<Slot>>, i: nat,
                                      visited: set<PageId>)
    requires Chained(store, chain, slots) && i <= |chain|
    requires forall id :: id in visited ==> id in chain[..i]
    ensures ScanFrom(store, Link(chain, i), visited) == RowTuples(RowsFrom(chain, slots, i))
    decreases |chain| - i
  {
    hide ScanFrom, Holds, Tuples, RowTuples, PageRows;
    if i < |chain| {
      assert PageOk(store, chain, slots, i);
      assert chain[i] !in visited;
      HeldStep(store, chain[i], Link(chain, i + 1), slots[i], visited);
      ScanIsRows(store, chain, slots, i + 1, visited + {chain[i]});
      PageTuples(chain[i], slots[i], RowsFrom(chain, slots, i + 1));
    } else {
      NothingAhead(store, visited);
      NoRows();
    }
  }

  lemma HeldStep(store: Store, id: PageId, next: PageId, slots: seq<Slot>, visited: set<PageId>)
    requires Holds(store, id, next, slots) && id != INVALID_PAGE_ID && id !in visited
    ensures ScanFrom(store, id, visited) == Tuples(slots) + ScanFrom(store, next, visited + {id})
  {
    hide ScanFrom, Decode, WellFormed, Slots, Tuples, AllRows;
    ScanStep(store, id, visited);
    AllRowsAre(Decode(store[id]).value);
  }

  lemma NoRows()
    ensures RowTuples([]) == []
  {
  }

  lemma PageTuples(id: PageId, slots: seq<Slot>, rest: seq<Row>)
    ensures RowTuples(PageRows(id, slots) + rest) == Tuples(slots) + RowTuples(rest)
  {
  }

  // ---- chains that are not a table's ----------------------------------------------------------

  /** Page by page, `path` follows the links of the store. */
  predicate Path(store: Store, path: seq<PageId>, end: PageId) {
    path != [] ==>
      && path[0] != INVALID_PAGE_ID && ReadPage(store, path[0]).Ok?
      && ReadPage(store, path[0]).value.nextPageId == (if |path| > 1 then path[1] else end)
      && Path(store, path[1..], end)
  }

  function PathRows(store: Store, path: seq<PageId>): seq<Item> {
    if path == [] || ReadPage(store, path[0]).Err? then []
    else AllRows(ReadPage(store, path[0]).value) + PathRows(store, path[1..])
  }

  /**
   * On any store, a chain that leads back to a page already passed is cut there with an error, one that leads to a page
   * that cannot be read is cut there with that error, and one that ends is read to its end: the batched scan always
   * terminates.
   */
  lemma {:induction false} ScanFollows(store: Store, path: seq<PageId>, end: PageId, visited: set<PageId>)
    requires Path(store, path, end) && DistinctIds(path) && forall id :: id in path ==> id !in visited
    requires end == INVALID_PAGE_ID || end in path || end in visited || ReadPage(store, end).Err?
    ensures ScanFrom(store, if path == [] then end else path[0], visited) ==
            PathRows(store, path) +
            if end == INVALID_PAGE_ID then []
            else if end in path || end in visited then [Err(CYCLE)]
            else [Err(ReadPage(store, end).error)]
    decreases |path|
  {
    hide ScanFrom, ReadPage, AllRows;
    if path == [] {
      if end == INVALID_PAGE_ID {
        NothingAhead(store, visited);
      } else {
        ScanStep(store, end, visited);
      }
    } else {
      ScanStep(store, path[0], visited);
      assert forall id :: id in path[1..] ==> id in path && id != path[0];
      assert end in path <==> end == path[0] || end in path[1..];
      ScanFollows(store, path[1..], end, visited + {path[0]});
    }
  }
}
