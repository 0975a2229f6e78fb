/** A table as a chain of slotted pages (storage/table_heap.rs). */
module TableHeap {
  import opened Prelude
  import opened TP = TablePage

  type Store = map<PageId, Bytes>

  datatype Row = Row(rid: RecordId, slot: Slot)

  ghost function Link(chain: seq<PageId>, i: nat): PageId {
    if i < |chain| then chain[i] else INVALID_PAGE_ID
  }

  /** Page `id` stores these slots and this link. */
  ghost predicate Holds(store: Store, id: PageId, next: PageId, slots: seq<Slot>) {
    && id in store && Decode(store[id]).Ok?
    && WellFormed(Decode(store[id]).value)
    && Decode(store[id]).value.nextPageId == next && Slots(Decode(store[id]).value) == slots
  }

  ghost predicate DistinctIds(chain: seq<PageId>) {
    forall i, j :: 0 <= i < j < |chain| ==> chain[i] != chain[j]
  }

  ghost predicate PageOk(store: Store, chain: seq<PageId>, slots: seq<seq<Slot>>, i: nat)
    requires i < |chain| == |slots|
  {
    INVALID_PAGE_ID < chain[i] <= MAX_PAGE_ID && Holds(store, chain[i], Link(chain, i + 1), slots[i])
  }

  /** An acyclic chain of stored pages in which only the last may be empty. */
  ghost predicate Chained(store: Store, chain: seq<PageId>, slots: seq<seq<Slot>>) {
    && 0 < |chain| == |slots| && DistinctIds(chain)
    && (forall i :: 0 <= i < |chain| ==> PageOk(store, chain, slots, i))
    && (forall i :: 0 <= i < |chain| - 1 ==> slots[i] != [])
  }

  ghost function PageRows(id: PageId, slots: seq<Slot>): (rows: seq<Row>)
    ensures |rows| == |slots|
  {
    seq(|slots|, k requires 0 <= k < |slots| => Row(RecordId(id, k), slots[k]))
  }

  /** The rows of page i and all later pages, in chain order. */
  ghost function RowsFrom(chain: seq<PageId>, slots: seq<seq<Slot>>, i: nat): seq<Row>
    requires i <= |chain| == |slots|
    decreases |chain| - i
  {
    if i == |chain| then [] else PageRows(chain[i], slots[i]) + RowsFrom(chain, slots, i + 1)
  }

  // ---- steps ----------------------------------------------------------------------------------

  lemma {:induction false} RowsAppend(chain: seq<PageId>, slots: seq<seq<Slot>>, s: Slot, i: nat)
    requires i < |chain| == |slots|
    ensures var n := |chain| - 1;
            RowsFrom(chain, slots[n := slots[n] + [s]], i) ==
            RowsFrom(chain, slots, i) + [Row(RecordId(chain[n], |slots[n]|), s)]
    decreases |chain| - i
  {
    var n := |chain| - 1;
    var slots' := slots[n := slots[n] + [s]];
    if i == n {
      assert PageRows(chain[n], slots'[n]) == PageRows(chain[n], slots[n]) + [Row(RecordId(chain[n], |slots[n]|), s)];
      assert RowsFrom(chain, slots', n + 1) == [] && RowsFrom(chain, slots, n + 1) == [];
    } else {
      RowsAppend(chain, slots, s, i + 1);
    }
  }

  /** An empty page at the end holds no rows. */
  lemma {:induction false} RowsExtend(chain: seq<PageId>, slots: seq<seq<Slot>>, id: PageId, i: nat)
    requires i <= |chain| == |slots|
    ensures RowsFrom(chain + [id], slots + [[]], i) == RowsFrom(chain, slots, i)
    decreases |chain| - i
  {
    if i < |chain| {
      RowsExtend(chain, slots, id, i + 1);
    } else {
      assert PageRows(id, []) == [];
      assert RowsFrom(chain + [id], slots + [[]], i + 1) == [];
    }
  }

  /** A row is in the table at its page and slot, and nowhere else. */
  lemma {:induction false} RowsAre(chain: seq<PageId>, slots: seq<seq<Slot>>, i: nat, row: Row)
    requires i <= |chain| == |slots|
    ensures row in RowsFrom(chain, slots, i) <==>
            exists j :: i <= j < |chain| && row.rid.pageId == chain[j] && row.rid.slotNum < |slots[j]|
                        && row.slot == slots[j][row.rid.slotNum]
    decreases |chain| - i
  {
    hide PageRows;
    if i < |chain| {
      RowsAre(chain, slots, i + 1, row);
      PageRowsAre(chain[i], slots[i], row);
      assert row in RowsFrom(chain, slots, i) <==>
             row in PageRows(chain[i], slots[i]) || row in RowsFrom(chain, slots, i + 1);
    }
  }

  lemma PageRowsAre(id: PageId, slots: seq<Slot>, row: Row)
    ensures row in PageRows(id, slots) <==>
            row.rid.pageId == id && row.rid.slotNum < |slots| && row.slot == slots[row.rid.slotNum]
  {
    if row.rid.pageId == id && row.rid.slotNum < |slots| && row.slot == slots[row.rid.slotNum] {
      assert PageRows(id, slots)[row.rid.slotNum] == row;
    }
  }

  /** Storing a page of the chain. */
  lemma StorePage(store: Store, chain: seq<PageId>, slots: seq<seq<Slot>>, i: nat, p: PageImage)
    requires Chained(store, chain, slots) && i < |chain| && WellFormed(p) && p.nextPageId == Link(chain, i + 1)
    requires i < |chain| - 1 ==> Slots(p) != []
    ensures HEADER_SIZE + TUPLE_INFO_SIZE * |p.infos| <= |p.data|
    ensures Chained(store[chain[i] := Encode(p)], chain, slots[i := Slots(p)])
  {
    hide Holds, Encode, Decode, Slots, WellFormed;
    assert PageOk(store, chain, slots, i);
    assert p.nextPageId <= MAX_PAGE_ID by {
      if i + 1 < |chain| { assert PageOk(store, chain, slots, i + 1); }
    }
    StoredHolds(store, chain[i], p);
    var store', slots' := store[chain[i] := Encode(p)], slots[i := Slots(p)];
    forall j | 0 <= j < |chain| ensures PageOk(store', chain, slots', j) {
      assert PageOk(store, chain, slots, j);
      if j != i {
        HoldsElsewhere(store, chain[i], Encode(p), chain[j], Link(chain, j + 1), slots[j]);
      }
    }
  }

  lemma StoredHolds(store: Store, id: PageId, p: PageImage)
    requires WellFormed(p) && p.nextPageId <= MAX_PAGE_ID
    ensures HEADER_SIZE + TUPLE_INFO_SIZE * |p.infos| <= |p.data|
    ensures Holds(store[id := Encode(p)], id, p.nextPageId, Slots(p))
  {
    PageRoundTrip(p);
  }

  lemma HoldsElsewhere(store: Store, id: PageId, bytes: Bytes, other: PageId, next: PageId, slots: seq<Slot>)
    requires id != other && Holds(store, other, next, slots)
    ensures Holds(store[id := bytes], other, next, slots)
  {
  }

  /** Hanging an empty page behind a non-empty last one. */
  lemma ExtendChain(store: Store, chain: seq<PageId>, slots: seq<seq<Slot>>, id: PageId, empty: PageImage,
      last: PageImage)
    requires Chained(store, chain, slots) && id !in store && INVALID_PAGE_ID < id <= MAX_PAGE_ID
    requires WellFormed(empty) && Slots(empty) == [] && empty.nextPageId == INVALID_PAGE_ID
    requires WellFormed(last) && Slots(last) == slots[|chain| - 1] != [] && last.nextPageId == id
    ensures HEADER_SIZE + TUPLE_INFO_SIZE * |empty.infos| <= |empty.data|
    ensures HEADER_SIZE + TUPLE_INFO_SIZE * |last.infos| <= |last.data|
    ensures Chained(store[id := Encode(empty)][chain[|chain| - 1] := Encode(last)], chain + [id], slots + [[]])
  {
    hide Holds, Encode, Decode, Slots, WellFormed;
    var n := |chain| - 1;
    assert forall j :: 0 <= j < |chain| ==> PageOk(store, chain, slots, j);
    StoredHolds(store, id, empty);
    var store1 := store[id := Encode(empty)];
    StoredHolds(store1, chain[n], last);
    var store2 := store1[chain[n] := Encode(last)];
    forall j | 0 <= j < |chain + [id]| ensures PageOk(store2, chain + [id], slots + [[]], j) {
      if j < |chain| {
        assert PageOk(store, chain, slots, j);
        InStore(store, chain[j], Link(chain, j + 1), slots[j]);
        if j < n {
          HoldsElsewhere(store, id, Encode(empty), chain[j], chain[j + 1], slots[j]);
          HoldsElsewhere(store1, chain[n], Encode(last), chain[j], chain[j + 1], slots[j]);
        }
      } else {
        assert PageOk(store, chain, slots, n);
        InStore(store, chain[n], Link(chain, n + 1), slots[n]);
        HoldsElsewhere(store1, chain[n], Encode(last), id, INVALID_PAGE_ID, []);
      }
    }
    forall j | 0 <= j < |chain| ensures chain[j] != id {
      assert PageOk(store, chain, slots, j);
      InStore(store, chain[j], Link(chain, j + 1), slots[j]);
    }
  }

  lemma InStore(store: Store, id: PageId, next: PageId, slots: seq<Slot>)
    requires Holds(store, id, next, slots)
    ensures id in store
  {
  }

  lemma {:induction false} FreeBelow(keys: set<PageId>, n: nat)
    requires |keys| < n
    ensures exists id :: 1 <= id <= n && id !in keys
  {
    if n == 1 {
      assert keys == {};
    } else if n in keys {
      FreeBelow(keys - {n}, n - 1);
      var id :| 1 <= id <= n - 1 && id !in keys - {n};
      assert id !in keys;
    }
  }

  /** No page has more room for a tuple than an empty one. */
  lemma EmptyHasMost(slots: seq<Slot>, tuple: Tuple)
    ensures HasRoom(slots, tuple) ==> HasRoom([], tuple)
  {
  }

  // ---- the heap -------------------------------------------------------------------------------

  /** An error of the buffer pool, or the panic over a tuple too large for any page. */
  datatype InsertError = NoPage(message: string) | TupleTooLarge

  class TableHeap {
    var firstPageId: PageId
    var lastPageId: PageId
    var store: Store
    ghost var chain: seq<PageId>
    ghost var slots: seq<seq<Slot>>

    ghost predicate Valid()
      reads this
    {
      && Chained(store, chain, slots)
      && firstPageId == chain[0] && lastPageId == chain[|chain| - 1]
    }

    /** All rows, in chain order and slot order. */
    ghost function Rows(): seq<Row>
      reads this
      requires Valid()
    {
      RowsFrom(chain, slots, 0)
    }

    /** Stands for the buffer pool handing out a page; it fails when no frame is to spare or page numbers run out. */
    static method NewPage(store: Store) returns (r: Result<PageId, string>)
      ensures r.Ok? ==> INVALID_PAGE_ID < r.value <= MAX_PAGE_ID && r.value !in store
    {
      var spare := Chance();
      if !spare || |store.Keys| >= MAX_PAGE_ID {
        return Err("Cannot new page because buffer pool is full and no page to evict");
      }
      FreeBelow(store.Keys, MAX_PAGE_ID);
      var id: PageId :| 1 <= id <= MAX_PAGE_ID && id !in store.Keys;
      r := Ok(id);
    }

    method FetchTablePage(i: nat, ghost n: nat) returns (page: TablePage)
      requires Valid() && n < |chain| && i == chain[n]
      ensures fresh(page) && fresh(page.data) && page.Valid()
      ensures Slots(page.View()) == slots[n] && page.nextPageId == Link(chain, n + 1)
    {
      hide WellFormed;
      assert PageOk(store, chain, slots, n);
      var image := Decode(store[i]).value;
      page := new TablePage.Decoded(image);
    }

    /** A table of one empty page, if a page can be had. */
    static method TryNew(store: Store) returns (r: Result<TableHeap, string>)
      ensures r.Ok? ==> fresh(r.value) && r.value.Valid() && r.value.Rows() == [] && |r.value.chain| == 1
      ensures r.Ok? ==> r.value.chain[0] !in store
      ensures r.Ok? ==> forall id :: id in store ==> id in r.value.store && r.value.store[id] == store[id]
    {
      var firstPage := NewPage(store);
      if firstPage.Err? {
        return Err(firstPage.error);
      }
      var heap := new TableHeap(store, firstPage.value);
      r := Ok(heap);
    }

    constructor (store: Store, firstPageId: PageId)
      requires INVALID_PAGE_ID < firstPageId <= MAX_PAGE_ID && firstPageId !in store
      ensures Valid() && Rows() == [] && chain == [firstPageId]
      ensures forall id :: id in store ==> id in this.store && this.store[id] == store[id]
    {
      this.store := store;
      this.firstPageId, lastPageId, chain, slots := firstPageId, firstPageId, [firstPageId], [[]];
      new;
      hide WellFormed, Slots, Encode, Holds;
      var tablePage := new TablePage(INVALID_PAGE_ID);
      StoredHolds(store, firstPageId, tablePage.View());
      this.store := store[firstPageId := Encode(tablePage.View())];
      LonePage(this.store, firstPageId);
    }

    /** Gives a table that has run full one more page, empty so far. */
    method Extend(lastTablePage: TablePage) returns (r: Result<TablePage, string>)
      requires Valid() && lastTablePage.Valid() && slots[|chain| - 1] != []
      requires Slots(lastTablePage.View()) == slots[|chain| - 1]
      modifies this, lastTablePage
      ensures Valid()
      ensures r.Err? ==> unchanged(this)
      ensures r.Ok? ==>
                && fresh(r.value) && fresh(r.value.data) && r.value.Valid()
                && Slots(r.value.View()) == [] && r.value.nextPageId == INVALID_PAGE_ID
                && |chain| == |old(chain)| + 1 && chain[..|old(chain)|] == old(chain) && slots == old(slots) + [[]]
                && chain[|old(chain)|] !in old(store)
      ensures forall id :: id in old(store) && id !in old(chain) ==> id in store && store[id] == old(store)[id]
    {
      hide WellFormed, Slots, Encode;
      var next := NewPage(store);
      if next.Err? {
        return Err(next.error);
      }
      var nextPageId := next.value;
      var nextTablePage := new TablePage(INVALID_PAGE_ID);
      Relinked(lastTablePage.View(), nextPageId);
      ExtendChain(store, chain, slots, nextPageId, nextTablePage.View(),
        lastTablePage.View().(nextPageId := nextPageId));
      store := store[nextPageId := Encode(nextTablePage.View())];
      lastTablePage.nextPageId := nextPageId;
      store := store[lastPageId := Encode(lastTablePage.View())];
      lastPageId := nextPageId;
      chain, slots := chain + [nextPageId], slots + [[]];
      r := Ok(nextTablePage);
    }

    /** Writes back a page of the chain. */
    method SetData(id: PageId, page: TablePage, ghost i: nat)
      requires Valid() && i < |chain| && id == chain[i]
      requires page.Valid() && page.nextPageId == Link(chain, i + 1)
      requires i < |chain| - 1 ==> Slots(page.View()) != []
      modifies this`store, this`slots
      ensures Valid() && slots == old(slots)[i := Slots(page.View())]
      ensures forall other :: other in old(store) && other !in chain ==>
              other in store && store[other] == old(store)[other]
      ensures old(store).Keys <= store.Keys
    {
      hide WellFormed, Slots, Encode;
      StorePage(store, chain, slots, i, page.View());
      store := store[id := Encode(page.View())];
      slots := slots[i := Slots(page.View())];
    }

    /**
     Appends one row, rolling over to a new page when the last is full. It always succeeds where the last page has room.
     A tuple that fits no empty page makes it panic, unless it first needs a page that cannot be had; the rows stay.
     */
    method InsertTuple(meta: TupleMeta, tuple: Tuple) returns (r: Result<RecordId, InsertError>)
      requires Valid()
      modifies this
      ensures Valid()
      ensures r.Ok? ==> HasRoom([], tuple) && Rows() == old(Rows()) + [Row(r.value, Slot(meta, tuple))]
      ensures r.Ok? ==> forall row :: row in old(Rows()) ==> row.rid != r.value
      ensures r.Ok? ==> var n := |old(chain)|;
                        if HasRoom(old(slots)[n - 1], tuple) then
                          chain == old(chain) && r.value == RecordId(chain[n - 1], |old(slots)[n - 1]|)
                        else
                          |chain| == n + 1 && chain[..n] == old(chain) && r.value == RecordId(chain[n], 0)
      ensures HasRoom(old(slots)[|old(chain)| - 1], tuple) ==> r.Ok?
      ensures r == Err(TupleTooLarge) ==> !HasRoom([], tuple)
      ensures !HasRoom([], tuple) && old(slots)[|old(chain)| - 1] == [] ==> r == Err(TupleTooLarge)
      ensures r.Err? ==> Rows() == old(Rows())
      ensures r.Err? && r.error.NoPage? ==> old(slots)[|old(chain)| - 1] != [] && store == old(store)
      ensures forall id :: id in old(store) && id !in old(chain) ==> id in store && store[id] == old(store)[id]
    {
      hide WellFormed, Slots, Encode, HasRoom, Chained, RowsFrom, PageRows;
      ChainedLast(store, chain, slots);
      var lastTablePage := FetchTablePage(lastPageId, |chain| - 1);
      while true
        invariant Valid() && Rows() == old(Rows()) && |chain| == |slots| > 0
        invariant fresh(lastTablePage) && fresh(lastTablePage.data) && lastTablePage.Valid()
        invariant Slots(lastTablePage.View()) == slots[|chain| - 1] && lastTablePage.nextPageId == INVALID_PAGE_ID
        invariant slots[|chain| - 1] != [] ==> store == old(store) && chain == old(chain) && slots == old(slots)
        invariant || (chain == old(chain) && slots == old(slots))
                  || (!HasRoom(old(slots)[|old(chain)| - 1], tuple) && |chain| == |old(chain)| + 1
                      && chain[..|old(chain)|] == old(chain) && slots == old(slots) + [[]])
        invariant slots[|chain| - 1] == [] ==>
                    slots[|chain| - 1] == old(slots)[|old(chain)| - 1] || !HasRoom(old(slots)[|old(chain)| - 1], tuple)
        invariant forall id :: id in old(store) && id !in old(chain) ==>
                  id in store && store[id] == old(store)[id] && id !in chain
        decreases if slots[|chain| - 1] == [] then 0 else 1
      {
        var offset := lastTablePage.NextTupleOffset(tuple);
        EmptyHasMost(slots[|chain| - 1], tuple);
        if offset.Ok? {
          break;
        }
        SlotCount(lastTablePage.View());
        if lastTablePage.numTuples == 0 {
          return Err(TupleTooLarge);
        }
        ghost var before, slotsBefore := chain, slots;
        var extended := Extend(lastTablePage);
        if extended.Err? {
          return Err(NoPage(extended.error));
        }
        assert chain == before + [chain[|before|]];
        RowsExtend(before, slotsBefore, chain[|before|], 0);
        lastTablePage := extended.value;
      }
      var rid := Append(lastTablePage, meta, tuple);
      r := Ok(rid);
    }

    /** Puts a tuple that has room there on the last page. */
    method Append(lastTablePage: TablePage, meta: TupleMeta, tuple: Tuple) returns (rid: RecordId)
      requires Valid() && lastTablePage.Valid() && lastTablePage.nextPageId == INVALID_PAGE_ID
      requires Slots(lastTablePage.View()) == slots[|chain| - 1] && HasRoom(slots[|chain| - 1], tuple)
      modifies this`store, this`slots, lastTablePage, lastTablePage.data
      ensures Valid() && Rows() == old(Rows()) + [Row(rid, Slot(meta, tuple))]
      ensures rid == RecordId(chain[|chain| - 1], |old(slots)[|chain| - 1]|)
      ensures forall row :: row in old(Rows()) ==> row.rid != rid
      ensures forall id :: id in old(store) && id !in chain ==> id in store && store[id] == old(store)[id]
    {
      hide WellFormed, Slots, Encode, HasRoom, Chained, RowsFrom, PageRows;
      ChainedLast(store, chain, slots);
      ghost var n := |chain| - 1;
      RowsAppend(chain, slots, Slot(meta, tuple), 0);
      var slotId := lastTablePage.InsertTuple(meta, tuple);
      rid := RecordId(lastPageId, slotId.value);
      NewRid(store, chain, slots);
      SetData(lastPageId, lastTablePage, n);
    }

    /** Replaces the tuple of one row; every other row stays as and where it is. */
    method UpdateTuple(rid: RecordId, tuple: Tuple, ghost i: nat) returns (r: Result<(), string>)
      requires Valid() && i < |chain| && chain[i] == rid.pageId
      modifies this`store, this`slots
      ensures Valid()
      ensures var k := rid.slotNum % 0x1_0000;
              && (r.Ok? <==> k < |old(slots)[i]| && Fits(WithTuple(old(slots)[i], k, tuple)))
              && (r.Ok? ==> Rows() == Changed(old(Rows()), RecordId(rid.pageId, k), old(slots)[i][k].(tuple := tuple)))
      ensures r.Err? ==> store == old(store) && Rows() == old(Rows())
    {
      hide WellFormed, Slots, Encode, Fits, RowsFrom, Chained;
      var k := rid.slotNum % 0x1_0000;
      PageNonEmpty(store, chain, slots, i);
      var tablePage := FetchTablePage(rid.pageId, i);
      r := tablePage.UpdateTuple(tuple, k);
      SlotCount(tablePage.View());
      if r.Err? {
        return;
      }
      ChangedRows(chain, slots, i, k, slots[i][k].(tuple := tuple), 0);
      SetData(rid.pageId, tablePage, i);
    }

    /** Replaces the meta of one row. */
    method UpdateTupleMeta(meta: TupleMeta, rid: RecordId, ghost i: nat) returns (r: Result<(), string>)
      requires Valid() && i < |chain| && chain[i] == rid.pageId
      modifies this`store, this`slots
      ensures Valid()
      ensures var k := rid.slotNum % 0x1_0000;
              && (r.Ok? <==> k < |old(slots)[i]|)
              && (r.Ok? ==> Rows() == Changed(old(Rows()), RecordId(rid.pageId, k), old(slots)[i][k].(meta := meta)))
      ensures r.Err? ==> store == old(store) && Rows() == old(Rows())
    {
      hide WellFormed, Slots, Encode, RowsFrom, Chained;
      var k := rid.slotNum % 0x1_0000;
      PageNonEmpty(store, chain, slots, i);
      var tablePage := FetchTablePage(rid.pageId, i);
      SlotCount(tablePage.View());
      r := tablePage.UpdateTupleMeta(meta, k);
      if r.Err? {
        return;
      }
      ChangedRows(chain, slots, i, k, slots[i][k].(meta := meta), 0);
      SetData(rid.pageId, tablePage, i);
    }

    /** Reads one row. */
    method FullTuple(rid: RecordId, ghost i: nat) returns (r: Result<(TupleMeta, Tuple), string>)
      requires Valid() && i < |chain| && chain[i] == rid.pageId
      ensures var k := rid.slotNum % 0x1_0000;
              r == if k < |slots[i]| then Ok((slots[i][k].meta, slots[i][k].tuple)) else Err("tuple_id out of range")
    {
      hide WellFormed, Slots, Chained;
      PageNonEmpty(store, chain, slots, i);
      var tablePage := FetchTablePage(rid.pageId, i);
      SlotCount(tablePage.View());
      r := tablePage.Tuple(rid.slotNum % 0x1_0000);
    }

    method GetFirstRid() returns (rid: Option<RecordId>)
      requires Valid()
      ensures rid == if slots[0] == [] then None else Some(RecordId(chain[0], 0))
    {
      hide WellFormed, Slots;
      var tablePage := FetchTablePage(firstPageId, 0);
      SlotCount(tablePage.View());
      if tablePage.numTuples == 0 {
        return None;
      }
      rid := Some(RecordId(firstPageId, 0));
    }

    method GetNextRid(rid: RecordId, ghost i: nat) returns (next: Option<RecordId>)
      requires Valid() && i < |chain| && chain[i] == rid.pageId
      ensures next == if rid.slotNum + 1 < |slots[i]| then Some(RecordId(chain[i], rid.slotNum + 1))
                      else if i + 1 < |chain| && slots[i + 1] != [] then Some(RecordId(chain[i + 1], 0))
                      else None
    {
      hide WellFormed, Slots, Chained;
      PageNonEmpty(store, chain, slots, i);
      var tablePage := FetchTablePage(rid.pageId, i);
      SlotCount(tablePage.View());
      next := tablePage.GetNextRid(rid);
      if next.Some? {
        return;
      }
      if tablePage.nextPageId == INVALID_PAGE_ID {
        LastLink(store, chain, slots, i);
        return None;
      }
      var nextTablePage := FetchTablePage(tablePage.nextPageId, i + 1);
      SlotCount(nextTablePage.View());
      if nextTablePage.numTuples == 0 {
        return None;
      }
      next := Some(RecordId(tablePage.nextPageId, 0));
    }
  }

  lemma SlotCount(p: PageImage)
    requires WellFormed(p)
    ensures p.numTuples == |p.infos| == |Slots(p)| < 0x1_0000
  {
    WellFormedBounds(p);
  }

  lemma LastLink(store: Store, chain: seq<PageId>, slots: seq<seq<Slot>>, i: nat)
    requires Chained(store, chain, slots) && i < |chain|
    ensures Link(chain, i + 1) == INVALID_PAGE_ID <==> i + 1 == |chain|
  {
    if i + 1 < |chain| {
      assert PageOk(store, chain, slots, i + 1);
    }
  }

  lemma PageNonEmpty(store: Store, chain: seq<PageId>, slots: seq<seq<Slot>>, i: nat)
    requires Chained(store, chain, slots) && i < |chain|
    ensures |chain| == |slots| && (i + 1 < |chain| ==> slots[i] != [])
    ensures |slots[i]| < 0x1_0000 && DistinctIds(chain)
  {
    assert PageOk(store, chain, slots, i);
    WellFormedBounds(Decode(store[chain[i]]).value);
  }

  /** The rows with the one at `rid` replaced. */
  ghost function Changed(rows: seq<Row>, rid: RecordId, slot: Slot): (changed: seq<Row>)
    ensures |changed| == |rows|
  {
    seq(|rows|, n requires 0 <= n < |rows| => if rows[n].rid == rid then Row(rid, slot) else rows[n])
  }

  lemma ChangedAppend(a: seq<Row>, b: seq<Row>, rid: RecordId, slot: Slot)
    ensures Changed(a + b, rid, slot) == Changed(a, rid, slot) + Changed(b, rid, slot)
  {
  }

  lemma {:induction false} ChangedRows(chain: seq<PageId>, slots: seq<seq<Slot>>, i: nat, k: nat, slot: Slot,
      j: nat)
    requires DistinctIds(chain) && i < |chain| == |slots| && k < |slots[i]| && j <= |chain|
    ensures RowsFrom(chain, slots[i := slots[i][k := slot]], j) ==
            Changed(RowsFrom(chain, slots, j), RecordId(chain[i], k), slot)
    decreases |chain| - j
  {
    if j < |chain| {
      var slots', rid := slots[i := slots[i][k := slot]], RecordId(chain[i], k);
      ChangedRows(chain, slots, i, k, slot, j + 1);
      ChangedAppend(PageRows(chain[j], slots[j]), RowsFrom(chain, slots, j + 1), rid, slot);
      assert PageRows(chain[j], slots'[j]) == Changed(PageRows(chain[j], slots[j]), rid, slot);
    }
  }

  lemma LonePage(store: Store, id: PageId)
    requires INVALID_PAGE_ID < id <= MAX_PAGE_ID && Holds(store, id, INVALID_PAGE_ID, [])
    ensures Chained(store, [id], [[]]) && RowsFrom([id], [[]], 0) == []
  {
    assert PageOk(store, [id], [[]], 0);
    assert RowsFrom([id], [[]], 1) == [];
    assert PageRows(id, []) == [];
  }

  lemma ChainedLast(store: Store, chain: seq<PageId>, slots: seq<seq<Slot>>)
    requires Chained(store, chain, slots)
    ensures 0 < |chain| == |slots|
  {
  }

  /** The record id after the last row is not taken. */
  lemma NewRid(store: Store, chain: seq<PageId>, slots: seq<seq<Slot>>)
    requires Chained(store, chain, slots)
    ensures var n := |chain| - 1;
            forall row :: row in RowsFrom(chain, slots, 0) ==> row.rid != RecordId(chain[n], |slots[n]|)
  {
    var n := |chain| - 1;
    forall row | row in RowsFrom(chain, slots, 0) ensures row.rid != RecordId(chain[n], |slots[n]|) {
      RowsAre(chain, slots, 0, row);
    }
  }

  lemma Relinked(p: PageImage, next: PageId)
    requires WellFormed(p)
    ensures WellFormed(p.(nextPageId := next)) && Slots(p.(nextPageId := next)) == Slots(p)
  {
    forall i | 0 <= i < |p.infos| ensures SlotAt(p.(nextPageId := next), i) == SlotAt(p, i) {
      Inside(p, i);
    }
  }

  // ---- scanning -------------------------------------------------------------------------------

  /** A scan of the whole table. */
  class TableIterator {
    const heap: TableHeap
    var cursor: RecordId
    var started: bool
    var ended: bool
    ghost var page: nat

    ghost predicate Valid()
      reads this, heap
    {
      && heap.Valid()
      && (started && !ended ==>
            page < |heap.chain| && cursor.pageId == heap.chain[page] && cursor.slotNum < |heap.slots[page]|)
    }

    /** The rows still to come. */
    ghost function Remaining(): (rows: seq<Row>)
      reads this, heap
      requires Valid()
      ensures ended ==> rows == []
    {
      if ended then []
      else if !started then heap.Rows()
      else
        PageRows(heap.chain[page], heap.slots[page])[cursor.slotNum + 1..] + RowsFrom(heap.chain, heap.slots, page + 1)
    }

    constructor (heap: TableHeap)
      requires heap.Valid()
      ensures Valid() && this.heap == heap && Remaining() == heap.Rows()
    {
      this.heap := heap;
      cursor, started, ended, page := RecordId(INVALID_PAGE_ID, 0), false, false, 0;
    }

    /** The cursor is on this row. */
    ghost predicate At(row: Row)
      reads this, heap
      requires Valid()
    {
      started && !ended && row.rid == cursor && row.slot == heap.slots[page][cursor.slotNum]
    }

    method First() returns (found: bool)
      requires Valid() && !started && !ended
      modifies this
      ensures Valid() && (found <==> old(Remaining()) != [])
      ensures found ==> At(old(Remaining())[0]) && Remaining() == old(Remaining())[1..]
      ensures !found ==> Remaining() == []
    {
      hide Chained, PageRows, RowsFrom, DistinctIds;
      ghost var chain, slots := heap.chain, heap.slots;
      started := true;
      var firstRid := heap.GetFirstRid();
      ChainedLast(heap.store, chain, slots);
      PageNonEmpty(heap.store, chain, slots, 0);
      FirstRow(chain, slots);
      if firstRid.None? {
        ended := true;
        return false;
      }
      page := 0;
      cursor := firstRid.value;
      found := true;
    }

    method Step() returns (found: bool)
      requires Valid() && started && !ended
      modifies this
      ensures Valid() && (found <==> old(Remaining()) != [])
      ensures found ==> At(old(Remaining())[0]) && Remaining() == old(Remaining())[1..]
      ensures !found ==> Remaining() == []
    {
      hide Chained, PageRows, RowsFrom, DistinctIds;
      ghost var chain, slots := heap.chain, heap.slots;
      PageNonEmpty(heap.store, chain, slots, page);
      var nextRid := heap.GetNextRid(cursor, page);
      RowsAhead(heap.store, chain, slots, page, cursor.slotNum);
      if nextRid.None? {
        return false;
      }
      if cursor.slotNum + 1 >= |slots[page]| {
        page := page + 1;
      }
      cursor := nextRid.value;
      found := true;
    }

    /** Hands out the next row, in chain order and slot order, until all have been handed out. */
    method Next() returns (r: Option<(RecordId, Tuple)>)
      requires Valid()
      modifies this
      ensures Valid()
      ensures old(Remaining()) == [] ==> r == None && Remaining() == []
      ensures old(Remaining()) != [] ==>
                var row := old(Remaining())[0];
                r == Some((row.rid, row.slot.tuple)) && Remaining() == old(Remaining())[1..]
    {
      hide Chained, PageRows, RowsFrom, DistinctIds, Remaining;
      if ended {
        return None;
      }
      var found;
      if started {
        found := Step();
      } else {
        found := First();
      }
      if !found {
        return None;
      }
      PageNonEmpty(heap.store, heap.chain, heap.slots, page);
      var tuple := heap.FullTuple(cursor, page);
      r := Some((cursor, tuple.value.1));
    }
  }

  lemma FirstRow(chain: seq<PageId>, slots: seq<seq<Slot>>)
    requires 0 < |chain| == |slots| && (1 < |chain| ==> slots[0] != [])
    ensures slots[0] == [] ==> RowsFrom(chain, slots, 0) == []
    ensures slots[0] != [] ==>
              var rows := RowsFrom(chain, slots, 0);
              && rows != [] && rows[0] == Row(RecordId(chain[0], 0), slots[0][0])
              && rows[1..] == PageRows(chain[0], slots[0])[1..] + RowsFrom(chain, slots, 1)
  {
  }

  /** What lies ahead of slot k of page i. */
  lemma RowsAhead(store: Store, chain: seq<PageId>, slots: seq<seq<Slot>>, i: nat, k: nat)
    requires Chained(store, chain, slots) && i < |chain| && k < |slots[i]|
    ensures var ahead := PageRows(chain[i], slots[i])[k + 1..] + RowsFrom(chain, slots, i + 1);
            if k + 1 < |slots[i]| then
              && ahead != [] && ahead[0] == Row(RecordId(chain[i], k + 1), slots[i][k + 1])
              && ahead[1..] == PageRows(chain[i], slots[i])[k + 2..] + RowsFrom(chain, slots, i + 1)
            else if i + 1 < |chain| && slots[i + 1] != [] then
              && ahead != [] && ahead[0] == Row(RecordId(chain[i + 1], 0), slots[i + 1][0])
              && ahead[1..] == PageRows(chain[i + 1], slots[i + 1])[1..] + RowsFrom(chain, slots, i + 2)
            else ahead == []
  {
    var page := PageRows(chain[i], slots[i]);
    if k + 1 < |slots[i]| {
      assert page[k + 1..] == [page[k + 1]] + page[k + 2..];
    } else if i + 1 < |chain| {
      assert page[k + 1..] == [];
      if slots[i + 1] == [] {
        assert RowsFrom(chain, slots, i + 2) == [];
      }
    }
  }
}
