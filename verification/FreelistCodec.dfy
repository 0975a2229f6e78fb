/** Free-list pages as the 4096 bytes the file holds for them (storage/codec/freelist_page.rs). */
module FreelistCodec {
  import opened Prelude
  import opened BigEndian
  import opened DiskManager

  const U32: nat := 0x1_0000_0000

  function EncodeIds(ids: seq<PageId>): (bytes: Bytes)
    ensures |bytes| == 4 * |ids|
  {
    if ids == [] then [] else Be(ids[0], 4) + EncodeIds(ids[1..])
  }

  function EncodeHeader(page: FreelistImage): (bytes: Bytes)
    ensures |bytes| == 12
  {
    Be(page.nextPageId, 4) + Be(page.currentSize, 4) + Be(page.maxSize, 4)
  }

  /** The header and the first `currentSize` entries, filled up with zeros; the code panics when that is too much. */
  function EncodePage(page: FreelistImage): Option<Bytes>
    requires page.currentSize <= |page.entries|
  {
    var bytes := EncodeHeader(page) + EncodeIds(page.entries[..page.currentSize]);
    if |bytes| <= PAGE_SIZE then Some(bytes + Zeros(PAGE_SIZE - |bytes|)) else None
  }

  function DecodeIds(bytes: Bytes, n: nat): Result<seq<PageId>, string> {
    if n == 0 then Ok([])
    else if |bytes| < 4 then Err("bytes length is too short")
    else
      match DecodeIds(bytes[4..], n - 1)
      case Ok(rest) => Ok([FromBe(bytes[..4])] + rest)
      case Err(e) => Err(e)
  }

  function DecodePage(bytes: Bytes): Result<FreelistImage, string> {
    if |bytes| < 12 then Err("bytes length is too short")
    else
      var size := FromBe(bytes[4..8]);
      match DecodeIds(bytes[12..], size)
      case Ok(ids) => Ok(FreelistImage(FromBe(bytes[0..4]), size, FromBe(bytes[8..12]), ids))
      case Err(e) => Err(e)
  }

  ghost predicate Small(ids: seq<PageId>) { forall i | 0 <= i < |ids| :: ids[i] < U32 }

  lemma {:induction false} IdsRoundTrip(ids: seq<PageId>, rest: Bytes)
    requires Small(ids)
    ensures DecodeIds(EncodeIds(ids) + rest, |ids|) == Ok(ids)
  {
    hide Be, FromBe, Pow256;
    if ids != [] {
      var b := EncodeIds(ids) + rest;
      Widths();
      BeRoundTrip(ids[0], 4);
      IdsRoundTrip(ids[1..], rest);
      assert b[..4] == Be(ids[0], 4) && b[4..] == EncodeIds(ids[1..]) + rest;
      assert [ids[0]] + ids[1..] == ids;
    }
  }

  /**
   * A page with a list of entries can be written if and only if it has no more of them than a free-list page may hold;
   * then it takes exactly one page of the file and reads back as it was.
   */
  lemma CapacityExact(next: PageId, entries: seq<PageId>)
    ensures EncodePage(Image(next, entries)).Some? <==> |entries| <= FREELIST_PAGE_MAX_SIZE
    ensures |entries| <= FREELIST_PAGE_MAX_SIZE ==>
              EncodePage(Image(next, entries)).value ==
              EncodeHeader(Image(next, entries)) + EncodeIds(entries) + Zeros(PAGE_SIZE - 12 - 4 * |entries|)
    ensures EncodePage(Image(next, entries)).Some? && next < U32 && Small(entries) ==>
              var bytes := EncodePage(Image(next, entries)).value;
              |bytes| == PAGE_SIZE && DecodePage(bytes) == Ok(Image(next, entries))
  {
    var page := Image(next, entries);
    assert entries[..|entries|] == entries;
    if EncodePage(page).Some? && next < U32 && Small(entries) {
      PageRoundTrip(page);
    }
  }

  lemma PageRoundTrip(page: FreelistImage)
    requires page.currentSize == |page.entries| && EncodePage(page).Some?
    requires page.nextPageId < U32 && page.maxSize < U32 && Small(page.entries)
    ensures |EncodePage(page).value| == PAGE_SIZE && DecodePage(EncodePage(page).value) == Ok(page)
  {
    hide Be, FromBe, Pow256, EncodeIds, DecodeIds;
    var ids := page.entries;
    assert ids[..page.currentSize] == ids;
    var bytes := EncodePage(page).value;
    var rest := Zeros(PAGE_SIZE - (12 + 4 * |ids|));
    var a, b, c := Be(page.nextPageId, 4), Be(page.currentSize, 4), Be(page.maxSize, 4);
    Widths();
    BeRoundTrip(page.nextPageId, 4);
    BeRoundTrip(page.currentSize, 4);
    BeRoundTrip(page.maxSize, 4);
    IdsRoundTrip(ids, rest);
    assert bytes == a + b + c + EncodeIds(ids) + rest;
    assert bytes[0..4] == a && bytes[4..8] == b && bytes[8..12] == c && bytes[12..] == EncodeIds(ids) + rest;
  }

  /** Entries 5, 6 and 8 on a page linked to page 1: the link, 3 entries of at most 1021, then the entries. */
  lemma KnownPage()
    ensures EncodeHeader(Image(1, [5, 6, 8])) == [0, 0, 0, 1, 0, 0, 0, 3, 0, 0, 3, 253]
    ensures EncodeIds([5, 6, 8]) == [0, 0, 0, 5, 0, 0, 0, 6, 0, 0, 0, 8]
  {
    hide Be, EncodeIds;
    KnownIds();
    BeBytes(0, 0, 0, 1);
    BeBytes(0, 0, 0, 3);
    BeBytes(0, 0, 3, 253);
    assert Be(1, 4) == [0, 0, 0, 1] && Be(3, 4) == [0, 0, 0, 3] && Be(1021, 4) == [0, 0, 3, 253];
  }

  lemma KnownIds()
    ensures EncodeIds([5, 6, 8]) == [0, 0, 0, 5, 0, 0, 0, 6, 0, 0, 0, 8]
  {
    var ids := [5, 6, 8];
    assert ids[1..] == [6, 8] && [6, 8][1..] == [8] && [8][1..] == [];
    hide Be;
    BeBytes(0, 0, 0, 5);
    BeBytes(0, 0, 0, 6);
    BeBytes(0, 0, 0, 8);
    assert EncodeIds([8]) == [0, 0, 0, 8];
    assert EncodeIds([6, 8]) == [0, 0, 0, 6, 0, 0, 0, 8];
  }

  /** The bytes of one block of the file. */
  function BlockBytes(block: Block): Option<Bytes> {
    match block
    case Raw(bytes) => Some(bytes)
    case Freelist(image) => if image.currentSize <= |image.entries| then EncodePage(image) else None
  }

  /**
   * As long as page numbers fit 32 bits, every page of a manager's file takes 4096 bytes, and the pages of the free
   * list read back as the list's pages.
   */
  lemma FileEncodes(file: map<PageId, Block>, s: Store, head: PageId, inUse: set<PageId>, p: PageId)
    requires Partition(s, inUse) && OnDisk(file, s, head) && PlainPages(file, inUse) && s.next <= U32 && p in file
    ensures BlockBytes(file[p]).Some? && |BlockBytes(file[p]).value| == PAGE_SIZE
    ensures forall i | 0 <= i < |s.chain| && p == s.chain[i] ::
              DecodePage(BlockBytes(file[p]).value) == Ok(Image(Link(s.chain, i + 1), s.lists[i]))
  {
    Disjointness(s, inUse);
    Everywhere(s, inUse, p);
    hide Partition, Listed, DecodePage, EncodePage;
    if i :| 0 <= i < |s.chain| && p == s.chain[i] {
      assert PageOnDisk(file, s, i);
      EntriesSmall(s, inUse, i);
      var next, l := Link(s.chain, i + 1), s.lists[i];
      assert next < U32 by { if i + 1 < |s.chain| { assert s.chain[i + 1] in s.chain; } }
      CapacityExact(next, l);
      assert forall k | 0 <= k < |s.chain| && p == s.chain[k] :: k == i;
    }
  }

  /** A page of the file is in use, in the chain or an entry of it. */
  lemma Everywhere(s: Store, inUse: set<PageId>, p: PageId)
    requires Partition(s, inUse) && p in Below(s.next)
    ensures p in inUse || p in s.chain || p in Listed(s.lists)
  {
    var all := multiset(inUse) + multiset(s.chain) + Listed(s.lists);
    assert p in multiset(Below(s.next));
    assert p in all;
  }

  lemma EntriesSmall(s: Store, inUse: set<PageId>, i: nat)
    requires Partition(s, inUse) && s.next <= U32 && i < |s.lists|
    ensures Small(s.lists[i])
  {
    Disjointness(s, inUse);
    forall k | 0 <= k < |s.lists[i]| ensures s.lists[i][k] < U32 {
      ListedHas(s.lists, s.lists[i][k]);
      assert s.lists[i][k] in s.lists[i];
    }
  }
}
