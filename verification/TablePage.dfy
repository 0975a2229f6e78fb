/** The slotted table page (storage/page/table_page.rs) and its byte form (storage/codec/table_page.rs). */
module TablePage {
  import opened Prelude
  import opened BigEndian

  const PAGE_SIZE: nat := 4096

  /** Next page id, number of tuples, number of deleted tuples. */
  const HEADER_SIZE: nat := 8

  /** Offset, size, two transaction ids and the deleted flag. */
  const TUPLE_INFO_SIZE: nat := 21

  const MAX_PAGE_ID: nat := 0xFFFF_FFFF

  type Bytes = seq<byte>

  /** A tuple is its encoding. */
  type Tuple = Bytes

  type TransactionId = n: nat | n < 0x1_0000_0000_0000_0000

  datatype TupleMeta = TupleMeta(insertTxnId: TransactionId, deleteTxnId: TransactionId, isDeleted: bool)

  datatype TupleInfo = TupleInfo(offset: nat, size: nat, meta: TupleMeta)

  datatype Slot = Slot(meta: TupleMeta, tuple: Tuple)

  datatype PageImage = PageImage(
    nextPageId: PageId,
    numTuples: nat,
    numDeletedTuples: nat,
    infos: seq<TupleInfo>,
    data: Bytes)

  // ---- layout ---------------------------------------------------------------------------------

  /** Where slot i's tuple must end: tuples grow down from the end of the page without gaps. */
  function End(infos: seq<TupleInfo>, i: nat): nat
    requires i <= |infos|
  {
    if i == 0 then PAGE_SIZE else infos[i - 1].offset
  }

  ghost predicate Placed(infos: seq<TupleInfo>, i: nat)
    requires i < |infos|
  {
    infos[i].offset + infos[i].size == End(infos, i)
  }

  ghost predicate WellFormed(p: PageImage) {
    && |p.data| == PAGE_SIZE && p.numTuples == |p.infos|
    && (forall i :: 0 <= i < |p.infos| ==> Placed(p.infos, i))
    && HEADER_SIZE + TUPLE_INFO_SIZE * |p.infos| <= End(p.infos, |p.infos|)
    && p.numDeletedTuples < 0x1_0000
  }

  lemma {:induction false} EndsDescend(p: PageImage, i: nat, j: nat)
    requires WellFormed(p) && i <= j <= |p.infos|
    ensures End(p.infos, j) <= End(p.infos, i)
  {
    if i < j {
      assert Placed(p.infos, j - 1);
      EndsDescend(p, i, j - 1);
    }
  }

  /** Slot i's tuple lies inside the page. */
  lemma Inside(p: PageImage, i: nat)
    requires WellFormed(p) && i < |p.infos|
    ensures End(p.infos, i + 1) == p.infos[i].offset <= p.infos[i].offset + p.infos[i].size ==
            End(p.infos, i) <= PAGE_SIZE
    ensures HEADER_SIZE + TUPLE_INFO_SIZE * |p.infos| <= p.infos[i].offset
  {
    assert Placed(p.infos, i);
    EndsDescend(p, 0, i);
    EndsDescend(p, i + 1, |p.infos|);
  }

  ghost function SlotAt(p: PageImage, i: nat): Slot
    requires WellFormed(p) && i < |p.infos|
  {
    var info := p.infos[i];
    Inside(p, i);
    Slot(info.meta, p.data[info.offset..info.offset + info.size])
  }

  ghost function Slots(p: PageImage): (slots: seq<Slot>)
    requires WellFormed(p)
    ensures |slots| == |p.infos|
  {
    seq(|p.infos|, i requires 0 <= i < |p.infos| => SlotAt(p, i))
  }

  ghost function Total(slots: seq<Slot>): nat {
    if slots == [] then 0 else Total(slots[..|slots| - 1]) + |slots[|slots| - 1].tuple|
  }

  /** The directory and the tuples fit in one page. */
  ghost predicate Fits(slots: seq<Slot>) {
    HEADER_SIZE + TUPLE_INFO_SIZE * |slots| + Total(slots) <= PAGE_SIZE
  }

  ghost function Deleted(slots: seq<Slot>): nat {
    if slots == [] then 0
    else Deleted(slots[..|slots| - 1]) + if slots[|slots| - 1].meta.isDeleted then 1 else 0
  }

  /** The free space ends where the tuples begin. */
  lemma {:induction false} EndIsTotal(p: PageImage, i: nat)
    requires WellFormed(p) && i <= |p.infos|
    ensures End(p.infos, i) + Total(Slots(p)[..i]) == PAGE_SIZE
  {
    if i > 0 {
      Inside(p, i - 1);
      EndIsTotal(p, i - 1);
      assert Slots(p)[..i][..i - 1] == Slots(p)[..i - 1];
      assert Slots(p)[..i][i - 1] == SlotAt(p, i - 1);
    }
  }

  lemma {:induction false} TotalSplit(a: seq<Slot>, b: seq<Slot>)
    ensures Total(a + b) == Total(a) + Total(b)
  {
    if b == [] {
      assert a + b == a;
    } else {
      assert (a + b)[..|a + b| - 1] == a + b[..|b| - 1];
      TotalSplit(a, b[..|b| - 1]);
    }
  }

  /** What fits, fits up to any slot. */
  lemma FitsPrefix(slots: seq<Slot>, i: nat)
    requires i <= |slots| && Fits(slots)
    ensures Fits(slots[..i])
  {
    assert slots == slots[..i] + slots[i..];
    TotalSplit(slots[..i], slots[i..]);
  }

  lemma WellFormedFits(p: PageImage)
    requires WellFormed(p)
    ensures Fits(Slots(p))
  {
    EndIsTotal(p, |p.infos|);
    assert Slots(p)[..|p.infos|] == Slots(p);
  }

  // ---- steps ----------------------------------------------------------------------------------

  function Patch(data: Bytes, at: nat, bytes: Bytes): (patched: Bytes)
    requires at + |bytes| <= |data|
    ensures |patched| == |data|
  {
    data[..at] + bytes + data[at + |bytes|..]
  }

  lemma PatchSlice(data: Bytes, at: nat, bytes: Bytes, lo: nat, hi: nat)
    requires at + |bytes| <= |data| && lo <= hi <= |data|
    ensures hi <= at || at + |bytes| <= lo ==> Patch(data, at, bytes)[lo..hi] == data[lo..hi]
    ensures lo == at && hi == at + |bytes| ==> Patch(data, at, bytes)[lo..hi] == bytes
  {
    var patched := Patch(data, at, bytes);
    if hi <= at || at + |bytes| <= lo {
      assert forall k :: lo <= k < hi ==> patched[k] == data[k];
    }
  }

  function Inserted(p: PageImage, meta: TupleMeta, tuple: Tuple, offset: nat): PageImage
    requires offset + |tuple| <= |p.data|
  {
    PageImage(p.nextPageId, p.numTuples + 1,
              if meta.isDeleted then (p.numDeletedTuples + 1) % 0x1_0000 else p.numDeletedTuples,
              p.infos + [TupleInfo(offset, |tuple|, meta)], Patch(p.data, offset, tuple))
  }

  /** Placing a tuple just below the others, above the grown directory, appends one slot and moves none. */
  lemma InsertAppends(p: PageImage, meta: TupleMeta, tuple: Tuple)
    requires WellFormed(p) && HasRoom(Slots(p), tuple)
    ensures |tuple| <= End(p.infos, |p.infos|) <= PAGE_SIZE
    ensures var p' := Inserted(p, meta, tuple, End(p.infos, |p.infos|) - |tuple|);
            WellFormed(p') && Slots(p') == Slots(p) + [Slot(meta, tuple)]
  {
    var n := |p.infos|;
    RoomExact(p, meta, tuple);
    EndsDescend(p, 0, n);
    var p' := Inserted(p, meta, tuple, End(p.infos, n) - |tuple|);
    InsertPlaces(p, meta, tuple);
    hide Placed, Patch, Total;
    forall i | 0 <= i < |p'.infos| ensures SlotAt(p', i) == (Slots(p) + [Slot(meta, tuple)])[i] {
      Inside(p', i);
      PatchSlice(p.data, End(p.infos, n) - |tuple|, tuple, p'.infos[i].offset, End(p'.infos, i));
      if i < n {
        Inside(p, i);
        EndsDescend(p, i + 1, n);
        assert SlotAt(p, i) == Slots(p)[i];
      }
    }
  }

  lemma InsertPlaces(p: PageImage, meta: TupleMeta, tuple: Tuple)
    requires WellFormed(p) && |tuple| <= End(p.infos, |p.infos|) <= PAGE_SIZE
    requires HEADER_SIZE + TUPLE_INFO_SIZE * (|p.infos| + 1) + |tuple| <= End(p.infos, |p.infos|)
    ensures WellFormed(Inserted(p, meta, tuple, End(p.infos, |p.infos|) - |tuple|))
  {
    var n := |p.infos|;
    var p' := Inserted(p, meta, tuple, End(p.infos, n) - |tuple|);
    forall i | 0 <= i < |p'.infos| ensures Placed(p'.infos, i) {
      assert End(p'.infos, i) == End(p.infos, i);
      if i < n {
        assert Placed(p.infos, i) && p'.infos[i] == p.infos[i];
      }
    }
  }

  /** One more tuple and its directory entry still fit. */
  ghost predicate HasRoom(slots: seq<Slot>, tuple: Tuple) {
    HEADER_SIZE + TUPLE_INFO_SIZE * (|slots| + 1) + Total(slots) + |tuple| <= PAGE_SIZE
  }

  /** The space test of the code is that arithmetic. */
  lemma RoomExact(p: PageImage, meta: TupleMeta, tuple: Tuple)
    requires WellFormed(p)
    ensures HasRoom(Slots(p), tuple) <==>
            HEADER_SIZE + TUPLE_INFO_SIZE * (|p.infos| + 1) + |tuple| <= End(p.infos, |p.infos|)
    ensures Fits(Slots(p) + [Slot(meta, tuple)]) <==> HasRoom(Slots(p), tuple)
  {
    EndIsTotal(p, |p.infos|);
    assert Slots(p)[..|p.infos|] == Slots(p);
    RoomIsFit(Slots(p), meta, tuple);
  }

  lemma RoomIsFit(slots: seq<Slot>, meta: TupleMeta, tuple: Tuple)
    ensures Fits(slots + [Slot(meta, tuple)]) <==> HasRoom(slots, tuple)
  {
    var grown := slots + [Slot(meta, tuple)];
    assert grown[..|grown| - 1] == slots;
  }

  /** Overwriting a tuple by one of the same size changes that slot only. */
  lemma OverwriteKeeps(p: PageImage, i: nat, tuple: Tuple)
    requires WellFormed(p) && i < |p.infos| && |tuple| == p.infos[i].size
    ensures p.infos[i].offset + |tuple| <= PAGE_SIZE
    ensures var p' := p.(data := Patch(p.data, p.infos[i].offset, tuple));
            WellFormed(p') && Slots(p') == Slots(p)[i := Slot(p.infos[i].meta, tuple)]
  {
    Inside(p, i);
    var p' := p.(data := Patch(p.data, p.infos[i].offset, tuple));
    hide Placed, Patch;
    assert WellFormed(p');
    forall j | 0 <= j < |p.infos| ensures SlotAt(p', j) == Slots(p)[i := Slot(p.infos[i].meta, tuple)][j] {
      Inside(p, j);
      if j < i { EndsDescend(p, j + 1, i); } else if j > i { EndsDescend(p, i + 1, j); }
      PatchSlice(p.data, p.infos[i].offset, tuple, p.infos[j].offset, End(p.infos, j));
      assert Slots(p)[j] == SlotAt(p, j);
    }
  }

  // ---- the byte form --------------------------------------------------------------------------

  function EncodeInfo(info: TupleInfo): (bytes: Bytes)
    ensures |bytes| == TUPLE_INFO_SIZE
  {
    Be(info.offset, 2) + Be(info.size, 2) + Be(info.meta.insertTxnId, 8) + Be(info.meta.deleteTxnId, 8)
    + [if info.meta.isDeleted then 1 else 0]
  }

  function DecodeInfo(b: Bytes): TupleInfo
    requires |b| == TUPLE_INFO_SIZE
  {
    TupleInfo(FromBe(b[0..2]), FromBe(b[2..4]),
              TupleMeta(FromBe(b[4..12]) % 0x1_0000_0000_0000_0000, FromBe(b[12..20]) % 0x1_0000_0000_0000_0000,
                b[20] != 0))
  }

  lemma InfoRoundTrip(info: TupleInfo)
    requires info.offset < 0x1_0000 && info.size < 0x1_0000
    ensures DecodeInfo(EncodeInfo(info)) == info
  {
    hide Be, FromBe, Pow256;
    Widths();
    BeRoundTrip(info.offset, 2);
    BeRoundTrip(info.size, 2);
    BeRoundTrip(info.meta.insertTxnId, 8);
    BeRoundTrip(info.meta.deleteTxnId, 8);
    var b := EncodeInfo(info);
    assert b[0..2] == Be(info.offset, 2);
    assert b[2..4] == Be(info.size, 2);
    assert b[4..12] == Be(info.meta.insertTxnId, 8);
    assert b[12..20] == Be(info.meta.deleteTxnId, 8);
  }

  function EncodeInfos(infos: seq<TupleInfo>): (bytes: Bytes)
    ensures |bytes| == TUPLE_INFO_SIZE * |infos|
  {
    if infos == [] then [] else EncodeInfo(infos[0]) + EncodeInfos(infos[1..])
  }

  function DecodeInfos(b: Bytes, n: nat): Result<seq<TupleInfo>, string> {
    if n == 0 then Ok([])
    else if |b| < TUPLE_INFO_SIZE then Err("bytes length is too short")
    else
      match DecodeInfos(b[TUPLE_INFO_SIZE..], n - 1)
      case Ok(rest) => Ok([DecodeInfo(b[..TUPLE_INFO_SIZE])] + rest)
      case Err(e) => Err(e)
  }

  lemma {:induction false} InfosRoundTrip(infos: seq<TupleInfo>, rest: Bytes)
    requires forall i :: 0 <= i < |infos| ==> infos[i].offset < 0x1_0000 && infos[i].size < 0x1_0000
    ensures DecodeInfos(EncodeInfos(infos) + rest, |infos|) == Ok(infos)
  {
    hide EncodeInfo, DecodeInfo;
    if infos != [] {
      var b := EncodeInfos(infos) + rest;
      InfosRoundTrip(infos[1..], rest);
      InfoRoundTrip(infos[0]);
      assert b[..TUPLE_INFO_SIZE] == EncodeInfo(infos[0]);
      assert b[TUPLE_INFO_SIZE..] == EncodeInfos(infos[1..]) + rest;
      assert [infos[0]] + infos[1..] == infos;
    }
  }

  function EncodeHeader(p: PageImage): (bytes: Bytes)
    ensures |bytes| == HEADER_SIZE + TUPLE_INFO_SIZE * |p.infos|
  {
    Be(p.nextPageId, 4) + Be(p.numTuples, 2) + Be(p.numDeletedTuples, 2) + EncodeInfos(p.infos)
  }

  /** The header is laid over the front of the page's bytes. */
  function Encode(p: PageImage): (bytes: Bytes)
    requires HEADER_SIZE + TUPLE_INFO_SIZE * |p.infos| <= |p.data|
    ensures |bytes| == |p.data|
  {
    EncodeHeader(p) + p.data[|EncodeHeader(p)|..]
  }

  function Decode(bytes: Bytes): Result<PageImage, string> {
    if |bytes| != PAGE_SIZE then Err("Table page size is not 4096")
    else
      var numTuples := FromBe(bytes[4..6]);
      match DecodeInfos(bytes[HEADER_SIZE..], numTuples)
      case Err(e) => Err(e)
      case Ok(infos) => Ok(PageImage(FromBe(bytes[0..4]), numTuples, FromBe(bytes[6..8]), infos, bytes))
  }

  lemma WellFormedBounds(p: PageImage)
    requires WellFormed(p)
    ensures HEADER_SIZE + TUPLE_INFO_SIZE * |p.infos| <= PAGE_SIZE && |p.infos| < 0x1_0000
    ensures forall i :: 0 <= i < |p.infos| ==> p.infos[i].offset < 0x1_0000 && p.infos[i].size < 0x1_0000
  {
    EndsDescend(p, 0, |p.infos|);
    forall i | 0 <= i < |p.infos| ensures p.infos[i].offset < 0x1_0000 && p.infos[i].size < 0x1_0000 {
      Inside(p, i);
    }
  }

  /** A stored page reads back with its header and with every tuple: the directory never reaches the tuples. */
  lemma PageRoundTrip(p: PageImage)
    requires WellFormed(p) && p.nextPageId <= MAX_PAGE_ID
    ensures HEADER_SIZE + TUPLE_INFO_SIZE * |p.infos| <= |p.data|
    ensures var p' := p.(data := Encode(p));
            Decode(Encode(p)) == Ok(p') && WellFormed(p') && Slots(p') == Slots(p)
  {
    WellFormedBounds(p);
    HeaderRoundTrip(p);
    hide Placed, EncodeHeader, Decode;
    var b := Encode(p);
    var p' := p.(data := b);
    forall i | 0 <= i < |p.infos| ensures SlotAt(p', i) == SlotAt(p, i) {
      Inside(p, i);
      var lo, hi := p.infos[i].offset, p.infos[i].offset + p.infos[i].size;
      assert forall k :: lo <= k < hi ==> b[k] == p.data[k];
    }
  }

  lemma HeaderRoundTrip(p: PageImage)
    requires WellFormed(p) && p.nextPageId <= MAX_PAGE_ID && HEADER_SIZE + TUPLE_INFO_SIZE * |p.infos| <= |p.data|
    ensures Decode(Encode(p)) == Ok(p.(data := Encode(p)))
  {
    hide Be, FromBe, Pow256, EncodeInfos, DecodeInfos;
    WellFormedBounds(p);
    Widths();
    BeRoundTrip(p.nextPageId, 4);
    BeRoundTrip(p.numTuples, 2);
    BeRoundTrip(p.numDeletedTuples, 2);
    var b := Encode(p);
    var rest := p.data[|EncodeHeader(p)|..];
    InfosRoundTrip(p.infos, rest);
    assert b[0..4] == Be(p.nextPageId, 4);
    assert b[4..6] == Be(p.numTuples, 2);
    assert b[6..8] == Be(p.numDeletedTuples, 2);
    assert b[HEADER_SIZE..] == EncodeInfos(p.infos) + rest;
  }

  /** Where the fields of a stored page stand: link and counts, and of each tuple offset, size, writers and mark. */
  lemma Layout(p: PageImage, i: nat)
    requires WellFormed(p) && i < |p.infos|
    ensures HEADER_SIZE + TUPLE_INFO_SIZE * |p.infos| <= |p.data|
    ensures var b, at := Encode(p), 8 + 21 * i;
            && b[0..4] == Be(p.nextPageId, 4) && b[4..6] == Be(p.numTuples, 2) && b[6..8] == Be(p.numDeletedTuples, 2)
            && at + 21 <= |b| && InfoLayout(b[at..at + 21], p.infos[i])
  {
    WellFormedBounds(p);
    InfoAt(p.infos, i);
    InfoLaidOut(p.infos[i]);
    hide Be, Placed, WellFormed, InfoLayout;
    var h, at, b := EncodeHeader(p), 8 + 21 * i, Encode(p);
    assert b[..|h|] == h && h[8..] == EncodeInfos(p.infos);
    assert h[0..4] == Be(p.nextPageId, 4) && h[4..6] == Be(p.numTuples, 2) && h[6..8] == Be(p.numDeletedTuples, 2);
    hide EncodeInfos, EncodeInfo, EncodeHeader, Encode;
    assert b[0..4] == b[..|h|][0..4] && b[4..6] == b[..|h|][4..6] && b[6..8] == b[..|h|][6..8];
    assert b[at..at + 21] == b[..|h|][8..][21 * i..21 * i + 21];
  }

  ghost predicate InfoLayout(b: Bytes, info: TupleInfo)
    requires |b| == 21
  {
    && b[0..2] == Be(info.offset, 2) && b[2..4] == Be(info.size, 2)
    && b[4..12] == Be(info.meta.insertTxnId, 8) && b[12..20] == Be(info.meta.deleteTxnId, 8)
    && b[20] == if info.meta.isDeleted then 1 else 0
  }

  lemma InfoLaidOut(info: TupleInfo)
    ensures InfoLayout(EncodeInfo(info), info)
  {
    hide Be;
  }

  lemma {:induction false} InfoAt(infos: seq<TupleInfo>, i: nat)
    requires i < |infos|
    ensures EncodeInfos(infos)[21 * i..21 * i + 21] == EncodeInfo(infos[i])
  {
    hide EncodeInfo;
    if i > 0 {
      InfoAt(infos[1..], i - 1);
      assert EncodeInfos(infos)[21 * i..21 * i + 21] == EncodeInfos(infos[1..])[21 * (i - 1)..21 * (i - 1) + 21];
    }
  }

  // ---- the page object ------------------------------------------------------------------------

  class TablePage {
    var nextPageId: PageId
    var numTuples: nat
    var numDeletedTuples: nat
    var tupleInfos: seq<TupleInfo>
    var data: array<byte>

    function View(): PageImage
      reads this, data
    {
      PageImage(nextPageId, numTuples, numDeletedTuples, tupleInfos, data[..])
    }

    ghost predicate Valid()
      reads this, data
    {
      WellFormed(View())
    }

    constructor (nextPageId: PageId)
      ensures Valid() && Slots(View()) == [] && this.nextPageId == nextPageId && numDeletedTuples == 0 && fresh(data)
    {
      this.nextPageId, numTuples, numDeletedTuples, tupleInfos := nextPageId, 0, 0, [];
      data := new byte[PAGE_SIZE](_ => 0);
    }

    constructor Decoded(image: PageImage)
      requires WellFormed(image)
      ensures View() == image && fresh(data)
    {
      nextPageId, numTuples, numDeletedTuples, tupleInfos :=
        image.nextPageId, image.numTuples, image.numDeletedTuples, image.infos;
      data := new byte[|image.data|](i requires 0 <= i < |image.data| => image.data[i]);
      new;
      assert data[..] == image.data;
    }

    /** Where the next tuple goes, if there is room for it and one more directory entry. */
    method NextTupleOffset(tuple: Tuple) returns (r: Result<nat, string>)
      requires Valid()
      ensures r.Ok? <==> HasRoom(Slots(View()), tuple)
      ensures r.Ok? ==> |tuple| <= End(tupleInfos, |tupleInfos|) && r.value == End(tupleInfos, |tupleInfos|) - |tuple|
    {
      RoomExact(View(), TupleMeta(0, 0, false), tuple);
      var slotEndOffset := if numTuples > 0 then tupleInfos[numTuples - 1].offset else PAGE_SIZE;
      if slotEndOffset < |tuple| {
        return Err("No enough space to store tuple");
      }
      var tupleOffset := slotEndOffset - |tuple|;
      var minTupleOffset := HEADER_SIZE + TUPLE_INFO_SIZE * |tupleInfos| + TUPLE_INFO_SIZE;
      if tupleOffset < minTupleOffset {
        return Err("No enough space to store tuple");
      }
      r := Ok(tupleOffset);
    }

    /** Appends a slot exactly when directory and tuples still fit, else changes nothing. */
    method InsertTuple(meta: TupleMeta, tuple: Tuple) returns (r: Result<nat, string>)
      requires Valid()
      modifies this, data
      ensures Valid() && data == old(data) && nextPageId == old(nextPageId)
      ensures r.Ok? <==> HasRoom(old(Slots(View())), tuple)
      ensures r.Ok? ==> r.value == |old(tupleInfos)| && Slots(View()) == old(Slots(View())) + [Slot(meta, tuple)]
      ensures r.Ok? ==> numDeletedTuples ==
                        if meta.isDeleted then (old(numDeletedTuples) + 1) % 0x1_0000 else old(numDeletedTuples)
      ensures r.Err? ==> View() == old(View())
    {
      var offset := NextTupleOffset(tuple);
      if offset.Err? {
        return Err(offset.error);
      }
      InsertAppends(View(), meta, tuple);
      var tupleId := numTuples;
      var tupleOffset := offset.value;
      tupleInfos := tupleInfos + [TupleInfo(tupleOffset, |tuple|, meta)];
      numTuples := numTuples + 1;
      if meta.isDeleted {
        numDeletedTuples := (numDeletedTuples + 1) % 0x1_0000;
      }
      CopyIn(tupleOffset, tuple);
      assert View() == Inserted(old(View()), meta, tuple, tupleOffset);
      r := Ok(tupleId);
    }

    method CopyIn(offset: nat, bytes: Bytes)
      requires offset + |bytes| <= data.Length
      modifies data
      ensures data[..] == Patch(old(data[..]), offset, bytes)
    {
      forall i | 0 <= i < |bytes| {
        data[offset + i] := bytes[i];
      }
    }

    method UpdateTupleMeta(meta: TupleMeta, slotNum: nat) returns (r: Result<(), string>)
      requires Valid()
      modifies this
      ensures Valid() && data == old(data) && nextPageId == old(nextPageId)
      ensures r.Ok? <==> slotNum < |old(tupleInfos)|
      ensures r.Ok? ==> Slots(View()) == old(Slots(View()))[slotNum := old(Slots(View()))[slotNum].(meta := meta)]
      ensures r.Ok? && meta.isDeleted && !old(Slots(View()))[slotNum].meta.isDeleted ==>
                numDeletedTuples == (old(numDeletedTuples) + 1) % 0x1_0000
      ensures r.Ok? && !(meta.isDeleted && !old(Slots(View()))[slotNum].meta.isDeleted) ==>
                numDeletedTuples == old(numDeletedTuples)
      ensures r.Err? ==> View() == old(View())
    {
      if slotNum >= numTuples {
        return Err("tuple_id out of range");
      }
      MetaKeeps(View(), slotNum, meta);
      assert Slots(View())[slotNum] == SlotAt(View(), slotNum);
      if meta.isDeleted && !tupleInfos[slotNum].meta.isDeleted {
        numDeletedTuples := (numDeletedTuples + 1) % 0x1_0000;
      }
      SameSlots(View(), numDeletedTuples);
      tupleInfos := tupleInfos[slotNum := tupleInfos[slotNum].(meta := meta)];
      MetaKeeps(old(View()).(numDeletedTuples := numDeletedTuples), slotNum, meta);
      SameSlots(old(View()), numDeletedTuples);
      r := Ok(());
    }

    /** Reads a slot. */
    method Tuple(slotNum: nat) returns (r: Result<(TupleMeta, Tuple), string>)
      requires Valid()
      ensures r == if slotNum < |tupleInfos| then
                     Ok((Slots(View())[slotNum].meta, Slots(View())[slotNum].tuple))
                   else Err("tuple_id out of range")
    {
      if slotNum >= numTuples {
        return Err("tuple_id out of range");
      }
      Inside(View(), slotNum);
      var info := tupleInfos[slotNum];
      assert Slots(View())[slotNum] == SlotAt(View(), slotNum);
      r := Ok((info.meta, data[info.offset..info.offset + info.size]));
    }

    /** Reads all slots. */
    method FullTuples() returns (fullTuples: seq<Slot>)
      requires Valid()
      ensures fullTuples == Slots(View())
    {
      fullTuples := [];
      for i := 0 to numTuples
        invariant |fullTuples| == i && fullTuples == Slots(View())[..i]
      {
        var slot := Tuple(i);
        fullTuples := fullTuples + [Slot(slot.value.0, slot.value.1)];
      }
    }

    /** Replaces one slot's tuple, in place or by rebuilding the page, exactly when the result fits. */
    method UpdateTuple(tuple: Tuple, slotNum: nat) returns (r: Result<(), string>)
      requires Valid()
      modifies this, data
      ensures Valid() && (data == old(data) || fresh(data)) && nextPageId == old(nextPageId)
      ensures r.Ok? <==> slotNum < |old(tupleInfos)| && Fits(WithTuple(old(Slots(View())), slotNum, tuple))
      ensures r.Ok? ==> Slots(View()) == WithTuple(old(Slots(View())), slotNum, tuple)
      ensures r.Ok? ==> numDeletedTuples == if |tuple| == |old(Slots(View()))[slotNum].tuple| then old(numDeletedTuples)
                                            else Deleted(Slots(View()))
      ensures r.Err? ==> View() == old(View())
    {
      if slotNum >= numTuples {
        return Err("tuple_id out of range");
      }
      Inside(View(), slotNum);
      var offset, size := tupleInfos[slotNum].offset, tupleInfos[slotNum].size;
      if |tuple| == size {
        OverwriteKeeps(View(), slotNum, tuple);
        CopyIn(offset, tuple);
        WellFormedFits(View());
        return Ok(());
      }
      ghost var target := WithTuple(Slots(View()), slotNum, tuple);
      var fullTuples := FullTuples();
      fullTuples := fullTuples[slotNum := fullTuples[slotNum].(tuple := tuple)];
      assert fullTuples == target;
      var newPage := new TablePage(nextPageId);
      var rebuilt := newPage.InsertAll(fullTuples);
      if rebuilt.Err? {
        return Err(rebuilt.error);
      }
      numTuples, numDeletedTuples, tupleInfos := newPage.numTuples, newPage.numDeletedTuples, newPage.tupleInfos;
      data := newPage.data;
      r := Ok(());
    }

    /** Fills an empty page; it fails exactly when the tuples do not all fit. */
    method InsertAll(slots: seq<Slot>) returns (r: Result<(), string>)
      requires Valid() && Slots(View()) == [] && numDeletedTuples == 0
      modifies this, data
      ensures Valid() && data == old(data) && nextPageId == old(nextPageId)
      ensures r.Ok? <==> Fits(slots)
      ensures r.Ok? ==> Slots(View()) == slots && numDeletedTuples == Deleted(slots)
    {
      hide Fits, HasRoom, Deleted, Placed, SlotAt;
      NoSlots();
      for i := 0 to |slots|
        invariant Valid() && data == old(data) && nextPageId == old(nextPageId)
        invariant Slots(View()) == slots[..i] && Fits(slots[..i])
        invariant numDeletedTuples == Deleted(slots[..i]) <= i
      {
        OneMore(slots, i);
        WellFormedBounds(View());
        var inserted := InsertTuple(slots[i].meta, slots[i].tuple);
        if inserted.Err? {
          return Err(inserted.error);
        }
      }
      assert slots[..|slots|] == slots;
      r := Ok(());
    }

    /** The record id after `rid` on this page. */
    method GetNextRid(rid: RecordId) returns (next: Option<RecordId>)
      ensures next == if rid.slotNum + 1 < numTuples then Some(RecordId(rid.pageId, rid.slotNum + 1)) else None
    {
      if rid.slotNum + 1 >= numTuples {
        return None;
      }
      next := Some(RecordId(rid.pageId, rid.slotNum + 1));
    }
  }

  ghost function WithTuple(slots: seq<Slot>, i: nat, tuple: Tuple): seq<Slot> {
    if i < |slots| then slots[i := slots[i].(tuple := tuple)] else slots
  }

  lemma NoSlots()
    ensures Fits([]) && Deleted([]) == 0
  {
  }

  lemma OneMore(slots: seq<Slot>, i: nat)
    requires i < |slots|
    ensures slots[..i + 1] == slots[..i] + [slots[i]]
    ensures Fits(slots[..i + 1]) <==> HasRoom(slots[..i], slots[i].tuple)
    ensures Fits(slots) ==> Fits(slots[..i + 1])
    ensures Deleted(slots[..i + 1]) == Deleted(slots[..i]) + if slots[i].meta.isDeleted then 1 else 0
  {
    assert slots[..i + 1][..i] == slots[..i];
    RoomIsFit(slots[..i], slots[i].meta, slots[i].tuple);
    if Fits(slots) {
      FitsPrefix(slots, i + 1);
    }
  }

  lemma SameSlots(p: PageImage, numDeleted: nat)
    requires WellFormed(p) && numDeleted < 0x1_0000
    ensures WellFormed(p.(numDeletedTuples := numDeleted))
    ensures Slots(p.(numDeletedTuples := numDeleted)) == Slots(p)
  {
    var p' := p.(numDeletedTuples := numDeleted);
    forall j | 0 <= j < |p.infos| ensures SlotAt(p', j) == SlotAt(p, j) {
      Inside(p, j);
    }
  }

  lemma MetaKeeps(p: PageImage, i: nat, meta: TupleMeta)
    requires WellFormed(p) && i < |p.infos|
    ensures var p' := p.(infos := p.infos[i := p.infos[i].(meta := meta)]);
            WellFormed(p') && Slots(p') == Slots(p)[i := Slots(p)[i].(meta := meta)]
  {
    var p' := p.(infos := p.infos[i := p.infos[i].(meta := meta)]);
    assert forall j :: 0 <= j <= |p.infos| ==> End(p'.infos, j) == End(p.infos, j);
    forall j | 0 <= j < |p'.infos| ensures Placed(p'.infos, j) {
      assert Placed(p.infos, j);
    }
    forall j | 0 <= j < |p.infos| ensures SlotAt(p', j) == Slots(p)[i := Slots(p)[i].(meta := meta)][j] {
      assert Slots(p)[j] == SlotAt(p, j);
      Inside(p, j);
    }
  }

  /**
   * The deleted count of the header after a change of one slot's meta: an exact count stays exact unless the
   * change takes a deleted mark off.
   */
  lemma DeletedCountExact(slots: seq<Slot>, i: nat, meta: TupleMeta)
    requires i < |slots|
    ensures var counted := Deleted(slots) + if meta.isDeleted && !slots[i].meta.isDeleted then 1 else 0;
            counted == Deleted(slots[i := slots[i].(meta := meta)]) <==> !(slots[i].meta.isDeleted && !meta.isDeleted)
  {
    DeletedUpdate(slots, i, meta);
  }

  lemma {:induction false} DeletedUpdate(slots: seq<Slot>, i: nat, meta: TupleMeta)
    requires i < |slots|
    ensures Deleted(slots[i := slots[i].(meta := meta)]) + (if slots[i].meta.isDeleted then 1 else 0) ==
            Deleted(slots) + if meta.isDeleted then 1 else 0
  {
    var n := |slots| - 1;
    var changed := slots[i := slots[i].(meta := meta)];
    if i < n {
      assert changed[..n] == slots[..n][i := slots[i].(meta := meta)];
      DeletedUpdate(slots[..n], i, meta);
    } else {
      assert changed[..n] == slots[..n];
    }
  }
}
