/** The internal and leaf pages of the B+ tree index (storage/page/index_page.rs). */
module IndexPage {
  import opened Prelude
  import opened KeyValues

  /** What a page holds once encoded and stored. */
  datatype TreePage =
    | Internal(entries: seq<KV<PageId>>, maxSize: nat)
    | Leaf(kvs: seq<KV<RecordId>>, maxSize: nat, next: PageId)

  /** Slot `i` is the one a search for `key` follows; the key of slot zero is never consulted. */
  ghost predicate Routes<V>(entries: seq<KV<V>>, key: Key, i: int) {
    && 0 <= i < |entries|
    && (forall j | 1 <= j <= i :: entries[j].key <= key)
    && (forall j | i < j < |entries| :: key < entries[j].key)
  }

  ghost predicate SlotsSorted<V>(entries: seq<KV<V>>) {
    forall i, j | 1 <= i < j < |entries| :: entries[i].key < entries[j].key
  }

  /** Slot `i` is the first that points to page `id`. */
  ghost predicate FirstAt(entries: seq<KV<PageId>>, id: PageId, i: int) {
    0 <= i < |entries| && entries[i].val == id && forall j | 0 <= j < i :: entries[j].val != id
  }

  class InternalPage {
    var slots: seq<KV<PageId>>
    var currentSize: nat
    var maxSize: nat

    ghost predicate Valid() reads this { currentSize == |slots| }

    ghost function Value(): TreePage reads this { Internal(slots, maxSize) }

    constructor (maxSize: nat)
      ensures Valid() && Value() == Internal([], maxSize)
    {
      slots, currentSize := [], 0;
      this.maxSize := maxSize;
    }

    constructor Decode(page: TreePage)
      requires page.Internal?
      ensures Valid() && Value() == page
    {
      slots, currentSize, maxSize := page.entries, |page.entries|, page.maxSize;
    }

    method IsFull() returns (full: bool)
      requires Valid()
      ensures full <==> |slots| > maxSize
    {
      full := currentSize > maxSize;
    }

    /** Appends the entry, then sorts every slot but the first. */
    method Insert(key: Key, pageId: PageId)
      requires Valid()
      modifies this
      ensures Valid() && maxSize == old(maxSize)
      ensures old(slots) == [] ==> slots == [KV(key, pageId)]
      ensures old(slots) != [] ==> slots == [old(slots)[0]] + StableSort(old(slots)[1..] + [KV(key, pageId)])
    {
      slots := slots + [KV(key, pageId)];
      currentSize := currentSize + 1;
      var nullKv := slots[0];
      slots := slots[1..];
      assert old(slots) != [] ==> slots == old(slots)[1..] + [KV(key, pageId)];
      slots := StableSort(slots);
      slots := [nullKv] + slots;
    }

    /** Appends the entries, then sorts all slots. */
    method BatchInsert(kvs: seq<KV<PageId>>)
      requires Valid()
      modifies this
      ensures Valid() && maxSize == old(maxSize)
      ensures slots == StableSort(old(slots) + kvs)
    {
      slots := slots + kvs;
      currentSize := currentSize + |kvs|;
      slots := StableSort(slots);
    }

    method SplitOff(at: nat) returns (tail: seq<KV<PageId>>)
      requires Valid() && at <= |slots|
      modifies this
      ensures Valid() && maxSize == old(maxSize)
      ensures slots == old(slots)[..at] && tail == old(slots)[at..]
    {
      tail := slots[at..];
      slots := slots[..at];
      currentSize := currentSize - |tail|;
    }

    /** Removes the first `at + 1` entries and returns them in order. */
    method ReverseSplitOff(at: nat) returns (head: seq<KV<PageId>>)
      requires Valid() && at < |slots|
      modifies this
      ensures Valid() && maxSize == old(maxSize)
      ensures slots == old(slots)[at + 1..] && head == old(slots)[..at + 1]
    {
      head := [];
      for i := 0 to at + 1
        invariant head == old(slots)[..i] && slots == old(slots)[i..]
        invariant currentSize == old(currentSize) && maxSize == old(maxSize)
      {
        head := head + [slots[0]];
        slots := slots[1..];
      }
      currentSize := currentSize - |head|;
    }

    /** Removes the first entry that points to `pageId`. */
    method DeletePageId(pageId: PageId)
      requires Valid()
      modifies this
      ensures Valid() && maxSize == old(maxSize)
      ensures (forall i | 0 <= i < |old(slots)| :: old(slots)[i].val != pageId) ==> slots == old(slots)
      ensures forall i | 0 <= i < |old(slots)| ::
                old(slots)[i].val == pageId && (forall j | 0 <= j < i :: old(slots)[j].val != pageId)
                ==> slots == old(slots)[..i] + old(slots)[i + 1..]
    {
      var i := 0;
      while i < currentSize
        invariant 0 <= i <= currentSize == |slots| && slots == old(slots) && maxSize == old(maxSize)
        invariant forall j | 0 <= j < i :: slots[j].val != pageId
      {
        if slots[i].val == pageId {
          slots := slots[..i] + slots[i + 1..];
          currentSize := currentSize - 1;
          return;
        }
        i := i + 1;
      }
    }

    /** The pages next to `pageId` under this page. */
    method SiblingPageIds(pageId: PageId) returns (left: Option<PageId>, right: Option<PageId>)
      requires Valid()
      ensures (forall i | 0 <= i < |slots| :: slots[i].val != pageId) ==> left == None && right == None
      ensures forall i | FirstAt(slots, pageId, i) ::
                && left == (if i == 0 then None else Some(slots[i - 1].val))
                && right == (if i == |slots| - 1 then None else Some(slots[i + 1].val))
    {
      var i := 0;
      while i < |slots|
        invariant 0 <= i <= |slots|
        invariant forall j | 0 <= j < i :: slots[j].val != pageId
      {
        if slots[i].val == pageId {
          left := if i == 0 then None else Some(slots[i - 1].val);
          right := if i == currentSize - 1 then None else Some(slots[i + 1].val);
          return;
        }
        i := i + 1;
      }
      left, right := None, None;
    }

    /** Binary search for an exact separator among slots 1.. */
    method KeyIndex(key: Key) returns (r: Option<nat>)
      requires Valid() && |slots| != 1 && SlotsSorted(slots)
      ensures r.Some? ==> 1 <= r.value < |slots| && slots[r.value].key == key
      ensures r.None? ==> forall i | 1 <= i < |slots| :: slots[i].key != key
    {
      if currentSize == 0 {
        return None;
      }
      var start, end := 1, currentSize - 1;
      while start < end
        invariant 1 <= start < |slots| && start - 1 <= end < |slots|
        invariant forall i | 1 <= i < start :: slots[i].key < key
        invariant forall i | end < i < |slots| :: key < slots[i].key
      {
        var mid := (start + end) / 2;
        if key == slots[mid].key {
          return Some(mid);
        } else if key < slots[mid].key {
          end := mid - 1;
        } else {
          start := mid + 1;
        }
      }
      r := if key == slots[start].key then Some(start) else None;
    }

    /** Re-keys the slot holding exactly `oldKey`, if there is one. */
    method ReplaceKey(oldKey: Key, newKey: Key)
      requires Valid() && |slots| != 1 && SlotsSorted(slots)
      modifies this
      ensures Valid() && maxSize == old(maxSize)
      ensures (forall i | 1 <= i < |old(slots)| :: old(slots)[i].key != oldKey) ==> slots == old(slots)
      ensures forall i | 1 <= i < |old(slots)| :: old(slots)[i].key == oldKey ==>
                slots == old(slots)[i := KV(newKey, old(slots)[i].val)]
    {
      var r := KeyIndex(oldKey);
      if r.Some? {
        slots := slots[r.value := KV(newKey, slots[r.value].val)];
      }
    }

    /** Binary search for the child to follow. With fewer than two entries it would read slot 1 out of bounds. */
    method LookUp(key: Key) returns (child: PageId)
      requires Valid() && |slots| >= 2 && SlotsSorted(slots)
      ensures exists i :: Routes(slots, key, i) && child == slots[i].val
    {
      var start, end := 1, currentSize - 1;
      while start < end
        invariant 1 <= start < |slots| && start - 1 <= end < |slots|
        invariant forall i | 1 <= i < start :: slots[i].key < key
        invariant forall i | end < i < |slots| :: key < slots[i].key
      {
        var mid := (start + end) / 2;
        if key == slots[mid].key {
          assert Routes(slots, key, mid);
          return slots[mid].val;
        } else if key < slots[mid].key {
          end := mid - 1;
        } else {
          start := mid + 1;
        }
      }
      if key < slots[start].key {
        assert Routes(slots, key, start - 1);
        child := slots[start - 1].val;
      } else {
        assert Routes(slots, key, start);
        child := slots[start].val;
      }
    }
  }

  class LeafPage {
    var slots: seq<KV<RecordId>>
    var currentSize: nat
    var maxSize: nat
    var nextPageId: PageId

    ghost predicate Valid() reads this { currentSize == |slots| }

    ghost function Value(): TreePage reads this { Leaf(slots, maxSize, nextPageId) }

    constructor (maxSize: nat)
      ensures Valid() && Value() == Leaf([], maxSize, INVALID_PAGE_ID)
    {
      slots, currentSize, nextPageId := [], 0, INVALID_PAGE_ID;
      this.maxSize := maxSize;
    }

    constructor Decode(page: TreePage)
      requires page.Leaf?
      ensures Valid() && Value() == page
    {
      slots, currentSize, maxSize, nextPageId := page.kvs, |page.kvs|, page.maxSize, page.next;
    }

    method IsFull() returns (full: bool)
      requires Valid()
      ensures full <==> |slots| > maxSize
    {
      full := currentSize > maxSize;
    }

    method Insert(key: Key, rid: RecordId)
      requires Valid()
      modifies this
      ensures Valid() && Value() == Leaf(StableSort(old(slots) + [KV(key, rid)]), old(maxSize), old(nextPageId))
    {
      slots := slots + [KV(key, rid)];
      currentSize := currentSize + 1;
      slots := StableSort(slots);
    }

    method BatchInsert(kvs: seq<KV<RecordId>>)
      requires Valid()
      modifies this
      ensures Valid() && Value() == Leaf(StableSort(old(slots) + kvs), old(maxSize), old(nextPageId))
    {
      slots := slots + kvs;
      currentSize := currentSize + |kvs|;
      slots := StableSort(slots);
    }

    method SplitOff(at: nat) returns (tail: seq<KV<RecordId>>)
      requires Valid() && at <= |slots|
      modifies this
      ensures Valid() && Value() == Leaf(old(slots)[..at], old(maxSize), old(nextPageId))
      ensures tail == old(slots)[at..]
    {
      tail := slots[at..];
      slots := slots[..at];
      currentSize := currentSize - |tail|;
    }

    /** Removes the first `at + 1` entries and returns them in order. */
    method ReverseSplitOff(at: nat) returns (head: seq<KV<RecordId>>)
      requires Valid() && at < |slots|
      modifies this
      ensures Valid() && Value() == Leaf(old(slots)[at + 1..], old(maxSize), old(nextPageId))
      ensures head == old(slots)[..at + 1]
    {
      head := [];
      for i := 0 to at + 1
        invariant head == old(slots)[..i] && slots == old(slots)[i..]
        invariant currentSize == old(currentSize) && maxSize == old(maxSize) && nextPageId == old(nextPageId)
      {
        head := head + [slots[0]];
        slots := slots[1..];
      }
      currentSize := currentSize - |head|;
    }

    /** Binary search for an exact key. */
    method KeyIndex(key: Key) returns (r: Option<nat>)
      requires Valid() && Sorted(slots)
      ensures r.Some? ==> r.value < |slots| && slots[r.value].key == key
      ensures r.None? ==> forall i | 0 <= i < |slots| :: slots[i].key != key
    {
      if currentSize == 0 {
        return None;
      }
      var start, end := 0, currentSize - 1;
      while start < end
        invariant 0 <= start < |slots| && start - 1 <= end < |slots|
        invariant forall i | 0 <= i < start :: slots[i].key < key
        invariant forall i | end < i < |slots| :: key < slots[i].key
      {
        var mid := (start + end) / 2;
        if key == slots[mid].key {
          return Some(mid);
        } else if key < slots[mid].key {
          end := mid - 1;
        } else {
          start := mid + 1;
        }
      }
      r := if key == slots[start].key then Some(start) else None;
    }

    /** Removes the pair with exactly this key, if there is one. */
    method Delete(key: Key)
      requires Valid() && Sorted(slots)
      modifies this
      ensures Valid() && maxSize == old(maxSize) && nextPageId == old(nextPageId)
      ensures (forall i | 0 <= i < |old(slots)| :: old(slots)[i].key != key) ==> slots == old(slots)
      ensures forall i | 0 <= i < |old(slots)| :: old(slots)[i].key == key ==>
                slots == old(slots)[..i] + old(slots)[i + 1..]
    {
      var index := KeyIndex(key);
      if index.Some? {
        var i := index.value;
        slots := slots[..i] + slots[i + 1..];
        currentSize := currentSize - 1;
      }
    }

    method LookUp(key: Key) returns (r: Option<RecordId>)
      requires Valid() && Sorted(slots)
      ensures r.Some? ==> KV(key, r.value) in slots
      ensures r.None? ==> forall x | x in slots :: x.key != key
    {
      var index := KeyIndex(key);
      match index
      case Some(i) => r := Some(slots[i].val);
      case None => r := None;
    }

    /** The first slot at or after `key`, or strictly after it when `included` is false. */
    method NextClosest(key: Key, included: bool) returns (r: Option<nat>)
      requires Valid()
      ensures r.Some? ==>
                && r.value < |slots|
                && (if included then key <= slots[r.value].key else key < slots[r.value].key)
      ensures forall i | 0 <= i < (if r.Some? then r.value else |slots|) ::
                !(if included then key <= slots[i].key else key < slots[i].key)
    {
      for i := 0 to |slots|
        invariant forall j | 0 <= j < i :: !(if included then key <= slots[j].key else key < slots[j].key)
      {
        if key == slots[i].key && included {
          return Some(i);
        }
        if slots[i].key > key {
          return Some(i);
        }
      }
      r := None;
    }
  }
}
