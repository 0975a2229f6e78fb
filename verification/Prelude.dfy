/** Small shared vocabulary: optional values, results and identifiers. */
module Prelude {

  datatype Option<+T> = None | Some(value: T)

  datatype Result<+T, +E> = Ok(value: T) | Err(error: E)

  /** Page numbers; zero is the invalid page. */
  type PageId = nat

  const INVALID_PAGE_ID: PageId := 0

  datatype RecordId = RecordId(pageId: PageId, slotNum: nat)

  type byte = b: int | 0 <= b < 256

  /** Whatever the host decides: whether a thread starts, a worker panics, a page can be had. */
  method Chance() returns (b: bool) { b := *; }
}
