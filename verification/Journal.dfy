/** The durable commit journal: record format, recovery of a possibly torn file, appending (transaction/recovery.rs). */
module Journals {
  import opened Prelude

  type Bytes = seq<byte>

  const U64: nat := 0x1_0000_0000_0000_0000

  /** A database image: what `snapshot_bytes` yields and `from_snapshot` restores. */
  type Image = b: Bytes | |b| < U64

  /** "BUSTXJ01" and "COMMIT01". */
  const MAGIC: Bytes := [66, 85, 83, 84, 88, 74, 48, 49]
  const COMMIT: Bytes := [67, 79, 77, 77, 73, 84, 48, 49]
  const HEADER: nat := 40

  // ---- little-endian numbers ------------------------------------------------------------------

  function Power(k: nat): (p: nat)
    ensures p > 0
  { if k == 0 then 1 else 256 * Power(k - 1) }

  function ToLe(n: nat, k: nat): (b: Bytes)
    ensures |b| == k
  { if k == 0 then [] else [n % 256] + ToLe(n / 256, k - 1) }

  function FromLe(b: Bytes): nat { if b == [] then 0 else b[0] + 256 * FromLe(b[1..]) }

  lemma {:induction false} FromToLe(n: nat, k: nat)
    requires n < Power(k)
    ensures FromLe(ToLe(n, k)) == n
  {
    if k > 0 {
      FromToLe(n / 256, k - 1);
      assert ToLe(n, k)[1..] == ToLe(n / 256, k - 1);
    }
  }

  lemma {:induction false} ToFromLe(b: Bytes)
    ensures FromLe(b) < Power(|b|)
    ensures ToLe(FromLe(b), |b|) == b
  {
    if b != [] {
      ToFromLe(b[1..]);
      assert FromLe(b) / 256 == FromLe(b[1..]);
      assert b == [b[0]] + b[1..];
    }
  }

  lemma Power8()
    ensures Power(8) == U64
  {
    assert Power(2) == 0x1_0000;
    assert Power(4) == 0x1_0000_0000 by { assert Power(3) == 256 * Power(2); }
    assert Power(5) == 256 * Power(4) && Power(6) == 256 * Power(5) && Power(7) == 256 * Power(6);
  }

  // ---- records --------------------------------------------------------------------------------

  const BASIS: nat := 0xcbf29ce484222325

  /** Exclusive or of the low `k` bits. */
  function Xor(a: nat, b: nat, k: nat): nat {
    if k == 0 then 0 else (if a % 2 == b % 2 then 0 else 1) + 2 * Xor(a / 2, b / 2, k - 1)
  }

  function Fold(hash: nat, bytes: Bytes): (r: nat)
    requires hash < U64
    ensures r < U64
    decreases |bytes|
  {
    if bytes == [] then hash
    else Fold(((hash - hash % 256 + Xor(hash % 256, bytes[0], 8)) * 0x100000001b3) % U64, bytes[1..])
  }

  /** FNV-1a over the version, the payload length and the payload. */
  function Checksum(version: nat, payload: Bytes): (r: nat)
    ensures r < U64
  {
    Fold(BASIS, ToLe(version, 8) + ToLe(|payload|, 8) + payload)
  }

  function Head(version: nat, payload: Bytes): (b: Bytes)
    ensures |b| == HEADER
  {
    MAGIC + ToLe(version, 8) + ToLe(|payload|, 8) + ToLe(Checksum(version, payload), 8)
      + ToLe(Checksum(version, ToLe(|payload|, 8)), 8)
  }

  function Record(version: nat, payload: Bytes): (b: Bytes)
    ensures |b| == HEADER + |payload| + 8
  {
    Head(version, payload) + payload + COMMIT
  }

  /** Consecutive records, numbered from `first`. */
  ghost function Records(payloads: seq<Bytes>, first: nat): Bytes {
    if payloads == [] then [] else Record(first, payloads[0]) + Records(payloads[1..], first + 1)
  }

  lemma {:induction false} RecordsAppend(ps: seq<Bytes>, first: nat, p: Bytes)
    ensures Records(ps + [p], first) == Records(ps, first) + Record(first + |ps|, p)
  {
    hide Record;
    if ps == [] {
      assert [p][1..] == [];
      assert [] + [p] == [p];
    } else {
      assert (ps + [p])[1..] == ps[1..] + [p];
      RecordsAppend(ps[1..], first + 1, p);
    }
  }

  // ---- parsing --------------------------------------------------------------------------------

  datatype OpenError = BadMagic | CorruptHeader | CorruptRecord | VersionOverflow | NonContiguous | NoInitialRecord

  /** What stands at the front of a byte sequence of at least header length. */
  datatype Front = Torn | Bad(error: OpenError) | Whole(version: nat, payload: Bytes, size: nat)

  function ReadFront(rest: Bytes): (f: Front)
    requires |rest| >= HEADER
    ensures f.Whole? ==> HEADER < f.size <= |rest|
  {
    var version, length := FromLe(rest[8..16]), FromLe(rest[16..24]);
    var expected, headerChecksum := FromLe(rest[24..32]), FromLe(rest[32..40]);
    var available := |rest| - HEADER;
    if rest[..8] != MAGIC then Bad(BadMagic)
    else if headerChecksum != Checksum(version, ToLe(length, 8)) then Bad(CorruptHeader)
    else if length > (if available < 8 then 0 else available - 8) || available < 8 then Torn
    else
      var end := HEADER + length;
      var payload := rest[HEADER..end];
      if rest[end..end + 8] != COMMIT || Checksum(version, payload) != expected then Bad(CorruptRecord)
      else Whole(version, payload, end + 8)
  }

  type Latest = Option<(nat, Bytes)>

  /** Bytes kept and last record found, reading on from `latest`. */
  function Parse(rest: Bytes, latest: Latest): (r: Result<(nat, Latest), OpenError>)
    ensures r.Ok? ==> r.value.0 <= |rest|
    decreases |rest|
  {
    if |rest| < HEADER then Ok((0, latest))
    else match ReadFront(rest)
      case Torn => Ok((0, latest))
      case Bad(e) => Err(e)
      case Whole(version, payload, size) =>
        if latest.Some? && latest.value.0 + 1 >= U64 then Err(VersionOverflow)
        else if version != (if latest.None? then 0 else latest.value.0 + 1) then Err(NonContiguous)
        else match Parse(rest[size..], Some((version, payload)))
          case Err(e) => Err(e)
          case Ok((n, l)) => Ok((size + n, l))
  }

  /** Opening a journal file: how much of it is kept and the last committed record. */
  function Recover(bytes: Bytes): Result<(nat, Latest), OpenError> {
    match Parse(bytes, None)
    case Err(e) => Err(e)
    case Ok((n, latest)) => if bytes != [] && latest.None? then Err(NoInitialRecord) else Ok((n, latest))
  }

  lemma Fields(rest: Bytes, a: Bytes, b: Bytes, c: Bytes, d: Bytes, e: Bytes)
    requires |a| == |b| == |c| == |d| == |e| == 8
    requires |rest| >= HEADER && rest[..HEADER] == a + b + c + d + e
    ensures rest[..8] == a && rest[8..16] == b && rest[16..24] == c && rest[24..32] == d && rest[32..40] == e
  {
    var h := a + b + c + d + e;
    assert h[..8] == a && h[8..16] == b && h[16..24] == c && h[24..32] == d && h[32..40] == e;
    assert rest[..8] == rest[..HEADER][..8] && rest[8..16] == rest[..HEADER][8..16];
    assert rest[16..24] == rest[..HEADER][16..24] && rest[24..32] == rest[..HEADER][24..32];
    assert rest[32..40] == rest[..HEADER][32..40];
  }

  /** The header fields of a record read back as written. */
  lemma HeadFields(rest: Bytes, version: nat, payload: Bytes)
    requires |rest| >= HEADER && rest[..HEADER] == Head(version, payload)
    requires version < U64 && |payload| < U64
    ensures rest[..8] == MAGIC
    ensures FromLe(rest[8..16]) == version && FromLe(rest[16..24]) == |payload|
    ensures FromLe(rest[24..32]) == Checksum(version, payload)
    ensures FromLe(rest[32..40]) == Checksum(version, ToLe(|payload|, 8))
  {
    hide Checksum, ToLe, FromLe, Power;
    Power8();
    var c, d := Checksum(version, payload), Checksum(version, ToLe(|payload|, 8));
    FromToLe(version, 8);
    FromToLe(|payload|, 8);
    FromToLe(c, 8);
    FromToLe(d, 8);
    Fields(rest, MAGIC, ToLe(version, 8), ToLe(|payload|, 8), ToLe(c, 8), ToLe(d, 8));
  }

  lemma ReadRecord(version: nat, payload: Bytes, tail: Bytes)
    requires version < U64 && |payload| < U64
    ensures ReadFront(Record(version, payload) + tail) == Whole(version, payload, HEADER + |payload| + 8)
  {
    hide Checksum, ToLe, FromLe;
    var rest := Record(version, payload) + tail;
    assert rest[..HEADER] == Head(version, payload);
    HeadFields(rest, version, payload);
    var end := HEADER + |payload|;
    assert rest[HEADER..end] == payload;
    assert rest[end..end + 8] == COMMIT;
  }

  lemma ReadTorn(version: nat, payload: Bytes, rest: Bytes)
    requires version < U64 && |payload| < U64
    requires HEADER <= |rest| < |Record(version, payload)| && rest == Record(version, payload)[..|rest|]
    ensures ReadFront(rest) == Torn
  {
    hide Checksum, ToLe, FromLe;
    assert rest[..HEADER] == Head(version, payload);
    HeadFields(rest, version, payload);
  }

  /** Whatever is accepted as a whole record is byte for byte the record of its version and payload. */
  lemma ReadExact(rest: Bytes)
    requires |rest| >= HEADER && ReadFront(rest).Whole?
    ensures var f := ReadFront(rest);
            && f.version < U64 && |f.payload| < U64
            && f.size == HEADER + |f.payload| + 8 && rest[..f.size] == Record(f.version, f.payload)
  {
    hide Checksum, ToLe, FromLe, Power;
    var f := ReadFront(rest);
    ToFromLe(rest[8..16]);
    ToFromLe(rest[16..24]);
    ToFromLe(rest[24..32]);
    ToFromLe(rest[32..40]);
    Power8();
    assert rest[..40] == rest[..8] + rest[8..16] + rest[16..24] + rest[24..32] + rest[32..40];
    assert rest[..40] == Head(f.version, f.payload);
    assert rest[..f.size] == rest[..40] + rest[40..f.size - 8] + rest[f.size - 8..f.size];
  }

  ghost predicate AllShort(ps: seq<Bytes>) { forall p | p in ps :: |p| < U64 }

  ghost function LastOf(ps: seq<Bytes>, first: nat, latest: Latest): Latest {
    if ps == [] then latest else Some((first + |ps| - 1, ps[|ps| - 1]))
  }

  ghost predicate Follows(latest: Latest, version: nat) {
    version == if latest.None? then 0 else latest.value.0 + 1
  }

  /** What parsing a tail yields once `n` bytes of records stand before it. */
  ghost function Shift(r: Result<(nat, Latest), OpenError>, n: nat): Result<(nat, Latest), OpenError> {
    match r
    case Err(e) => Err(e)
    case Ok((m, l)) => Ok((n + m, l))
  }

  lemma ParseOne(version: nat, payload: Bytes, tail: Bytes, latest: Latest)
    requires version < U64 && |payload| < U64 && Follows(latest, version)
    ensures Parse(Record(version, payload) + tail, latest) ==
            Shift(Parse(tail, Some((version, payload))), |Record(version, payload)|)
  {
    hide ReadFront, Record;
    ReadRecord(version, payload, tail);
    var rest, size := Record(version, payload) + tail, HEADER + |payload| + 8;
    assert |Record(version, payload)| == size;
    assert rest[size..] == tail;
  }

  lemma {:induction false} ParseRecords(ps: seq<Bytes>, first: nat, tail: Bytes, latest: Latest)
    requires AllShort(ps) && first + |ps| <= U64 && Follows(latest, first)
    ensures Parse(Records(ps, first) + tail, latest) ==
            Shift(Parse(tail, LastOf(ps, first, latest)), |Records(ps, first)|)
    decreases |ps|
  {
    hide Parse, Record;
    if ps == [] {
      assert Records(ps, first) + tail == tail;
    } else {
      var p, more := ps[0], Records(ps[1..], first + 1);
      assert p in ps;
      assert Records(ps, first) + tail == Record(first, p) + (more + tail);
      ParseOne(first, p, more + tail, latest);
      ParseRecords(ps[1..], first + 1, tail, Some((first, p)));
    }
  }

  /**
   A file of whole records followed by any proper prefix of a next record recovers the last whole one and
   is cut back to exactly its end.
   */
  lemma RecoverTorn(ps: seq<Bytes>, next: Bytes, cut: nat)
    requires ps != [] && AllShort(ps) && |next| < U64 && |ps| < U64
    requires cut < |Record(|ps|, next)|
    ensures Recover(Records(ps, 0) + Record(|ps|, next)[..cut]) ==
            Ok((|Records(ps, 0)|, Some((|ps| - 1, ps[|ps| - 1]))))
  {
    hide ReadFront, Record, Records;
    var tail := Record(|ps|, next)[..cut];
    ParseRecords(ps, 0, tail, None);
    if cut >= HEADER { ReadTorn(|ps|, next, tail); }
    RecordsFilled(ps, 0);
  }

  lemma RecordsFilled(ps: seq<Bytes>, first: nat)
    requires ps != []
    ensures Records(ps, first) != []
  {
    assert |Records(ps, first)| >= |Record(first, ps[0])|;
  }

  /** A file of whole records recovers the last one and is kept in full. */
  lemma RecoverWhole(ps: seq<Bytes>)
    requires ps != [] && AllShort(ps) && |ps| <= U64
    ensures Recover(Records(ps, 0)) == Ok((|Records(ps, 0)|, Some((|ps| - 1, ps[|ps| - 1]))))
  {
    hide ReadFront, Record, Records;
    ParseRecords(ps, 0, [], None);
    assert Records(ps, 0) + [] == Records(ps, 0);
    RecordsFilled(ps, 0);
  }

  /** A file holding only part of its first record cannot be opened. */
  lemma RecoverNoInitial(next: Bytes, cut: nat)
    requires |next| < U64 && 0 < cut < |Record(0, next)|
    ensures Recover(Record(0, next)[..cut]) == Err(NoInitialRecord)
  {
    hide ReadFront, Record;
    if cut >= HEADER { ReadTorn(0, next, Record(0, next)[..cut]); }
  }

  lemma {:induction false} ParseExact(rest: Bytes, latest: Latest) returns (ps: seq<Bytes>)
    requires Parse(rest, latest).Ok?
    ensures var first := if latest.None? then 0 else latest.value.0 + 1;
            && Parse(rest, latest).value == (|Records(ps, first)|, LastOf(ps, first, latest))
            && rest[..|Records(ps, first)|] == Records(ps, first)
    decreases |rest|
  {
    hide ReadFront, Record;
    ps := [];
    if |rest| >= HEADER {
      match ReadFront(rest)
      case Whole(version, payload, size) =>
        ReadExact(rest);
        var more := ParseExact(rest[size..], Some((version, payload)));
        ps := [payload] + more;
        assert ps[1..] == more;
        var n := |Records(more, version + 1)|;
        assert rest[..size + n] == rest[..size] + rest[size..][..n];
      case _ =>
    }
  }

  /** Conversely, whatever opening succeeds with, it keeps exactly the bytes of records 0, 1, ... up to the last. */
  lemma RecoverExact(bytes: Bytes) returns (ps: seq<Bytes>)
    requires Recover(bytes).Ok?
    ensures var (n, latest) := Recover(bytes).value;
            && n <= |bytes| && bytes[..n] == Records(ps, 0)
            && latest == LastOf(ps, 0, None)
            && (bytes != [] ==> ps != [])
  {
    ps := ParseExact(bytes, None);
  }

  // ---- exactly which files can be opened ----------------------------------------------------------

  /** The first 40 bytes are a header: for this version and length, and with any payload checksum. */
  ghost predicate HeaderFor(rest: Bytes, version: nat, length: nat) {
    && version < U64 && length < U64 && |rest| >= HEADER
    && rest[..24] == MAGIC + ToLe(version, 8) + ToLe(length, 8)
    && rest[32..40] == ToLe(Checksum(version, ToLe(length, 8)), 8)
  }

  /** An append that was cut off: less than a header, or a header that announces more than is there. */
  ghost predicate Unfinished(tail: Bytes) {
    |tail| < HEADER || exists version, length :: HeaderFor(tail, version, length) && |tail| < HEADER + length + 8
  }

  /** Records 0, 1, ... and then at most an append that was cut off. */
  ghost predicate Openable(bytes: Bytes, ps: seq<Bytes>, tail: Bytes) {
    && bytes == Records(ps, 0) + tail && (bytes != [] ==> ps != [])
    && AllShort(ps) && |ps| <= U64 && Unfinished(tail)
  }

  /** A header's fields, as numbers. */
  lemma HeaderIs(rest: Bytes, version: nat, length: nat)
    requires |rest| >= HEADER && version < U64 && length < U64
    ensures HeaderFor(rest, version, length) <==>
            && rest[..8] == MAGIC && FromLe(rest[8..16]) == version && FromLe(rest[16..24]) == length
            && FromLe(rest[32..40]) == Checksum(version, ToLe(length, 8))
  {
    hide Checksum, ToLe, FromLe, Power;
    Power8();
    var c := Checksum(version, ToLe(length, 8));
    FromToLe(version, 8);
    FromToLe(length, 8);
    FromToLe(c, 8);
    ToFromLe(rest[8..16]);
    ToFromLe(rest[16..24]);
    ToFromLe(rest[32..40]);
    assert rest[..24] == rest[..8] + rest[8..16] + rest[16..24];
    if rest[..24] == MAGIC + ToLe(version, 8) + ToLe(length, 8) {
      var h := MAGIC + ToLe(version, 8) + ToLe(length, 8);
      assert h[..8] == MAGIC && h[8..16] == ToLe(version, 8) && h[16..24] == ToLe(length, 8);
      assert rest[..8] == rest[..24][..8] && rest[8..16] == rest[..24][8..16] && rest[16..24] == rest[..24][16..24];
    }
  }

  /** Bytes without a proper header are refused as such. */
  lemma HeaderRefused(rest: Bytes, latest: Latest)
    requires |rest| >= HEADER && forall version, length :: !HeaderFor(rest, version, length)
    ensures Parse(rest, latest) == Err(if rest[..8] != MAGIC then BadMagic else CorruptHeader)
  {
    hide Checksum, ToLe, FromLe, Power;
    var version, length := FromLe(rest[8..16]), FromLe(rest[16..24]);
    Power8();
    ToFromLe(rest[8..16]);
    ToFromLe(rest[16..24]);
    assert !HeaderFor(rest, version, length);
    HeaderIs(rest, version, length);
  }

  /** What stands behind a proper header decides: nothing complete, a record, or a damaged one. */
  lemma BehindHeader(rest: Bytes, version: nat, length: nat)
    requires HeaderFor(rest, version, length)
    ensures |rest| < HEADER + length + 8 ==> ReadFront(rest) == Torn
    ensures |rest| >= HEADER + length + 8 ==>
              var payload, size := rest[HEADER..HEADER + length], HEADER + length + 8;
              if rest[..size] == Record(version, payload) then ReadFront(rest) == Whole(version, payload, size)
              else ReadFront(rest) == Bad(CorruptRecord)
  {
    hide Checksum, ToLe, FromLe, Power, Record;
    HeaderIs(rest, version, length);
    if |rest| >= HEADER + length + 8 {
      var payload, size := rest[HEADER..HEADER + length], HEADER + length + 8;
      if rest[..size] == Record(version, payload) {
        assert rest == rest[..size] + rest[size..];
        ReadRecord(version, payload, rest[size..]);
      } else if ReadFront(rest).Whole? {
        ReadExact(rest);
        assert false;
      }
    }
  }

  /** A tail that was cut off is dropped. */
  lemma UnfinishedDropped(tail: Bytes, latest: Latest)
    requires Unfinished(tail)
    ensures Parse(tail, latest) == Ok((0, latest))
  {
    hide HeaderFor, ReadFront;
    if |tail| >= HEADER {
      var version, length :| HeaderFor(tail, version, length) && |tail| < HEADER + length + 8;
      BehindHeader(tail, version, length);
    }
  }

  /** Conversely, what parsing leaves unread is a tail that was cut off. */
  lemma {:induction false} ParseLeaves(rest: Bytes, latest: Latest) returns (ps: seq<Bytes>, tail: Bytes)
    requires Parse(rest, latest).Ok? && (latest.Some? ==> latest.value.0 < U64)
    ensures var first := if latest.None? then 0 else latest.value.0 + 1;
            rest == Records(ps, first) + tail && AllShort(ps) && first + |ps| <= U64 && Unfinished(tail)
    decreases |rest|
  {
    hide ReadFront, Record, HeaderFor;
    ps, tail := [], rest;
    if |rest| >= HEADER {
      match ReadFront(rest)
      case Whole(version, payload, size) =>
        ReadExact(rest);
        var more;
        more, tail := ParseLeaves(rest[size..], Some((version, payload)));
        ps := [payload] + more;
        assert ps[1..] == more;
        assert rest == rest[..size] + rest[size..];
      case Torn =>
        TornHeader(rest);
      case Bad(_) =>
    }
  }

  lemma TornHeader(rest: Bytes)
    requires |rest| >= HEADER && ReadFront(rest) == Torn
    ensures Unfinished(rest)
  {
    hide Checksum, ToLe, FromLe, Power;
    var version, length := FromLe(rest[8..16]), FromLe(rest[16..24]);
    Power8();
    ToFromLe(rest[8..16]);
    ToFromLe(rest[16..24]);
    HeaderIs(rest, version, length);
    assert HeaderFor(rest, version, length) && |rest| < HEADER + length + 8;
  }

  /**
   A file can be opened if and only if it is records 0, 1, ... and then at most an append that was cut off, with a
   complete record 0 unless it is empty; and then it is cut back to those records and yields the last.
   */
  lemma OpenExact(bytes: Bytes)
    ensures Recover(bytes).Ok? <==> exists ps, tail :: Openable(bytes, ps, tail)
    ensures forall ps, tail :: Openable(bytes, ps, tail) ==>
              Recover(bytes) == Ok((|Records(ps, 0)|, LastOf(ps, 0, None)))
  {
    hide Records, Parse, Unfinished;
    forall ps, tail | Openable(bytes, ps, tail)
      ensures Recover(bytes) == Ok((|Records(ps, 0)|, LastOf(ps, 0, None)))
    {
      ParseRecords(ps, 0, tail, None);
      UnfinishedDropped(tail, LastOf(ps, 0, None));
    }
    if Recover(bytes).Ok? {
      var ps, tail := ParseLeaves(bytes, None);
      ParseRecords(ps, 0, tail, None);
      UnfinishedDropped(tail, LastOf(ps, 0, None));
      assert Openable(bytes, ps, tail);
    }
  }

  /** What is kept then are the records. */
  lemma Opened(bytes: Bytes)
    ensures forall ps, tail :: Openable(bytes, ps, tail) ==>
              |Records(ps, 0)| <= |bytes| && bytes[..|Records(ps, 0)|] == Records(ps, 0)
  {
    hide Records, Unfinished;
  }

  /**
   Damage behind whole records is refused, each kind with its own error: no proper header, a complete record whose
   commit mark, payload or payload checksum does not belong to it, and a record out of turn.
   */
  lemma DamageRefused(ps: seq<Bytes>, rest: Bytes)
    requires AllShort(ps) && |ps| < U64 && |rest| >= HEADER
    ensures (forall version, length :: !HeaderFor(rest, version, length)) ==>
              Recover(Records(ps, 0) + rest) == Err(if rest[..8] != MAGIC then BadMagic else CorruptHeader)
    ensures forall version, length | HeaderFor(rest, version, length) && |rest| >= HEADER + length + 8 ::
              var payload, front := rest[HEADER..HEADER + length], rest[..HEADER + length + 8];
              && (front != Record(version, payload) ==> Recover(Records(ps, 0) + rest) == Err(CorruptRecord))
              && (front == Record(version, payload) && version != |ps| ==>
                    Recover(Records(ps, 0) + rest) == Err(NonContiguous))
  {
    hide Records, Record, HeaderFor, ReadFront;
    ParseRecords(ps, 0, rest, None);
    if forall version, length :: !HeaderFor(rest, version, length) {
      HeaderRefused(rest, LastOf(ps, 0, None));
    }
    forall version, length | HeaderFor(rest, version, length) && |rest| >= HEADER + length + 8
      ensures var payload, front := rest[HEADER..HEADER + length], rest[..HEADER + length + 8];
              && (front != Record(version, payload) ==> Recover(Records(ps, 0) + rest) == Err(CorruptRecord))
              && (front == Record(version, payload) && version != |ps| ==>
                    Recover(Records(ps, 0) + rest) == Err(NonContiguous))
    {
      BehindHeader(rest, version, length);
    }
  }

  // ---- the checksum tells -------------------------------------------------------------------------

  const PRIME: nat := 0x100000001b3

  /** The prime times this is one more than a multiple of 2^64. */
  const INVERSE: nat := 0xce965057aff6957b

  function Pow2(k: nat): (p: nat)
    ensures p > 0
  { if k == 0 then 1 else 2 * Pow2(k - 1) }

  lemma {:induction false} XorTells(a: nat, b: nat, c: nat, k: nat)
    requires a < Pow2(k) && b < Pow2(k) && c < Pow2(k)
    ensures Xor(a, c, k) < Pow2(k)
    ensures Xor(c, a, k) == Xor(c, b, k) || Xor(a, c, k) == Xor(b, c, k) ==> a == b
  {
    if k > 0 {
      XorTells(a / 2, b / 2, c / 2, k - 1);
    }
  }

  lemma ModIs(x: int, a: nat, k: int)
    requires x == a + U64 * k && a < U64
    ensures x % U64 == a
  {
  }

  /** Multiplying by the prime can be undone. */
  lemma TimesPrime(a: nat)
    requires a < U64
    ensures ((a * PRIME) % U64 * INVERSE) % U64 == a
  {
    var k, r := (a * PRIME) / U64, (a * PRIME) % U64;
    assert a * PRIME == U64 * k + r;
    var q := 0xce9650590f;
    assert PRIME * INVERSE == 1 + U64 * q;
    Regroup(a, PRIME, INVERSE, U64, k, r, q);
    ModIs(r * INVERSE, a, a * q - k * INVERSE);
  }

  lemma Regroup(a: int, p: int, i: int, m: int, k: int, r: int, q: int)
    requires a * p == m * k + r && p * i == 1 + m * q
    ensures r * i == a + m * (a * q - k * i)
  {
    calc {
      r * i;
      (a * p - m * k) * i;
      a * (p * i) - m * (k * i);
      a * (1 + m * q) - m * (k * i);
      a + a * (m * q) - m * (k * i);
    }
    assert a * (m * q) == m * (a * q);
    assert m * (a * q) - m * (k * i) == m * (a * q - k * i);
  }

  /** One byte mixed in. */
  function Mixed(hash: nat, b: byte): nat { hash - hash % 256 + Xor(hash % 256, b, 8) }

  lemma MixTells(g: nat, h: nat, x: byte, y: byte)
    requires g < U64 && h < U64
    ensures Mixed(g, x) < U64 && Mixed(h, y) < U64
    ensures g == h && Mixed(g, x) == Mixed(h, y) ==> x == y
    ensures x == y && Mixed(g, x) == Mixed(h, y) ==> g == h
  {
    hide Xor;
    assert Pow2(8) == 256 by { assert Pow2(4) == 16; assert Pow2(6) == 64; }
    XorTells(g % 256, h % 256, x, 8);
    XorTells(h % 256, g % 256, y, 8);
    XorTells(x, y, g % 256, 8);
    var a, b := g % 256, h % 256;
    assert g == 256 * (g / 256) + a && h == 256 * (h / 256) + b;
    assert Mixed(g, x) == 256 * (g / 256) + Xor(a, x, 8) && Mixed(h, y) == 256 * (h / 256) + Xor(b, y, 8);
  }

  lemma FoldStep(hash: nat, bytes: Bytes)
    requires hash < U64 && bytes != []
    ensures Fold(hash, bytes) == Fold((Mixed(hash, bytes[0]) * PRIME) % U64, bytes[1..])
  {
  }

  /** Hashes that differ stay different. */
  lemma {:induction false} FoldTells(g: nat, h: nat, bytes: Bytes)
    requires g < U64 && h < U64 && Fold(g, bytes) == Fold(h, bytes)
    ensures g == h
    decreases |bytes|
  {
    if bytes != [] {
      FoldStep(g, bytes);
      FoldStep(h, bytes);
      hide Fold, Mixed;
      MixTells(g, h, bytes[0], bytes[0]);
      FoldTells((Mixed(g, bytes[0]) * PRIME) % U64, (Mixed(h, bytes[0]) * PRIME) % U64, bytes[1..]);
      TimesPrime(Mixed(g, bytes[0]));
      TimesPrime(Mixed(h, bytes[0]));
    }
  }

  /** Two byte strings that differ in one byte hash differently. */
  lemma {:induction false} FoldDiffers(hash: nat, bytes: Bytes, i: nat, b: byte)
    requires hash < U64 && i < |bytes| && b != bytes[i]
    ensures Fold(hash, bytes[i := b]) != Fold(hash, bytes)
    decreases |bytes|
  {
    var altered := bytes[i := b];
    FoldStep(hash, bytes);
    FoldStep(hash, altered);
    hide Fold, Mixed;
    MixTells(hash, hash, bytes[0], altered[0]);
    if i == 0 {
      assert altered[1..] == bytes[1..];
      var g, h := (Mixed(hash, bytes[0]) * PRIME) % U64, (Mixed(hash, b) * PRIME) % U64;
      if Fold(g, bytes[1..]) == Fold(h, bytes[1..]) {
        FoldTells(g, h, bytes[1..]);
        TimesPrime(Mixed(hash, bytes[0]));
        TimesPrime(Mixed(hash, b));
        assert false;
      }
    } else {
      assert altered[1..] == bytes[1..][i - 1 := b];
      FoldDiffers((Mixed(hash, bytes[0]) * PRIME) % U64, bytes[1..], i - 1, b);
    }
  }

  /** A published value of 64-bit FNV-1a: that of "a". */
  lemma KnownHash()
    ensures Fold(BASIS, [97]) == 0xaf63dc4c8601ec8c
  {
    KnownXor();
    hide Xor, Fold;
    assert Mixed(BASIS, 97) == 0xcbf29ce484222344;
    FoldStep(BASIS, [97]);
    assert [97][1..] == [];
    NothingHashed();
  }

  lemma NothingHashed()
    ensures forall hash: nat | hash < U64 :: Fold(hash, []) == hash
  {
  }

  lemma KnownXor()
    ensures Xor(37, 97, 8) == 68
  {
    assert Xor(37 / 16, 97 / 16, 4) == 4;
  }

  /** Version 258 with the one byte 7: magic, version, length, two checksums, payload, commit mark. */
  lemma KnownRecord()
    ensures var r := Record(258, [7]);
            && |r| == 49
            && r[..24] == [66, 85, 83, 84, 88, 74, 48, 49, 2, 1, 0, 0, 0, 0, 0, 0, 1, 0, 0, 0, 0, 0, 0, 0]
            && r[40..] == [7, 67, 79, 77, 77, 73, 84, 48, 49]
  {
    hide Checksum, ToLe;
    LeBytes(2, 1);
    LeBytes(1, 0);
    var c, d := ToLe(Checksum(258, [7]), 8), ToLe(Checksum(258, ToLe(1, 8)), 8);
    assert Record(258, [7]) == MAGIC + ToLe(258, 8) + ToLe(1, 8) + c + d + [7] + COMMIT;
  }

  /** A number below 65536, least significant byte first. */
  lemma LeBytes(a: byte, b: byte)
    ensures ToLe(a + 256 * b, 8) == [a, b, 0, 0, 0, 0, 0, 0]
  {
    LeNone(6);
    assert (a + 256 * b) / 256 == b && (a + 256 * b) % 256 == a && b / 256 == 0;
    assert ToLe(b, 7) == [b] + ToLe(0, 6);
  }

  lemma LeNone(k: nat)
    requires k == 6
    ensures ToLe(0, k) == [0, 0, 0, 0, 0, 0]
  {
    assert ToLe(0, 3) == [0, 0, 0];
  }

  /** Where byte `i` of consecutive records lies: byte `j` of record `k`. */
  lemma {:induction false} Locate(ps: seq<Bytes>, first: nat, i: nat) returns (k: nat, j: nat)
    requires i < |Records(ps, first)|
    ensures k < |ps| && j < |Record(first + k, ps[k])| && i == |Records(ps[..k], first)| + j
    ensures Records(ps, first) == Records(ps[..k], first) + Record(first + k, ps[k])
                                  + Records(ps[k + 1..], first + k + 1)
  {
    hide Record;
    var size := |Record(first, ps[0])|;
    if i < size {
      k, j := 0, i;
      assert ps[..0] == [];
    } else {
      k, j := Locate(ps[1..], first + 1, i - size);
      k := k + 1;
      assert ps[..k][1..] == ps[1..][..k - 1] && ps[k + 1..] == ps[1..][k..] && ps[1..][k - 1] == ps[k];
      assert Records(ps[..k], first) == Record(first, ps[0]) + Records(ps[1..][..k - 1], first + 1);
    }
  }

  /** The five fields of a header whose byte `j` was altered. */
  lemma AlteredHeader(version: nat, payload: Bytes, j: nat, b: byte, rest: Bytes)
    requires version < U64 && |payload| < U64 && j < HEADER && b != Record(version, payload)[j]
    requires |rest| >= HEADER && rest[..HEADER] == Head(version, payload)[j := b]
    ensures j < 24 || j >= 32 ==> forall v, n :: !HeaderFor(rest, v, n)
    ensures 24 <= j < 32 ==> HeaderFor(rest, version, |payload|)
  {
    hide Checksum, ToLe, Power;
    var a, c := ToLe(version, 8), ToLe(|payload|, 8);
    var d, e := ToLe(Checksum(version, payload), 8), ToLe(Checksum(version, c), 8);
    var h := MAGIC + a + c + d + e;
    assert h == Head(version, payload) && h[..24] == MAGIC + a + c && h[32..40] == e;
    assert h[j] == Record(version, payload)[j];
    assert rest[..24] == rest[..HEADER][..24] && rest[32..40] == rest[..HEADER][32..40];
    if j < 24 {
      assert rest[..24] == (MAGIC + a + c)[j := b] && rest[32..40] == e;
      forall v, n ensures !HeaderFor(rest, v, n) {
        if HeaderFor(rest, v, n) {
          AlteredFields(version, |payload|, v, n, j, b);
          assert false;
        }
      }
    } else if j < 32 {
      assert rest[..24] == h[..24] && rest[32..40] == e;
    } else {
      assert rest[..24] == h[..24] && rest[32..40] == e[j - 32 := b];
      forall v, n ensures !HeaderFor(rest, v, n) {
        if HeaderFor(rest, v, n) {
          SameFields(version, |payload|, v, n);
          assert false;
        }
      }
    }
  }

  /** Magic, version and length read off their bytes. */
  lemma SameFields(version: nat, length: nat, v: nat, n: nat)
    requires version < U64 && length < U64 && v < U64 && n < U64
    requires MAGIC + ToLe(version, 8) + ToLe(length, 8) == MAGIC + ToLe(v, 8) + ToLe(n, 8)
    ensures v == version && n == length
  {
    hide ToLe, FromLe, Power;
    Power8();
    var x, y := MAGIC + ToLe(version, 8) + ToLe(length, 8), MAGIC + ToLe(v, 8) + ToLe(n, 8);
    assert x[8..16] == ToLe(version, 8) && x[16..24] == ToLe(length, 8);
    assert y[8..16] == ToLe(v, 8) && y[16..24] == ToLe(n, 8);
    FromToLe(version, 8);
    FromToLe(length, 8);
    FromToLe(v, 8);
    FromToLe(n, 8);
  }

  /** What the header's checksum is taken over. */
  function Covered(version: nat, length: nat): (b: Bytes)
    ensures |b| == 24
  {
    ToLe(version, 8) + ToLe(8, 8) + ToLe(length, 8)
  }

  /** With one byte of version or length altered the header's checksum is another one. */
  lemma AlteredFields(version: nat, length: nat, v: nat, n: nat, j: nat, b: byte)
    requires version < U64 && length < U64 && v < U64 && n < U64 && j < 24
    requires var fields := MAGIC + ToLe(version, 8) + ToLe(length, 8);
             b != fields[j] && fields[j := b] == MAGIC + ToLe(v, 8) + ToLe(n, 8)
    ensures ToLe(Checksum(version, ToLe(length, 8)), 8) != ToLe(Checksum(v, ToLe(n, 8)), 8)
  {
    hide ToLe, FromLe, Power, Fold;
    Power8();
    var x, y := MAGIC + ToLe(version, 8) + ToLe(length, 8), MAGIC + ToLe(v, 8) + ToLe(n, 8);
    assert y[j] == b && forall k | 0 <= k < 24 && k != j :: y[k] == x[k];
    assert x[..8] == MAGIC == y[..8];
    assert j >= 8;
    var i := if j < 16 then j - 8 else j;
    var p, q := Covered(version, length), Covered(v, n);
    forall k | 0 <= k < 24 ensures q[k] == p[i := b][k] {
      if k < 8 { assert p[k] == x[k + 8] && q[k] == y[k + 8]; }
      else if k >= 16 { assert p[k] == x[k] && q[k] == y[k]; }
    }
    assert q == p[i := b];
    FoldDiffers(BASIS, p, i, b);
    FromToLe(Checksum(version, ToLe(length, 8)), 8);
    FromToLe(Checksum(v, ToLe(n, 8)), 8);
  }

  /** With one byte of the payload altered the payload's checksum is another one. */
  lemma AlteredPayload(version: nat, payload: Bytes, i: nat, b: byte)
    requires version < U64 && |payload| < U64 && i < |payload| && b != payload[i]
    ensures ToLe(Checksum(version, payload[i := b]), 8) != ToLe(Checksum(version, payload), 8)
  {
    hide ToLe, FromLe, Power, Fold;
    Power8();
    var a, n := ToLe(version, 8), ToLe(|payload|, 8);
    assert a + n + payload[i := b] == (a + n + payload)[16 + i := b];
    FoldDiffers(BASIS, a + n + payload, 16 + i, b);
    FromToLe(Checksum(version, payload), 8);
    FromToLe(Checksum(version, payload[i := b]), 8);
  }

  /** Behind its header, a record with one byte altered is not the record of what it now holds. */
  lemma AlteredRecord(version: nat, payload: Bytes, j: nat, b: byte)
    requires version < U64 && |payload| < U64 && 24 <= j < HEADER + |payload| + 8 && !(32 <= j < HEADER)
    requires b != Record(version, payload)[j]
    ensures var altered := Record(version, payload)[j := b];
            altered != Record(version, altered[HEADER..HEADER + |payload|])
  {
    hide Checksum, ToLe, FromLe, Power;
    var end := HEADER + |payload|;
    var r := Record(version, payload);
    var altered := r[j := b];
    var payload' := altered[HEADER..end];
    if altered == Record(version, payload') {
      if HEADER <= j < end {
        assert payload' == payload[j - HEADER := b] && r[j] == payload[j - HEADER];
        AlteredPayload(version, payload, j - HEADER, b);
        assert altered[24..32] == r[24..32];
        RecordField(version, payload);
        RecordField(version, payload');
      }
      assert false;
    }
  }

  lemma RecordField(version: nat, payload: Bytes)
    ensures Record(version, payload)[24..32] == ToLe(Checksum(version, payload), 8)
  {
    hide Checksum, ToLe;
    var a, c := ToLe(version, 8), ToLe(|payload|, 8);
    var d, e := ToLe(Checksum(version, payload), 8), ToLe(Checksum(version, c), 8);
    var r := MAGIC + a + c + d + e + payload + COMMIT;
    assert r[24..32] == d;
  }

  /** No file of whole records can be opened once any one of its bytes has been altered. */
  lemma OneByteRefused(ps: seq<Bytes>, i: nat, b: byte)
    requires AllShort(ps) && |ps| <= U64 && i < |Records(ps, 0)| && b != Records(ps, 0)[i]
    ensures Recover(Records(ps, 0)[i := b]).Err?
  {
    hide Record, HeaderFor, Recover;
    var k, j := Locate(ps, 0, i);
    var p, before, after := ps[k], Records(ps[..k], 0), Records(ps[k + 1..], k + 1);
    assert p in ps;
    var rest := Record(k, p)[j := b] + after;
    assert Records(ps, 0)[i := b] == before + rest;
    assert b != Record(k, p)[j];
    AlteredFront(k, p, j, b, after);
    DamageRefused(ps[..k], rest);
  }

  lemma AlteredFront(k: nat, p: Bytes, j: nat, b: byte, after: Bytes)
    requires k < U64 && |p| < U64 && j < |Record(k, p)| && b != Record(k, p)[j]
    ensures var rest := Record(k, p)[j := b] + after;
            && |rest| >= HEADER + |p| + 8
            && ((forall v, n :: !HeaderFor(rest, v, n))
                || (HeaderFor(rest, k, |p|)
                    && rest[..HEADER + |p| + 8] != Record(k, rest[HEADER..HEADER + |p|])))
  {
    hide HeaderFor, Checksum, ToLe;
    var rest, altered := Record(k, p)[j := b] + after, Record(k, p)[j := b];
    assert rest[..HEADER + |p| + 8] == altered;
    assert rest[HEADER..HEADER + |p|] == altered[HEADER..HEADER + |p|];
    assert Record(k, p)[..HEADER] == Head(k, p);
    if j < HEADER {
      assert rest[..HEADER] == Head(k, p)[j := b];
      AlteredHeader(k, p, j, b, rest);
    } else {
      assert rest[..HEADER] == Head(k, p);
      PlainHeader(k, p, rest);
    }
    if 24 <= j && !(32 <= j < HEADER) {
      AlteredRecord(k, p, j, b);
    }
  }

  lemma PlainHeader(version: nat, payload: Bytes, rest: Bytes)
    requires version < U64 && |payload| < U64 && |rest| >= HEADER && rest[..HEADER] == Head(version, payload)
    ensures HeaderFor(rest, version, |payload|)
  {
    HeadFields(rest, version, payload);
    HeaderIs(rest, version, |payload|);
  }

  lemma HeaderSlices(rest: Bytes, header: Bytes)
    requires |rest| >= HEADER && header == rest[..HEADER]
    ensures rest[..8] == header[..8] && rest[8..16] == header[8..16] && rest[16..24] == header[16..24]
    ensures rest[24..32] == header[24..32] && rest[32..40] == header[32..40]
  {}

  // ---- the journal object ---------------------------------------------------------------------

  /** How a write of a record ends: durably, or with an error after some prefix reached the file. */
  datatype Io = Written | Failed(prefix: nat)

  /** The bytes a write leaves behind. */
  function Landed(record: Bytes, io: Io): Bytes {
    match io
    case Written => record
    case Failed(n) => record[..if n <= |record| then n else |record|]
  }

  datatype JournalState = JournalState(file: Bytes, failed: bool)

  /** Appending as a function of the journal's state. */
  function AppendTo(j: JournalState, version: nat, payload: Bytes, io: Io): (JournalState, bool) {
    if j.failed then (j, false)
    else (JournalState(j.file + Landed(Record(version, payload), io), io.Failed?), io.Written?)
  }

  class Journal {
    var file: Bytes
    var failed: bool

    ghost function View(): JournalState reads this { JournalState(file, failed) }

    constructor (file: Bytes)
      ensures View() == JournalState(file, false)
    {
      this.file, failed := file, false;
    }

    /** Reads the record at the cursor: header first, then payload and commit mark. */
    static method ReadAt(bytes: Bytes, cursor: nat) returns (front: Front)
      requires cursor + HEADER <= |bytes|
      ensures front == ReadFront(bytes[cursor..])
    {
      hide Checksum, ToLe, FromLe;
      var header := bytes[cursor..cursor + HEADER];
      ghost var rest := bytes[cursor..];
      HeaderSlices(rest, header);
      if header[..8] != MAGIC {
        return Bad(BadMagic);
      }
      var version, length := FromLe(header[8..16]), FromLe(header[16..24]);
      var expected, headerChecksum := FromLe(header[24..32]), FromLe(header[32..40]);
      if headerChecksum != Checksum(version, ToLe(length, 8)) {
        return Bad(CorruptHeader);
      }
      var available := |bytes| - cursor - HEADER;
      if length > (if available < 8 then 0 else available - 8) || available < 8 {
        return Torn;
      }
      var end := cursor + HEADER + length;
      var payload := bytes[cursor + HEADER..end];
      assert payload == rest[HEADER..HEADER + length];
      assert bytes[end..end + 8] == rest[HEADER + length..HEADER + length + 8];
      if bytes[end..end + 8] != COMMIT || Checksum(version, payload) != expected {
        return Bad(CorruptRecord);
      }
      front := Whole(version, payload, HEADER + length + 8);
    }

    /** Reads the records of a journal file and cuts off an unfinished tail. */
    static method Open(bytes: Bytes) returns (r: Result<(Journal, Latest), OpenError>)
      ensures r.Ok? <==> exists ps, tail :: Openable(bytes, ps, tail)
      ensures forall ps, tail :: Openable(bytes, ps, tail) ==>
                r.Ok? && r.value.0.file == Records(ps, 0) && r.value.1 == LastOf(ps, 0, None)
      ensures r.Ok? <==> Recover(bytes).Ok?
      ensures r.Err? ==> r.error == Recover(bytes).error
      ensures r.Ok? ==>
                var (n, latest) := Recover(bytes).value;
                && n <= |bytes| && fresh(r.value.0)
                && r.value.0.View() == JournalState(bytes[..n], false) && r.value.1 == latest
    {
      hide ReadFront, Openable, Records;
      OpenExact(bytes);
      Opened(bytes);
      var cursor: nat, latest: Latest := 0, None;
      assert bytes[0..] == bytes;
      while |bytes| - cursor >= HEADER
        invariant cursor <= |bytes|
        invariant |bytes| - cursor < HEADER ==> Parse(bytes[cursor..], latest) == Ok((0, latest))
        invariant Parse(bytes, None) == Shift(Parse(bytes[cursor..], latest), cursor)
        decreases |bytes| - cursor
      {
        var front := ReadAt(bytes, cursor);
        if front.Bad? {
          return Err(front.error);
        }
        if front.Torn? {
          break;
        }
        if latest.Some? && latest.value.0 + 1 >= U64 {
          return Err(VersionOverflow);
        }
        var expectedVersion := if latest.None? then 0 else latest.value.0 + 1;
        if front.version != expectedVersion {
          return Err(NonContiguous);
        }
        assert bytes[cursor..][front.size..] == bytes[cursor + front.size..];
        latest := Some((front.version, front.payload));
        cursor := cursor + front.size;
      }
      if bytes != [] && latest.None? {
        return Err(NoInitialRecord);
      }
      var journal := new Journal(bytes[..cursor]);
      r := Ok((journal, latest));
    }

    method EnsureUsable() returns (usable: bool)
      ensures usable <==> !failed
    {
      usable := !failed;
    }

    /** Appends one record; after a failed write the journal refuses further use. */
    method Append(version: nat, payload: Bytes, io: Io) returns (ok: bool)
      modifies this
      ensures (View(), ok) == AppendTo(old(View()), version, payload, io)
    {
      var usable := EnsureUsable();
      if !usable {
        return false;
      }
      var bytes := Record(version, payload);
      file := file + Landed(bytes, io);
      if io.Failed? {
        failed := true;
        return false;
      }
      ok := true;
    }
  }
}
