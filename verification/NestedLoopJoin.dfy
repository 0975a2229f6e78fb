/** The resumable, batched nested-loop join (execution/physical_plan/nested_loop_join.rs). */
module NestedLoopJoin {
  import opened Prelude
  import opened Parallel

  datatype Cell = Null | Value(v: int)

  type Row = seq<Cell>

  datatype JoinType = Inner | LeftOuter | RightOuter | FullOuter | Cross

  /** What the join condition evaluates to on a combined row. */
  datatype Verdict = True | NotTrue | Broken(error: nat)

  type Item = Result<Row, nat>

  datatype Join = Join(joinType: JoinType, condition: Option<Row -> Verdict>, leftWidth: nat, rightWidth: nat)

  function Nulls(n: nat): Row { seq(n, _ => Null) }

  function Combine(j: Join, left: Option<Row>, right: Option<Row>): Row {
    (match left case Some(l) => l case None => Nulls(j.leftWidth))
    + (match right case Some(r) => r case None => Nulls(j.rightWidth))
  }

  /** One pair of rows: a joined row, nothing, or an evaluation error. */
  function JoinRows(j: Join, left: Row, right: Row): Result<Option<Row>, nat> {
    var row := Combine(j, Some(left), Some(right));
    match j.condition
    case None => Ok(Some(row))
    case Some(c) =>
      match c(row)
      case True => Ok(Some(row))
      case NotTrue => Ok(None)
      case Broken(e) => Err(e)
  }

  predicate PreservesLeft(j: Join) { j.joinType in {LeftOuter, FullOuter} }

  predicate PreservesRight(j: Join) { j.joinType in {RightOuter, FullOuter} }

  predicate Matches(j: Join, left: Row, right: Row) {
    var r := JoinRows(j, left, right); r.Ok? && r.value.Some?
  }

  /** What one pair contributes to the output. */
  function PairOut(j: Join, left: Row, right: Row): seq<Item> {
    match JoinRows(j, left, right)
    case Err(e) => [Err(e)]
    case Ok(None) => []
    case Ok(Some(row)) => [Ok(row)]
  }

  // ---- what is still to come ------------------------------------------------------------------

  ghost predicate Breaks(items: seq<Item>) { exists i :: 0 <= i < |items| && items[i].Err? }

  /** One left row against the rest of the right input, up to the first input error. */
  ghost function ScanOut(j: Join, left: Row, items: seq<Item>): seq<Item> {
    if items == [] then []
    else if items[0].Err? then [items[0]]
    else PairOut(j, left, items[0].value) + ScanOut(j, left, items[1..])
  }

  /** Ordinals of the right rows a left row matches, counting from `first`. */
  ghost function ScanMatched(j: Join, left: Row, items: seq<Item>, first: nat): set<nat> {
    if items == [] || items[0].Err? then {}
    else (if Matches(j, left, items[0].value) then {first} else {}) + ScanMatched(j, left, items[1..], first + 1)
  }

  ghost function UnmatchedRight(j: Join, items: seq<Item>, first: nat, matched: set<nat>): seq<Item> {
    if items == [] then []
    else if items[0].Err? then [items[0]]
    else (if first in matched then [] else [Ok(Combine(j, None, Some(items[0].value)))])
         + UnmatchedRight(j, items[1..], first + 1, matched)
  }

  ghost function Extended(j: Join, left: Row, matched: bool): seq<Item> {
    if PreservesLeft(j) && !matched then [Ok(Combine(j, Some(left), None))] else []
  }

  /** Everything still to come before the left input's next row. */
  ghost function LeftPhase(j: Join, lefts: seq<Item>, rights: seq<Item>, matched: set<nat>): seq<Item>
    decreases |lefts|, 0
  {
    if lefts == [] then if PreservesRight(j) then UnmatchedRight(j, rights, 0, matched) else []
    else if lefts[0].Err? then [lefts[0]] + LeftPhase(j, lefts[1..], rights, matched)
    else RowPhase(j, lefts[0].value, rights, 0, false, lefts[1..], rights, matched)
  }

  /** Everything still to come while a left row is being compared with the right rows `todo`. */
  ghost function RowPhase(j: Join, left: Row, todo: seq<Item>, ordinal: nat, hit: bool, lefts: seq<Item>,
                          rights: seq<Item>, matched: set<nat>): seq<Item>
    decreases |lefts|, 1
  {
    ScanOut(j, left, todo)
    + if Breaks(todo) then []
      else
        var m := ScanMatched(j, left, todo, ordinal);
        Extended(j, left, hit || m != {}) + LeftPhase(j, lefts, rights, matched + m)
  }

  ghost predicate AllOk(items: seq<Item>) { forall i | 0 <= i < |items| :: items[i].Ok? }

  function Rows(items: seq<Item>): seq<Row>
    requires AllOk(items)
  {
    seq(|items|, i requires 0 <= i < |items| => items[i].value)
  }

  /** A batch of right rows may be scanned ahead of the rest. */
  lemma {:induction false} ScanAppend(j: Join, left: Row, a: seq<Item>, b: seq<Item>, first: nat)
    requires AllOk(a)
    ensures ScanOut(j, left, a + b) == ScanOut(j, left, a) + ScanOut(j, left, b)
    ensures ScanMatched(j, left, a + b, first) == ScanMatched(j, left, a, first) + ScanMatched(j, left, b, first + |a|)
    ensures Breaks(a + b) <==> Breaks(b)
  {
    BreaksAppend(a, b);
    if a == [] {
      assert a + b == b;
    } else {
      assert (a + b)[1..] == a[1..] + b;
      ScanAppend(j, left, a[1..], b, first + 1);
    }
  }

  lemma BreaksAppend(a: seq<Item>, b: seq<Item>)
    requires AllOk(a)
    ensures Breaks(a + b) <==> Breaks(b)
  {
    if Breaks(b) {
      var i :| 0 <= i < |b| && b[i].Err?;
      assert (a + b)[|a| + i].Err?;
    }
  }

  /** Comparing a left row with a batch `a` of right rows and then with `b`. */
  lemma RowPhaseBatch(j: Join, left: Row, a: seq<Item>, b: seq<Item>, ordinal: nat, hit: bool, lefts: seq<Item>,
                      rights: seq<Item>, matched: set<nat>)
    requires AllOk(a)
    ensures var m := ScanMatched(j, left, a, ordinal);
            RowPhase(j, left, a + b, ordinal, hit, lefts, rights, matched) ==
            ScanOut(j, left, a) + RowPhase(j, left, b, ordinal + |a|, hit || m != {}, lefts, rights, matched + m)
  {
    ScanAppend(j, left, a, b, ordinal);
    var m, n := ScanMatched(j, left, a, ordinal), ScanMatched(j, left, b, ordinal + |a|);
    assert matched + m + n == matched + (m + n);
  }

  /** The right input is used up, or has failed. */
  lemma RowPhaseEnds(j: Join, left: Row, rest: seq<Item>, ordinal: nat, hit: bool, lefts: seq<Item>,
                     rights: seq<Item>, matched: set<nat>)
    ensures RowPhase(j, left, [], ordinal, hit, lefts, rights, matched) ==
            Extended(j, left, hit) + LeftPhase(j, lefts, rights, matched)
    ensures rest != [] && rest[0].Err? ==>
              RowPhase(j, left, rest, ordinal, hit, lefts, rights, matched) == [rest[0]]
  {
    assert matched + {} == matched;
  }

  // ---- the operator ---------------------------------------------------------------------------

  /** The error of an input that cannot be initialized, and of workers that cannot be started or panic. */
  const HOST_FAILED: nat := 0

  /** An input that replays the same items after every `Init` that succeeds. */
  class RowSource {
    const items: seq<Item>
    var cursor: nat

    constructor (items: seq<Item>)
      ensures this.items == items && cursor == 0
    {
      this.items, cursor := items, 0;
    }

    method Init() returns (ok: bool)
      modifies this
      ensures ok ==> cursor == 0
      ensures !ok ==> cursor == old(cursor)
    {
      ok := Chance();
      if ok {
        cursor := 0;
      }
    }

    method Next() returns (r: Result<Option<Row>, nat>)
      requires cursor <= |items|
      modifies this
      ensures old(cursor) == |items| ==> r == Ok(None) && cursor == old(cursor)
      ensures old(cursor) < |items| ==> cursor == old(cursor) + 1
      ensures old(cursor) < |items| && items[old(cursor)].Ok? ==> r == Ok(Some(items[old(cursor)].value))
      ensures old(cursor) < |items| && items[old(cursor)].Err? ==> r == Err(items[old(cursor)].error)
    {
      if cursor == |items| {
        return Ok(None);
      }
      r := match items[cursor] case Ok(row) => Ok(Some(row)) case Err(e) => Err(e);
      cursor := cursor + 1;
    }
  }

  /** The item a call of `next` handed out, as a call result. */
  ghost function Handed(item: Item): Result<Option<Row>, nat> {
    match item
    case Ok(row) => Ok(Some(row))
    case Err(e) => Err(e)
  }

  class PhysicalNestedLoopJoin {
    const join: Join
    const leftInput: RowSource
    const rightInput: RowSource
    const parallelism: nat
    const batchSize: nat
    var left: Option<Row>
    var rightFinished: bool
    var exhausted: bool
    var currentLeftMatched: bool
    var rightOrdinal: nat
    var matchedRight: set<nat>
    var emittingUnmatchedRight: bool
    var pending: seq<Item>

    ghost predicate Valid()
      reads this`left, this`rightFinished, this`exhausted, this`currentLeftMatched, this`rightOrdinal,
            this`emittingUnmatchedRight, leftInput, rightInput
    {
      && leftInput != rightInput
      && batchSize >= 1
      && leftInput.cursor <= |leftInput.items| && rightInput.cursor <= |rightInput.items|
      && (!exhausted ==>
            && (emittingUnmatchedRight ==> left.None? && !rightFinished && rightOrdinal == rightInput.cursor)
            && (left.None? && !emittingUnmatchedRight ==>
                  rightInput.cursor == 0 && rightOrdinal == 0 && !rightFinished && !currentLeftMatched)
            && (left.Some? && !rightFinished ==> rightOrdinal == rightInput.cursor))
    }

    /** All items that future calls of `Next` will hand out. */
    ghost function Remaining(): seq<Item>
      reads this, leftInput, rightInput
      requires Valid()
    {
      pending + Future()
    }

    ghost function Future(): (f: seq<Item>)
      reads this`left, this`rightFinished, this`exhausted, this`currentLeftMatched, this`rightOrdinal,
            this`matchedRight, this`emittingUnmatchedRight, leftInput, rightInput
      requires Valid()
      ensures exhausted ==> f == []
    {
      var lefts, rights := leftInput.items[leftInput.cursor..], rightInput.items;
      var todo := rights[rightInput.cursor..];
      if exhausted then []
      else if emittingUnmatchedRight then UnmatchedRight(join, todo, rightOrdinal, matchedRight)
      else if left.None? then LeftPhase(join, lefts, rights, matchedRight)
      else if rightFinished then
        Extended(join, left.value, currentLeftMatched) + LeftPhase(join, lefts, rights, matchedRight)
      else RowPhase(join, left.value, todo, rightOrdinal, currentLeftMatched, lefts, rights, matchedRight)
    }

    /** `workers` above one reads the right input in batches of `BATCH_SIZE`, else row by row. */
    constructor (join: Join, leftInput: RowSource, rightInput: RowSource, workers: nat)
      requires leftInput != rightInput && leftInput.cursor == 0 && rightInput.cursor == 0
      ensures this.join == join && this.leftInput == leftInput && this.rightInput == rightInput
      ensures Valid() && Remaining() == LeftPhase(join, leftInput.items, rightInput.items, {})
    {
      this.join, this.leftInput, this.rightInput := join, leftInput, rightInput;
      parallelism := if workers < 1 then 1 else if workers > 64 then 64 else workers;
      batchSize := if workers > 1 then BATCH_SIZE else 1;
      left, rightFinished, exhausted, currentLeftMatched := None, false, false, false;
      rightOrdinal, matchedRight, emittingUnmatchedRight, pending := 0, {}, false, [];
      new;
      assert leftInput.items[0..] == leftInput.items;
    }

    /** Starts over, unless one of the inputs cannot. */
    method Init() returns (ok: bool)
      requires leftInput != rightInput && batchSize >= 1
      modifies this, leftInput, rightInput
      ensures ok ==> Valid() && Remaining() == LeftPhase(join, leftInput.items, rightInput.items, {})
    {
      left, rightFinished, exhausted, currentLeftMatched := None, false, false, false;
      rightOrdinal, matchedRight, emittingUnmatchedRight, pending := 0, {}, false, [];
      ok := leftInput.Init();
      if ok {
        ok := rightInput.Init();
      }
      assert leftInput.items[0..] == leftInput.items;
    }

    /** Reads up to a batch of right rows, stopping at the end of the input or at an error. */
    method ReadBatch() returns (batch: seq<Row>, failure: Option<nat>)
      requires Valid() && !exhausted && left.Some? && !rightFinished && !emittingUnmatchedRight
      modifies this`rightOrdinal, this`rightFinished, this`exhausted, rightInput
      ensures ReadFrom(old(rightInput.cursor), batch, failure)
    {
      hide Future;
      batch, failure := [], None;
      ghost var c, items := rightInput.cursor, rightInput.items;
      for i := 0 to batchSize
        invariant rightInput.cursor == c + i <= |items| && |batch| == i
        invariant AllOk(items[c..c + i]) && batch == Rows(items[c..c + i])
        invariant rightOrdinal == rightInput.cursor && !rightFinished && !exhausted
      {
        ghost var sofar := batch;
        var r := rightInput.Next();
        match r {
          case Ok(Some(row)) =>
            assert items[c..c + i + 1] == items[c..c + i] + [items[c + i]];
            batch := batch + [row];
            assert forall k | 0 <= k < i :: batch[k] == sofar[k] == Rows(items[c..c + i])[k];
            assert batch == Rows(items[c..c + i + 1]);
            rightOrdinal := rightOrdinal + 1;
          case Ok(None) =>
            rightFinished := true;
            break;
          case Err(error) =>
            exhausted := true;
            failure := Some(error);
            break;
        }
      }
    }

    /** The rows right of position `c` were read, up to a full batch, the end or a failure. */
    ghost predicate ReadFrom(c: nat, batch: seq<Row>, failure: Option<nat>)
      reads this, rightInput
    {
      var items, e := rightInput.items, c + |batch|;
      && e <= rightInput.cursor <= |items| && rightOrdinal == e
      && AllOk(items[c..e]) && batch == Rows(items[c..e])
      && exhausted == failure.Some?
      && (failure.Some? ==> e < |items| && items[e] == Err(failure.value) && !rightFinished)
      && (failure.None? && rightFinished ==> e == |items|)
      && (failure.None? && !rightFinished ==> rightInput.cursor == e && |batch| >= 1)
    }

    /** Joins the current left row with a batch and queues what comes of it; a worker that fails ends the join. */
    method JoinBatch(batch: seq<Row>, firstOrdinal: nat, ghost a: seq<Item>) returns (ok: bool)
      requires left.Some? && AllOk(a) && batch == Rows(a)
      modifies this`pending, this`currentLeftMatched, this`matchedRight, this`exhausted
      ensures exhausted == (old(exhausted) || !ok)
      ensures !ok ==> pending == old(pending) && parallelism > 1
      ensures ok ==> pending == old(pending) + ScanOut(join, left.value, a)
      ensures var m := ScanMatched(join, left.value, a, firstOrdinal);
              ok ==> matchedRight == old(matchedRight) + m && currentLeftMatched == (old(currentLeftMatched) || m != {})
    {
      hide ScanOut, ScanMatched, Combine, JoinRows, AllOk;
      var l, j := left.value, join;
      ScanNone(j, l, firstOrdinal);
      var joined := OrderedMap(batch, parallelism, right => JoinRows(j, l, right));
      if joined.Err? {
        exhausted := true;
        return false;
      }
      var rows := joined.value;
      assert a[..0] == [];
      for i := 0 to |rows|
        invariant pending == old(pending) + ScanOut(j, l, a[..i]) && exhausted == old(exhausted)
        invariant var m := ScanMatched(j, l, a[..i], firstOrdinal);
                  matchedRight == old(matchedRight) + m && currentLeftMatched == (old(currentLeftMatched) || m != {})
      {
        ScanStep(j, l, a, i, firstOrdinal);
        match rows[i] {
          case Ok(Some(tuple)) =>
            currentLeftMatched := true;
            matchedRight := matchedRight + {firstOrdinal + i};
            pending := pending + [Ok(tuple)];
          case Ok(None) =>
          case Err(error) => pending := pending + [Err(error)];
        }
      }
      assert a[..|a|] == a;
      ok := true;
    }

    /** One batch of the current left row: what was to come is still to come, some of it now queued. */
    method Advance() returns (ok: bool)
      requires Valid() && !exhausted && left.Some? && !rightFinished && !emittingUnmatchedRight && pending == []
      modifies this`rightOrdinal, this`rightFinished, this`exhausted, this`pending, this`currentLeftMatched,
               this`matchedRight, rightInput
      ensures Valid() && if ok then Remaining() == old(Remaining()) else Remaining() == [] && parallelism > 1
      ensures exhausted || rightFinished || rightInput.cursor > old(rightInput.cursor)
    {
      hide ScanOut, ScanMatched, UnmatchedRight, LeftPhase, RowPhase, Extended, AllOk;
      ghost var c, hit, matched, items := rightInput.cursor, currentLeftMatched, matchedRight, rightInput.items;
      ghost var lefts, l := leftInput.items[leftInput.cursor..], left.value;
      var firstOrdinal := rightOrdinal;
      var batch, failure := ReadBatch();
      ghost var a, b := items[c..c + |batch|], items[c + |batch|..];
      assert items[c..] == a + b;
      RowPhaseBatch(join, l, a, b, firstOrdinal, hit, lefts, items, matched);
      ok := JoinBatch(batch, firstOrdinal, a);
      if !ok {
        return;
      }
      RowPhaseEnds(join, l, b, firstOrdinal + |batch|, currentLeftMatched, lefts, items, matchedRight);
      if failure.Some? {
        pending := pending + [Err(failure.value)];
      }
    }

    /**
     The right input is used up for the current left row: it is handed over null-extended if that is due, unless
     the right input cannot start over.
     */
    method FinishLeft() returns (ok: bool)
      requires Valid() && !exhausted && left.Some? && rightFinished && !emittingUnmatchedRight && pending == []
      modifies this`left, this`rightOrdinal, this`rightFinished, this`pending, this`currentLeftMatched, rightInput
      ensures ok ==> Valid() && Remaining() == old(Remaining())
      ensures left.None? && !rightFinished
    {
      hide ScanOut, ScanMatched, UnmatchedRight, LeftPhase, RowPhase;
      var unmatchedLeft := PreservesLeft(join) && !currentLeftMatched;
      var taken := left;
      left, currentLeftMatched, rightOrdinal, rightFinished := None, false, 0, false;
      ok := rightInput.Init();
      if !ok {
        return;
      }
      if unmatchedLeft {
        pending := pending + [Ok(Combine(join, taken, None))];
      }
    }

    /**
     Fetches the next left row, or turns to the unmatched right rows, or ends; `lost` says that the right input
     could not start over.
     */
    method FetchLeft() returns (failed: Option<nat>, ghost lost: bool)
      requires Valid() && !exhausted && left.None? && !rightFinished && !emittingUnmatchedRight && pending == []
      modifies this`left, this`emittingUnmatchedRight, this`rightOrdinal, this`exhausted, leftInput, rightInput
      ensures lost ==> failed.Some?
      ensures !lost ==> Valid() && LeftFetched(failed)
      ensures !lost ==> old(Remaining()) == (if failed.Some? then [Err(failed.value)] else []) + Remaining()
      ensures leftInput.cursor > old(leftInput.cursor) || emittingUnmatchedRight || exhausted || lost
      ensures leftInput.cursor >= old(leftInput.cursor)
    {
      hide ScanOut, ScanMatched, UnmatchedRight, RowPhase, Extended;
      ghost var c, items := leftInput.cursor, leftInput.items;
      assert rightInput.items[0..] == rightInput.items;
      var r := leftInput.Next();
      if c < |items| {
        assert items[c..][0] == items[c] && items[c..][1..] == items[c + 1..];
      }
      if r.Err? {
        return Some(r.error), false;
      }
      left := r.value;
      if left.None? {
        if PreservesRight(join) {
          var ok := rightInput.Init();
          if !ok {
            return Some(HOST_FAILED), true;
          }
          emittingUnmatchedRight := true;
          rightOrdinal := 0;
        } else {
          exhausted := true;
        }
      }
      failed, lost := None, false;
    }

    /** The state after a left row was asked for. */
    ghost predicate LeftFetched(failed: Option<nat>)
      requires Valid()
      reads this, leftInput, rightInput
    {
      && (failed.Some? ==> left.None? && !exhausted && !emittingUnmatchedRight)
      && (left.None? ==> failed.Some? || emittingUnmatchedRight || exhausted)
      && (left.Some? ==> rightInput.cursor == 0 && !rightFinished && !exhausted && !emittingUnmatchedRight)
      && (exhausted ==> Remaining() == []) && (emittingUnmatchedRight ==> !exhausted)
    }

    /** One step of the last phase: the next right row, handed out null-extended if no left row matched it. */
    method EmitUnmatched() returns (out: Option<Item>)
      requires Valid() && !exhausted && emittingUnmatchedRight && pending == []
      modifies this`rightOrdinal, this`exhausted, rightInput
      ensures Valid()
      ensures old(Remaining()) == (if out.Some? then [out.value] else []) + Remaining()
      ensures exhausted ==> Remaining() == []
      ensures !exhausted ==> rightInput.cursor > old(rightInput.cursor)
    {
      hide ScanOut, ScanMatched, LeftPhase, RowPhase, Extended, Combine;
      ghost var c, items := rightInput.cursor, rightInput.items;
      var r := rightInput.Next();
      if c < |items| {
        assert items[c..][0] == items[c] && items[c..][1..] == items[c + 1..];
      }
      out := None;
      match r {
        case Ok(Some(right)) =>
          var ordinal := rightOrdinal;
          rightOrdinal := rightOrdinal + 1;
          if ordinal !in matchedRight {
            out := Some(Ok(Combine(join, None, Some(right))));
          }
        case Ok(None) => exhausted := true;
        case Err(error) =>
          exhausted := true;
          out := Some(Err(error));
      }
    }

    /**
     Hands out the next item of the join. `lost` says that the right input could not start over or a worker failed: then
     the call fails, and what later calls do is not defined.
     */
    method Next() returns (r: Result<Option<Row>, nat>, ghost lost: bool)
      requires Valid()
      modifies this, leftInput, rightInput
      ensures lost ==> r.Err?
      ensures !lost ==> Valid()
      ensures !lost && old(Remaining()) == [] ==> r == Ok(None) && Remaining() == []
      ensures !lost && old(Remaining()) != [] ==>
                r == Handed(old(Remaining())[0]) && Remaining() == old(Remaining())[1..]
    {
      hide Future;
      ghost var due := Remaining();
      while true
        invariant Valid() && Remaining() == due
        decreases !exhausted, |leftInput.items| - leftInput.cursor, !emittingUnmatchedRight,
                  if left.None? then 0 else if rightFinished then 1 else 2,
                  |rightInput.items| - rightInput.cursor
      {
        if pending != [] {
          var row := pending[0];
          assert due[1..] == pending[1..] + Future();
          pending := pending[1..];
          return (match row case Ok(t) => Ok(Some(t)) case Err(e) => Err(e)), false;
        }
        if exhausted {
          return Ok(None), false;
        }
        if emittingUnmatchedRight {
          var out := EmitUnmatched();
          if out.Some? {
            return (match out.value case Ok(t) => Ok(Some(t)) case Err(e) => Err(e)), false;
          }
          if exhausted {
            return Ok(None), false;
          }
          continue;
        }
        if rightFinished {
          var restarted := FinishLeft();
          if !restarted {
            return Err(HOST_FAILED), true;
          }
          if pending != [] {
            continue;
          }
        }
        if left.None? {
          var failed, gone := FetchLeft();
          if failed.Some? {
            return Err(failed.value), gone;
          }
          if emittingUnmatchedRight {
            continue;
          }
          if exhausted {
            return Ok(None), false;
          }
        }
        var advanced := Advance();
        if !advanced {
          return Err(HOST_FAILED), true;
        }
      }
    }
  }

  lemma ScanNone(j: Join, left: Row, first: nat)
    ensures ScanOut(j, left, []) == [] && ScanMatched(j, left, [], first) == {}
  {
  }

  lemma ScanStep(j: Join, left: Row, items: seq<Item>, i: nat, first: nat)
    requires i < |items| && AllOk(items)
    ensures items[i].Ok?
    ensures ScanOut(j, left, items[..i + 1]) == ScanOut(j, left, items[..i]) + PairOut(j, left, items[i].value)
    ensures ScanMatched(j, left, items[..i + 1], first) ==
            ScanMatched(j, left, items[..i], first) + if Matches(j, left, items[i].value) then {first + i} else {}
  {
    var last := [items[i]];
    assert items[..i + 1] == items[..i] + last;
    ScanAppend(j, left, items[..i], last, first);
    assert last[1..] == [];
  }

  // ---- what the join means --------------------------------------------------------------------

  /** What running a plan to its end gives: all rows, or the first error. */
  ghost function Collected(items: seq<Item>): Result<seq<Row>, nat> {
    if items == [] then Ok([])
    else
      match items[0]
      case Err(e) => Err(e)
      case Ok(row) =>
        match Collected(items[1..])
        case Err(e) => Err(e)
        case Ok(rows) => Ok([row] + rows)
  }

  lemma {:induction false} CollectedAppend(rows: seq<Row>, items: seq<Item>)
    ensures Collected(Okay(rows) + items) ==
            match Collected(items) case Err(e) => Err(e) case Ok(rest) => Ok(rows + rest)
  {
    if rows == [] {
      assert Okay(rows) + items == items;
      if Collected(items).Ok? {
        assert rows + Collected(items).value == Collected(items).value;
      }
    } else {
      CollectedAppend(rows[1..], items);
      assert (Okay(rows) + items)[1..] == Okay(rows[1..]) + items;
      var tail := Collected(items);
      assert (Okay(rows) + items)[0] == Ok(rows[0]);
      if tail.Ok? {
        assert [rows[0]] + (rows[1..] + tail.value) == rows + tail.value;
      }
    }
  }

  lemma CollectedHead(rows: seq<Row>, items: seq<Item>)
    ensures items == [] ==> Collected(Okay(rows) + items) == Ok(rows)
    ensures items != [] && items[0].Err? ==> Collected(Okay(rows) + items) == Err(items[0].error)
    ensures items != [] && items[0].Ok? ==> Okay(rows + [items[0].value]) + items[1..] == Okay(rows) + items
  {
    CollectedAppend(rows, items);
    assert rows + [] == rows;
  }

  lemma EmptyOkay()
    ensures forall items :: Okay([]) + items == items
  {
  }

  /** Runs the operator to its end (execution/mod.rs, `execute`); `lost` says that the host failed it on the way. */
  method Execute(plan: PhysicalNestedLoopJoin) returns (result: Result<seq<Row>, nat>, ghost lost: bool)
    requires plan.leftInput != plan.rightInput && plan.batchSize >= 1
    modifies plan, plan.leftInput, plan.rightInput
    ensures lost ==> result.Err?
    ensures !lost ==> result == Collected(LeftPhase(plan.join, plan.leftInput.items, plan.rightInput.items, {}))
  {
    hide PhysicalNestedLoopJoin.Future, PhysicalNestedLoopJoin.Valid, PhysicalNestedLoopJoin.Remaining;
    hide LeftPhase, Collected, Okay;
    var ok := plan.Init();
    if !ok {
      return Err(HOST_FAILED), true;
    }
    EmptyOkay();
    ghost var all := plan.Remaining();
    var rows: seq<Row> := [];
    while true
      invariant plan.Valid() && all == Okay(rows) + plan.Remaining()
      decreases |plan.Remaining()|
    {
      ghost var rest := plan.Remaining();
      CollectedHead(rows, rest);
      var next, gone := plan.Next();
      if next.Err? {
        return Err(next.error), gone;
      }
      if next.value.None? {
        return Ok(rows), false;
      }
      rows := rows + [next.value.value];
    }
  }

  function Okay(rows: seq<Row>): seq<Item> { seq(|rows|, i requires 0 <= i < |rows| => Ok(rows[i])) }

  /** The output of one left row against all right rows, in right order. */
  ghost function Pairs(j: Join, left: Row, rights: seq<Row>): seq<Item> {
    if rights == [] then [] else PairOut(j, left, rights[0]) + Pairs(j, left, rights[1..])
  }

  ghost predicate LeftMatched(j: Join, left: Row, rights: seq<Row>) {
    exists k :: 0 <= k < |rights| && Matches(j, left, rights[k])
  }

  ghost predicate RightMatched(j: Join, lefts: seq<Row>, right: Row) {
    exists i :: 0 <= i < |lefts| && Matches(j, lefts[i], right)
  }

  /** Each left row's matches, or the row null-extended if it is preserved and has none. */
  ghost function LeftRows(j: Join, lefts: seq<Row>, rights: seq<Row>): seq<Item> {
    if lefts == [] then []
    else
      Pairs(j, lefts[0], rights)
      + (if PreservesLeft(j) && !LeftMatched(j, lefts[0], rights) then [Ok(Combine(j, Some(lefts[0]), None))] else [])
      + LeftRows(j, lefts[1..], rights)
  }

  /** The right rows no left row matches, null-extended. */
  ghost function LonelyRights(j: Join, lefts: seq<Row>, rights: seq<Row>): seq<Item> {
    if rights == [] then []
    else
      (if RightMatched(j, lefts, rights[0]) then [] else [Ok(Combine(j, None, Some(rights[0])))])
      + LonelyRights(j, lefts, rights[1..])
  }

  /** The join of two tables, without any machinery. */
  ghost function Declared(j: Join, lefts: seq<Row>, rights: seq<Row>): seq<Item> {
    LeftRows(j, lefts, rights) + if PreservesRight(j) then LonelyRights(j, lefts, rights) else []
  }

  lemma {:induction false} ScanIsPairs(j: Join, left: Row, rights: seq<Row>, first: nat)
    ensures ScanOut(j, left, Okay(rights)) == Pairs(j, left, rights) && !Breaks(Okay(rights))
    ensures forall k :: k in ScanMatched(j, left, Okay(rights), first) <==>
                        first <= k < first + |rights| && Matches(j, left, rights[k - first])
  {
    if rights != [] {
      assert Okay(rights)[1..] == Okay(rights[1..]);
      ScanIsPairs(j, left, rights[1..], first + 1);
    }
  }

  lemma {:induction false} UnmatchedIsLonely(j: Join, lefts: seq<Row>, rights: seq<Row>, first: nat, matched: set<nat>)
    requires forall k :: 0 <= k < |rights| ==> (first + k in matched <==> RightMatched(j, lefts, rights[k]))
    ensures UnmatchedRight(j, Okay(rights), first, matched) == LonelyRights(j, lefts, rights)
  {
    if rights != [] {
      assert Okay(rights)[1..] == Okay(rights[1..]);
      assert first + 0 in matched <==> RightMatched(j, lefts, rights[0]);
      forall k | 0 <= k < |rights[1..]|
        ensures first + 1 + k in matched <==> RightMatched(j, lefts, rights[1..][k])
      {
        assert first + (k + 1) in matched <==> RightMatched(j, lefts, rights[k + 1]);
      }
      UnmatchedIsLonely(j, lefts, rights[1..], first + 1, matched);
    }
  }

  /** With the left rows `done` already joined, the rest of the run is the rest of the declared join. */
  lemma {:induction false} LeftPhaseIsDeclared(j: Join, done: seq<Row>, lefts: seq<Row>, rights: seq<Row>,
      matched: set<nat>)
    requires forall k :: 0 <= k < |rights| ==> (k in matched <==> RightMatched(j, done, rights[k]))
    ensures LeftPhase(j, Okay(lefts), Okay(rights), matched) ==
            LeftRows(j, lefts, rights) + if PreservesRight(j) then LonelyRights(j, done + lefts, rights) else []
    decreases |lefts|
  {
    hide RightMatched, ScanMatched, Matches, Combine, LonelyRights, UnmatchedRight, RowPhase, LeftMatched, Pairs;
    if lefts == [] {
      assert done + lefts == done;
      forall k | 0 <= k < |rights| ensures 0 + k in matched <==> RightMatched(j, done, rights[k]) {}
      UnmatchedIsLonely(j, done, rights, 0, matched);
    } else {
      var left, m := lefts[0], ScanMatched(j, lefts[0], Okay(rights), 0);
      MatchedGrows(j, done, left, rights, matched);
      LeftPhaseIsDeclared(j, done + [left], lefts[1..], rights, matched + m);
      LeftPhaseHead(j, lefts, rights, matched);
      assert done + [left] + lefts[1..] == done + lefts;
    }
  }

  /** The set of matched ordinals stays the set of right rows matched by some finished left row. */
  lemma MatchedGrows(j: Join, done: seq<Row>, left: Row, rights: seq<Row>, matched: set<nat>)
    requires forall k :: 0 <= k < |rights| ==> (k in matched <==> RightMatched(j, done, rights[k]))
    ensures var m := ScanMatched(j, left, Okay(rights), 0);
            forall k :: 0 <= k < |rights| ==> (k in matched + m <==> RightMatched(j, done + [left], rights[k]))
  {
    hide RightMatched, ScanMatched, Okay, JoinRows, Matches;
    ScanIsPairs(j, left, rights, 0);
    forall k | 0 <= k < |rights|
      ensures k in matched + ScanMatched(j, left, Okay(rights), 0) <==> RightMatched(j, done + [left], rights[k])
    {
      OneMoreLeft(j, done, left, rights[k]);
    }
  }

  lemma LeftPhaseHead(j: Join, lefts: seq<Row>, rights: seq<Row>, matched: set<nat>)
    requires lefts != []
    ensures LeftPhase(j, Okay(lefts), Okay(rights), matched) ==
            Pairs(j, lefts[0], rights)
            + (if PreservesLeft(j) && !LeftMatched(j, lefts[0], rights)
               then [Ok(Combine(j, Some(lefts[0]), None))] else [])
            + LeftPhase(j, Okay(lefts[1..]), Okay(rights), matched + ScanMatched(j, lefts[0], Okay(rights), 0))
  {
    hide ScanOut, ScanMatched, Matches, Combine;
    var left, m := lefts[0], ScanMatched(j, lefts[0], Okay(rights), 0);
    ScanIsPairs(j, left, rights, 0);
    assert m != {} <==> LeftMatched(j, left, rights) by {
      if m != {} { var k :| k in m; assert Matches(j, left, rights[k]); }
      if LeftMatched(j, left, rights) { var k :| 0 <= k < |rights| && Matches(j, left, rights[k]); assert k in m; }
    }
    assert Okay(lefts)[1..] == Okay(lefts[1..]);
  }

  lemma OneMoreLeft(j: Join, done: seq<Row>, left: Row, right: Row)
    ensures RightMatched(j, done + [left], right) <==> RightMatched(j, done, right) || Matches(j, left, right)
  {
    if RightMatched(j, done, right) {
      var i :| 0 <= i < |done| && Matches(j, done[i], right);
      assert Matches(j, (done + [left])[i], right);
    }
    assert (done + [left])[|done|] == left;
  }

  /** For inputs without errors the machine's whole output, for every join type, is the declared join. */
  lemma JoinIsDeclared(j: Join, lefts: seq<Row>, rights: seq<Row>)
    ensures LeftPhase(j, Okay(lefts), Okay(rights), {}) == Declared(j, lefts, rights)
  {
    assert [] + lefts == lefts;
    LeftPhaseIsDeclared(j, [], lefts, rights, {});
  }

  /** Whatever the condition does, a preserved row is never lost: it occurs in some output row, in its own columns. */
  lemma {:induction false} LeftRowKept(j: Join, lefts: seq<Row>, rights: seq<Row>, i: nat)
    requires i < |lefts| && PreservesLeft(j)
    ensures exists n :: 0 <= n < |LeftRows(j, lefts, rights)| &&
              var item := LeftRows(j, lefts, rights)[n];
              item.Ok? && lefts[i] <= item.value
  {
    var out := LeftRows(j, lefts, rights);
    var pairs, rest := Pairs(j, lefts[0], rights), LeftRows(j, lefts[1..], rights);
    if i > 0 {
      LeftRowKept(j, lefts[1..], rights, i - 1);
      var n :| 0 <= n < |rest| && rest[n].Ok? && lefts[i] <= rest[n].value;
      assert out[|out| - |rest| + n] == rest[n];
    } else if LeftMatched(j, lefts[0], rights) {
      var n := MatchPaired(j, lefts[0], rights);
      assert out[n] == pairs[n];
    } else {
      assert out[|pairs|] == Ok(Combine(j, Some(lefts[0]), None));
    }
  }

  lemma {:induction false} MatchPaired(j: Join, left: Row, rights: seq<Row>) returns (n: nat)
    requires LeftMatched(j, left, rights)
    ensures n < |Pairs(j, left, rights)| && Pairs(j, left, rights)[n].Ok? && left <= Pairs(j, left, rights)[n].value
  {
    if Matches(j, left, rights[0]) {
      n := 0;
    } else {
      var k :| 0 <= k < |rights| && Matches(j, left, rights[k]);
      assert rights[1..][k - 1] == rights[k];
      n := MatchPaired(j, left, rights[1..]);
      n := n + |PairOut(j, left, rights[0])|;
    }
  }
}
