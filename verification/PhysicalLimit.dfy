/** The executor of LIMIT and OFFSET (execution/physical_plan/limit.rs). */
module PhysicalLimit {
  import opened Prelude
  import opened LogicalPlan
  import opened NLJ = NestedLoopJoin

  /** What the operator hands out of the input still ahead of it. */
  ghost function LimitOut(items: seq<Item>, toSkip: nat, remaining: Option<nat>): seq<Item>
    decreases |items|
  {
    if remaining == Some(0) || items == [] then []
    else if items[0].Err? then [items[0]] + LimitOut(items[1..], toSkip, remaining)
    else if toSkip > 0 then LimitOut(items[1..], toSkip - 1, remaining)
    else [items[0]] + LimitOut(items[1..], 0, if remaining.Some? then Some(remaining.value - 1) else None)
  }

  lemma OkayFirst(rows: seq<NLJ.Row>)
    requires rows != []
    ensures Okay(rows) == [Ok(rows[0])] + Okay(rows[1..])
  {
  }

  /** The first row is skipped or handed out. */
  lemma FirstRow(rows: seq<NLJ.Row>, behind: seq<Item>, offset: nat, limit: Option<nat>)
    requires rows != [] && limit != Some(0)
    ensures LimitOut(Okay(rows) + behind, offset, limit) ==
            if offset > 0 then LimitOut(Okay(rows[1..]) + behind, offset - 1, limit)
            else [Ok(rows[0])] +
                 LimitOut(Okay(rows[1..]) + behind, 0, if limit.Some? then Some(limit.value - 1) else None)
  {
    var items := Okay(rows) + behind;
    assert items[0] == Ok(rows[0]) && items[1..] == Okay(rows[1..]) + behind;
  }

  /** Whatever comes behind some rows: of those the window is handed out, and what is left of both bounds goes on. */
  lemma {:induction false} LimitSplits(rows: seq<NLJ.Row>, behind: seq<Item>, offset: nat, limit: Option<nat>)
    ensures var taken := Take(limit, Drop(offset, rows));
            LimitOut(Okay(rows) + behind, offset, limit) ==
            Okay(taken) + LimitOut(behind, if |rows| < offset then offset - |rows| else 0,
                                   if limit.Some? then Some(limit.value - |taken|) else None)
    decreases |rows|
  {
    if limit == Some(0) {
    } else if rows == [] {
      assert Okay(rows) + behind == behind;
      assert Drop(offset, rows) == [] && Take(limit, Drop(offset, rows)) == [];
      assert Okay([]) + LimitOut(behind, offset, limit) == LimitOut(behind, offset, limit);
    } else {
      hide LimitOut, Okay;
      FirstRow(rows, behind, offset, limit);
      if offset > 0 {
        LimitSplits(rows[1..], behind, offset - 1, limit);
        assert Drop(offset, rows) == Drop(offset - 1, rows[1..]);
      } else {
        var fewer := if limit.Some? then Some(limit.value - 1) else None;
        LimitSplits(rows[1..], behind, 0, fewer);
        assert Drop(0, rows) == rows && Drop(0, rows[1..]) == rows[1..];
        var taken := Take(limit, rows);
        hide Drop;
        assert taken[0] == rows[0] && taken[1..] == Take(fewer, rows[1..]);
        hide Take;
        OkayFirst(taken);
      }
    }
  }

  /** On an input without errors that is the window LIMIT and OFFSET denote. */
  lemma LimitIsWindow(rows: seq<NLJ.Row>, offset: nat, limit: Option<nat>)
    ensures LimitOut(Okay(rows), offset, limit) == Okay(Take(limit, Drop(offset, rows)))
  {
    LimitSplits(rows, [], offset, limit);
    assert Okay(rows) + [] == Okay(rows);
  }

  /** An error of the input is handed out in its place, unless as many rows as may be have been handed out before it. */
  lemma LimitFails(rows: seq<NLJ.Row>, e: nat, rest: seq<Item>, offset: nat, limit: Option<nat>)
    ensures var seen := Drop(offset, rows);
            LimitOut(Okay(rows) + ([Err(e)] + rest), offset, limit) ==
            if limit.Some? && limit.value <= |seen| then Okay(Take(limit, seen))
            else
              Okay(seen) + ([Err(e)] + LimitOut(rest, if |rows| < offset then offset - |rows| else 0,
                                                if limit.Some? then Some(limit.value - |seen|) else None))
  {
    var behind := [Err(e)] + rest;
    LimitSplits(rows, behind, offset, limit);
    assert behind[0] == Err(e) && behind[1..] == rest;
  }

  class PhysicalLimit {
    const limit: Option<nat>
    const offset: nat
    const input: RowSource
    var toSkip: nat
    var remaining: Option<nat>
    var exhausted: bool

    /** On a clean input every row read was skipped or handed out: nothing beyond the quota is requested. */
    ghost predicate Valid()
      reads this, input
    {
      && input.cursor <= |input.items| && toSkip <= offset
      && (limit.Some? <==> remaining.Some?) && (limit.Some? ==> remaining.value <= limit.value)
      && (exhausted ==> input.cursor == |input.items|)
      && (limit.Some? && AllOk(input.items) ==>
            input.cursor == (offset - toSkip) + (limit.value - remaining.value))
    }

    ghost function Remaining(): seq<Item>
      reads this, input
      requires Valid()
    {
      LimitOut(input.items[input.cursor..], toSkip, remaining)
    }

    constructor (limit: Option<nat>, offset: nat, input: RowSource)
      requires input.cursor == 0
      ensures Valid() && this.input == input && Remaining() == LimitOut(input.items, offset, limit)
    {
      this.limit, this.offset, this.input := limit, offset, input;
      toSkip, remaining, exhausted := offset, limit, false;
      new;
      assert input.items[0..] == input.items;
    }

    method Init() returns (ok: bool)
      modifies this, input
      ensures ok ==> Valid() && Remaining() == LimitOut(input.items, offset, limit)
    {
      toSkip, remaining, exhausted := offset, limit, false;
      ok := input.Init();
      assert input.items[0..] == input.items;
    }

    method Next() returns (r: Result<Option<NLJ.Row>, nat>)
      requires Valid()
      modifies this, input
      ensures Valid()
      ensures old(Remaining()) == [] ==> r == Ok(None) && Remaining() == []
      ensures old(Remaining()) != [] ==> r == Handed(old(Remaining())[0]) && Remaining() == old(Remaining())[1..]
      ensures old(remaining) == Some(0) ==> input.cursor == old(input.cursor)
    {
      if exhausted || remaining == Some(0) {
        return Ok(None);
      }
      ghost var due := Remaining();
      while true
        invariant Valid() && Remaining() == due && !exhausted && remaining == old(remaining) && remaining != Some(0)
        decreases |input.items| - input.cursor
      {
        ghost var c := input.cursor;
        var item := input.Next();
        if c < |input.items| {
          assert input.items[c..][0] == input.items[c] && input.items[c..][1..] == input.items[c + 1..];
        }
        if item.Err? {
          return Err(item.error);
        }
        if item.value.None? {
          exhausted := true;
          return Ok(None);
        }
        if toSkip > 0 {
          toSkip := toSkip - 1;
          continue;
        }
        if remaining.Some? {
          remaining := Some(remaining.value - 1);
        }
        return Ok(Some(item.value.value));
      }
    }
  }
}
