/** Which rows the nested-loop join hands out, row by row, in terms of its condition alone. */
module JoinMeaning {
  import opened Prelude
  import opened NestedLoopJoin

  /** Where an item of the output stems from: two rows joined, or one left without a partner. */
  datatype Origin = OfPair(left: nat, right: nat) | OfLeft(left: nat) | OfRight(right: nat)

  /** The condition, if there is one, is true of the two rows side by side. */
  ghost predicate Satisfied(j: Join, l: Row, r: Row) { j.condition.Some? ==> j.condition.value(l + r) == True }

  ghost predicate InRange(ls: seq<Row>, rs: seq<Row>, o: Origin) {
    match o
    case OfPair(i, k) => i < |ls| && k < |rs|
    case OfLeft(i) => i < |ls|
    case OfRight(k) => k < |rs|
  }

  /**
   * What belongs in the output: every pair unless the condition is not true of it, and for the outer joins each row of
   * a preserved side that the condition is true of with no row of the other side.
   */
  ghost predicate Due(j: Join, ls: seq<Row>, rs: seq<Row>, o: Origin) {
    && InRange(ls, rs, o)
    && match o
       case OfPair(i, k) => j.condition.Some? ==> j.condition.value(ls[i] + rs[k]) != NotTrue
       case OfLeft(i) =>
         j.joinType in {LeftOuter, FullOuter} && forall k | 0 <= k < |rs| :: !Satisfied(j, ls[i], rs[k])
       case OfRight(k) =>
         j.joinType in {RightOuter, FullOuter} && forall i | 0 <= i < |ls| :: !Satisfied(j, ls[i], rs[k])
  }

  /** What it looks like there: the rows side by side, nulls in place of a missing one, or the condition's error. */
  ghost function ItemOf(j: Join, ls: seq<Row>, rs: seq<Row>, o: Origin): Item
    requires InRange(ls, rs, o)
  {
    match o
    case OfPair(i, k) =>
      if j.condition.Some? && j.condition.value(ls[i] + rs[k]).Broken? then Err(j.condition.value(ls[i] + rs[k]).error)
      else Ok(ls[i] + rs[k])
    case OfLeft(i) => Ok(ls[i] + seq(j.rightWidth, _ => Null))
    case OfRight(k) => Ok(seq(j.leftWidth, _ => Null) + rs[k])
  }

  /** Left rows in order, each with its right rows in order and then alone; lone right rows at the end. */
  ghost predicate Before(a: Origin, b: Origin) {
    match (a, b)
    case (OfPair(i, k), OfPair(i', k')) => i < i' || (i == i' && k < k')
    case (OfPair(i, _), OfLeft(i')) => i <= i'
    case (OfLeft(i), OfPair(i', _)) => i < i'
    case (OfLeft(i), OfLeft(i')) => i < i'
    case (OfRight(k), OfRight(k')) => k < k'
    case (OfRight(_), _) => false
    case (_, OfRight(_)) => true
  }

  ghost predicate InOrder(os: seq<Origin>) { forall m, n | 0 <= m < n < |os| :: Before(os[m], os[n]) }

  ghost function Items(j: Join, ls: seq<Row>, rs: seq<Row>, os: seq<Origin>): (items: seq<Item>)
    requires forall o | o in os :: InRange(ls, rs, o)
    ensures |items| == |os|
  {
    seq(|os|, n requires 0 <= n < |os| => ItemOf(j, ls, rs, os[n]))
  }

  // ---- the origins, listed ------------------------------------------------------------------------

  ghost function IfDue(j: Join, ls: seq<Row>, rs: seq<Row>, o: Origin): seq<Origin> {
    if Due(j, ls, rs, o) then [o] else []
  }

  ghost function PairsFrom(j: Join, ls: seq<Row>, rs: seq<Row>, i: nat, k: nat): seq<Origin>
    decreases |rs| - k
  {
    if k >= |rs| then [] else IfDue(j, ls, rs, OfPair(i, k)) + PairsFrom(j, ls, rs, i, k + 1)
  }

  ghost function LeftsFrom(j: Join, ls: seq<Row>, rs: seq<Row>, i: nat): seq<Origin>
    decreases |ls| - i
  {
    if i >= |ls| then []
    else PairsFrom(j, ls, rs, i, 0) + IfDue(j, ls, rs, OfLeft(i)) + LeftsFrom(j, ls, rs, i + 1)
  }

  ghost function RightsFrom(j: Join, ls: seq<Row>, rs: seq<Row>, k: nat): seq<Origin>
    decreases |rs| - k
  {
    if k >= |rs| then [] else IfDue(j, ls, rs, OfRight(k)) + RightsFrom(j, ls, rs, k + 1)
  }

  lemma ItemsAppend(j: Join, ls: seq<Row>, rs: seq<Row>, a: seq<Origin>, b: seq<Origin>)
    requires (forall o | o in a :: InRange(ls, rs, o)) && forall o | o in b :: InRange(ls, rs, o)
    ensures Items(j, ls, rs, a + b) == Items(j, ls, rs, a) + Items(j, ls, rs, b)
  {
    hide ItemOf, InRange;
  }

  lemma OrderAppend(a: seq<Origin>, b: seq<Origin>)
    requires InOrder(a) && InOrder(b) && forall x, y | x in a && y in b :: Before(x, y)
    ensures InOrder(a + b)
  {
    hide Before;
  }

  // ---- what they are ------------------------------------------------------------------------------

  lemma {:induction false} PairsDue(j: Join, ls: seq<Row>, rs: seq<Row>, i: nat, k: nat, o: Origin)
    ensures o in PairsFrom(j, ls, rs, i, k) <==> Due(j, ls, rs, o) && o.OfPair? && o.left == i && k <= o.right
    decreases |rs| - k
  {
    if k < |rs| {
      PairsDue(j, ls, rs, i, k + 1, o);
    }
  }

  lemma {:induction false} LeftsDue(j: Join, ls: seq<Row>, rs: seq<Row>, i: nat, o: Origin)
    ensures o in LeftsFrom(j, ls, rs, i) <==> Due(j, ls, rs, o) && !o.OfRight? && i <= o.left
    decreases |ls| - i
  {
    if i < |ls| {
      LeftsDue(j, ls, rs, i + 1, o);
      PairsDue(j, ls, rs, i, 0, o);
    }
  }

  lemma {:induction false} RightsDue(j: Join, ls: seq<Row>, rs: seq<Row>, k: nat, o: Origin)
    ensures o in RightsFrom(j, ls, rs, k) <==> Due(j, ls, rs, o) && o.OfRight? && k <= o.right
    decreases |rs| - k
  {
    if k < |rs| {
      RightsDue(j, ls, rs, k + 1, o);
    }
  }

  lemma AllDue(j: Join, ls: seq<Row>, rs: seq<Row>)
    ensures forall i: nat, k: nat, o | o in PairsFrom(j, ls, rs, i, k) ::
              InRange(ls, rs, o) && o.OfPair? && o.left == i && k <= o.right
    ensures forall i: nat, o | o in LeftsFrom(j, ls, rs, i) :: InRange(ls, rs, o) && !o.OfRight? && i <= o.left
    ensures forall k: nat, o | o in RightsFrom(j, ls, rs, k) :: InRange(ls, rs, o) && o.OfRight? && k <= o.right
    ensures forall x, o | o in IfDue(j, ls, rs, x) :: InRange(ls, rs, o) && o == x
  {
    forall i: nat, k: nat, o | o in PairsFrom(j, ls, rs, i, k)
      ensures InRange(ls, rs, o) && o.OfPair? && o.left == i && k <= o.right { PairsDue(j, ls, rs, i, k, o); }
    forall i: nat, o | o in LeftsFrom(j, ls, rs, i) ensures InRange(ls, rs, o) && !o.OfRight? && i <= o.left {
      LeftsDue(j, ls, rs, i, o);
    }
    forall k: nat, o | o in RightsFrom(j, ls, rs, k) ensures InRange(ls, rs, o) && o.OfRight? && k <= o.right {
      RightsDue(j, ls, rs, k, o);
    }
  }

  // ---- in which order -----------------------------------------------------------------------------

  lemma {:induction false} PairsOrder(j: Join, ls: seq<Row>, rs: seq<Row>, i: nat, k: nat)
    ensures InOrder(PairsFrom(j, ls, rs, i, k))
    decreases |rs| - k
  {
    if k < |rs| {
      PairsOrder(j, ls, rs, i, k + 1);
      AllDue(j, ls, rs);
      hide Due, InRange;
      OrderAppend(IfDue(j, ls, rs, OfPair(i, k)), PairsFrom(j, ls, rs, i, k + 1));
    }
  }

  /** A row's pairs go before the row alone, and both before later rows. */
  lemma Sides(a: seq<Origin>, o: seq<Origin>, more: seq<Origin>, i: nat)
    requires forall x | x in a :: x.OfPair? && x.left == i
    requires o == [] || o == [OfLeft(i)]
    requires forall x | x in more :: !x.OfRight? && i < x.left
    ensures forall x, y | x in a && y in o :: Before(x, y)
    ensures forall x, y | x in a + o && y in more :: Before(x, y)
    ensures InOrder(o)
  {
  }

  lemma {:induction false} LeftsOrder(j: Join, ls: seq<Row>, rs: seq<Row>, i: nat)
    ensures InOrder(LeftsFrom(j, ls, rs, i))
    decreases |ls| - i
  {
    if i < |ls| {
      LeftsOrder(j, ls, rs, i + 1);
      PairsOrder(j, ls, rs, i, 0);
      AllDue(j, ls, rs);
      var a, o, more := PairsFrom(j, ls, rs, i, 0), IfDue(j, ls, rs, OfLeft(i)), LeftsFrom(j, ls, rs, i + 1);
      assert o == [] || o == [OfLeft(i)];
      hide Due, InRange, PairsFrom, IfDue, LeftsFrom;
      Sides(a, o, more, i);
      hide Before, InOrder;
      OrderAppend(a, o);
      OrderAppend(a + o, more);
    }
  }

  lemma {:induction false} RightsOrder(j: Join, ls: seq<Row>, rs: seq<Row>, k: nat)
    ensures InOrder(RightsFrom(j, ls, rs, k))
    decreases |rs| - k
  {
    if k < |rs| {
      RightsOrder(j, ls, rs, k + 1);
      AllDue(j, ls, rs);
      hide Due, InRange;
      OrderAppend(IfDue(j, ls, rs, OfRight(k)), RightsFrom(j, ls, rs, k + 1));
    }
  }

  // ---- what they look like ------------------------------------------------------------------------

  lemma MatchesSatisfied(j: Join, l: Row, r: Row)
    ensures Matches(j, l, r) <==> Satisfied(j, l, r)
  {
  }

  lemma OnePair(j: Join, ls: seq<Row>, rs: seq<Row>, i: nat, k: nat)
    requires i < |ls| && k < |rs|
    ensures (forall o | o in IfDue(j, ls, rs, OfPair(i, k)) :: InRange(ls, rs, o))
    ensures Items(j, ls, rs, IfDue(j, ls, rs, OfPair(i, k))) == PairOut(j, ls[i], rs[k])
  {
  }

  lemma OneLeft(j: Join, ls: seq<Row>, rs: seq<Row>, i: nat)
    requires i < |ls|
    ensures (forall o | o in IfDue(j, ls, rs, OfLeft(i)) :: InRange(ls, rs, o))
    ensures Items(j, ls, rs, IfDue(j, ls, rs, OfLeft(i))) ==
            if PreservesLeft(j) && !LeftMatched(j, ls[i], rs) then [Ok(Combine(j, Some(ls[i]), None))] else []
  {
    forall k | 0 <= k < |rs| ensures Matches(j, ls[i], rs[k]) <==> Satisfied(j, ls[i], rs[k]) {
      MatchesSatisfied(j, ls[i], rs[k]);
    }
    hide Matches, Satisfied;
    assert Nulls(j.rightWidth) == seq(j.rightWidth, _ => Null);
  }

  lemma OneRight(j: Join, ls: seq<Row>, rs: seq<Row>, k: nat)
    requires k < |rs|
    ensures (forall o | o in IfDue(j, ls, rs, OfRight(k)) :: InRange(ls, rs, o))
    ensures Items(j, ls, rs, IfDue(j, ls, rs, OfRight(k))) ==
            if PreservesRight(j) && !RightMatched(j, ls, rs[k]) then [Ok(Combine(j, None, Some(rs[k])))] else []
  {
    forall i | 0 <= i < |ls| ensures Matches(j, ls[i], rs[k]) <==> Satisfied(j, ls[i], rs[k]) {
      MatchesSatisfied(j, ls[i], rs[k]);
    }
    hide Matches, Satisfied;
    assert Nulls(j.leftWidth) == seq(j.leftWidth, _ => Null);
  }

  lemma {:induction false} PairsItems(j: Join, ls: seq<Row>, rs: seq<Row>, i: nat, k: nat)
    requires i < |ls| && k <= |rs|
    ensures forall o | o in PairsFrom(j, ls, rs, i, k) :: InRange(ls, rs, o)
    ensures Items(j, ls, rs, PairsFrom(j, ls, rs, i, k)) == Pairs(j, ls[i], rs[k..])
    decreases |rs| - k
  {
    AllDue(j, ls, rs);
    if k < |rs| {
      PairsItems(j, ls, rs, i, k + 1);
      OnePair(j, ls, rs, i, k);
      assert rs[k..][1..] == rs[k + 1..] && rs[k..][0] == rs[k];
      hide Due, ItemOf, PairOut;
      ItemsAppend(j, ls, rs, IfDue(j, ls, rs, OfPair(i, k)), PairsFrom(j, ls, rs, i, k + 1));
    }
  }

  lemma {:induction false} LeftsItems(j: Join, ls: seq<Row>, rs: seq<Row>, i: nat)
    requires i <= |ls|
    ensures forall o | o in LeftsFrom(j, ls, rs, i) :: InRange(ls, rs, o)
    ensures Items(j, ls, rs, LeftsFrom(j, ls, rs, i)) == LeftRows(j, ls[i..], rs)
    decreases |ls| - i
  {
    AllDue(j, ls, rs);
    if i < |ls| {
      LeftsItems(j, ls, rs, i + 1);
      PairsItems(j, ls, rs, i, 0);
      OneLeft(j, ls, rs, i);
      assert ls[i..][1..] == ls[i + 1..] && ls[i..][0] == ls[i] && rs[0..] == rs;
      hide Due, ItemOf, PairsFrom, Pairs, LeftMatched, Combine, InRange;
      var a, o := PairsFrom(j, ls, rs, i, 0), IfDue(j, ls, rs, OfLeft(i));
      ItemsAppend(j, ls, rs, a, o);
      ItemsAppend(j, ls, rs, a + o, LeftsFrom(j, ls, rs, i + 1));
    }
  }

  lemma {:induction false} RightsItems(j: Join, ls: seq<Row>, rs: seq<Row>, k: nat)
    requires k <= |rs|
    ensures forall o | o in RightsFrom(j, ls, rs, k) :: InRange(ls, rs, o)
    ensures Items(j, ls, rs, RightsFrom(j, ls, rs, k)) ==
            if PreservesRight(j) then LonelyRights(j, ls, rs[k..]) else []
    decreases |rs| - k
  {
    AllDue(j, ls, rs);
    if k < |rs| {
      RightsItems(j, ls, rs, k + 1);
      OneRight(j, ls, rs, k);
      assert rs[k..][1..] == rs[k + 1..] && rs[k..][0] == rs[k];
      hide Due, ItemOf, RightMatched, Combine, InRange;
      ItemsAppend(j, ls, rs, IfDue(j, ls, rs, OfRight(k)), RightsFrom(j, ls, rs, k + 1));
    }
  }

  /**
   * On inputs without errors the output is exactly what is due, each once, in order. A pair of rows stands side by side
   * if and only if there is no condition or it is true of them; a row of a preserved side stands beside nulls, as
   * many as the other side has columns, if and only if that is so with no row of the other side.
   */
  lemma RowsExact(j: Join, ls: seq<Row>, rs: seq<Row>) returns (os: seq<Origin>)
    ensures forall o :: o in os <==> Due(j, ls, rs, o)
    ensures InOrder(os)
    ensures var out := LeftPhase(j, Okay(ls), Okay(rs), {});
            |out| == |os| && forall n | 0 <= n < |os| :: InRange(ls, rs, os[n]) && out[n] == ItemOf(j, ls, rs, os[n])
  {
    var a, b := LeftsFrom(j, ls, rs, 0), RightsFrom(j, ls, rs, 0);
    os := a + b;
    AllDue(j, ls, rs);
    forall o ensures o in os <==> Due(j, ls, rs, o) {
      LeftsDue(j, ls, rs, 0, o);
      RightsDue(j, ls, rs, 0, o);
    }
    LeftsOrder(j, ls, rs, 0);
    RightsOrder(j, ls, rs, 0);
    LeftsItems(j, ls, rs, 0);
    RightsItems(j, ls, rs, 0);
    JoinIsDeclared(j, ls, rs);
    assert ls[0..] == ls && rs[0..] == rs;
    hide LeftRows, LonelyRights, LeftsFrom, RightsFrom, ItemOf, LeftPhase, Due, InRange;
    OrderAppend(a, b);
    ItemsAppend(j, ls, rs, a, b);
  }

  // ---- inputs with errors -------------------------------------------------------------------------

  lemma BreaksHead(items: seq<Item>)
    requires items != []
    ensures Breaks(items) <==> items[0].Err? || Breaks(items[1..])
  {
    if Breaks(items) && items[0].Ok? {
      var n :| 0 <= n < |items| && items[n].Err?;
      assert items[1..][n - 1].Err?;
    }
    if Breaks(items[1..]) {
      var n :| 0 <= n < |items[1..]| && items[1..][n].Err?;
      assert items[n + 1].Err?;
    }
  }

  /** A run ends well exactly when no item is an error, with the rows of all items; else with the first error. */
  lemma {:induction false} CollectedExact(items: seq<Item>)
    ensures Collected(items).Ok? <==> !Breaks(items)
    ensures Collected(items).Ok? ==> items == Okay(Collected(items).value)
    ensures Collected(items).Err? ==>
              exists n :: 0 <= n < |items| && items[n] == Err(Collected(items).error) && AllOk(items[..n])
  {
    if items != [] {
      CollectedExact(items[1..]);
      BreaksHead(items);
      assert items == [items[0]] + items[1..];
      if items[0].Err? {
        assert items[0] == Err(Collected(items).error) && AllOk(items[..0]);
      } else if Collected(items[1..]).Err? {
        var n :| 0 <= n < |items[1..]| && items[1..][n] == Err(Collected(items).error) && AllOk(items[1..][..n]);
        assert items[..n + 1] == [items[0]] + items[1..][..n];
        assert items[n + 1] == Err(Collected(items).error) && AllOk(items[..n + 1]);
      } else {
        assert Okay([items[0].value] + Collected(items[1..]).value) == [items[0]] + Okay(Collected(items[1..]).value);
      }
    }
  }

  /** A right input that fails ends the join: the first left row is joined with the rows before the error. */
  lemma RightFails(j: Join, l: Row, lefts: seq<Item>, rs: seq<Row>, rest: seq<Item>)
    requires rest != [] && rest[0].Err?
    ensures LeftPhase(j, [Ok(l)] + lefts, Okay(rs) + rest, {}) == Pairs(j, l, rs) + [rest[0]]
  {
    var all := Okay(rs) + rest;
    ScanAppend(j, l, Okay(rs), rest, 0);
    ScanIsPairs(j, l, rs, 0);
    assert rest[0].Err?;
    assert Breaks(all);
    assert ([Ok(l)] + lefts)[1..] == lefts && ([Ok(l)] + lefts)[0] == Ok(l);
    hide ScanOut, ScanMatched, Pairs;
    assert ScanOut(j, l, rest) == [rest[0]] by { ScanFails(j, l, rest); }
    RowPhaseBroken(j, l, all, lefts, {});
  }

  lemma ScanFails(j: Join, l: Row, rest: seq<Item>)
    requires rest != [] && rest[0].Err?
    ensures ScanOut(j, l, rest) == [rest[0]]
  {
  }

  lemma RowPhaseBroken(j: Join, l: Row, rights: seq<Item>, lefts: seq<Item>, matched: set<nat>)
    requires Breaks(rights)
    ensures LeftPhase(j, [Ok(l)] + lefts, rights, matched) == ScanOut(j, l, rights)
  {
    assert ([Ok(l)] + lefts)[1..] == lefts && ([Ok(l)] + lefts)[0] == Ok(l);
  }

  /** Lone right rows, where no left row came before a failing right input. */
  lemma {:induction false} LonelyFails(j: Join, items: seq<Item>, first: nat, matched: set<nat>)
    ensures Breaks(items) ==> Breaks(UnmatchedRight(j, items, first, matched))
  {
    if items != [] && items[0].Ok? && Breaks(items) {
      var n :| 0 <= n < |items| && items[n].Err?;
      assert items[1..][n - 1].Err?;
      LonelyFails(j, items[1..], first + 1, matched);
      var more := UnmatchedRight(j, items[1..], first + 1, matched);
      var m :| 0 <= m < |more| && more[m].Err?;
      var all := UnmatchedRight(j, items, first, matched);
      assert all[|all| - |more| + m] == more[m];
    } else if items != [] && items[0].Err? {
      assert UnmatchedRight(j, items, first, matched)[0].Err?;
    }
  }

  lemma BreaksWithin(before: seq<Item>, more: seq<Item>)
    requires Breaks(more)
    ensures Breaks(before + more)
  {
    var n :| 0 <= n < |more| && more[n].Err?;
    assert (before + more)[|before| + n] == more[n];
  }

  lemma RowPhaseWhole(j: Join, l: Row, rights: seq<Item>, lefts: seq<Item>, matched: set<nat>)
    requires !Breaks(rights)
    ensures var m := ScanMatched(j, l, rights, 0);
            LeftPhase(j, [Ok(l)] + lefts, rights, matched) ==
            ScanOut(j, l, rights) + (Extended(j, l, m != {}) + LeftPhase(j, lefts, rights, matched + m))
  {
    assert ([Ok(l)] + lefts)[1..] == lefts && ([Ok(l)] + lefts)[0] == Ok(l);
  }

  /** A left input that fails makes the join fail, whatever else happens. */
  lemma {:induction false} LeftFails(j: Join, lefts: seq<Item>, rights: seq<Item>, matched: set<nat>)
    requires !AllOk(lefts)
    ensures Breaks(LeftPhase(j, lefts, rights, matched))
    decreases |lefts|
  {
    assert lefts == [lefts[0]] + lefts[1..];
    if lefts[0].Err? {
      assert LeftPhase(j, lefts, rights, matched)[0].Err?;
    } else {
      hide LeftPhase, ScanOut, ScanMatched, Extended;
      var l := lefts[0].value;
      if Breaks(rights) {
        ScanBreaks(j, l, rights);
        RowPhaseBroken(j, l, rights, lefts[1..], matched);
      } else {
        var m := ScanMatched(j, l, rights, 0);
        RowPhaseWhole(j, l, rights, lefts[1..], matched);
        LeftFails(j, lefts[1..], rights, matched + m);
        var more := LeftPhase(j, lefts[1..], rights, matched + m);
        BreaksWithin(Extended(j, l, m != {}), more);
        BreaksWithin(ScanOut(j, l, rights), Extended(j, l, m != {}) + more);
      }
    }
  }

  lemma {:induction false} ScanBreaks(j: Join, left: Row, items: seq<Item>)
    requires Breaks(items)
    ensures Breaks(ScanOut(j, left, items))
  {
    if items[0].Err? {
      assert ScanOut(j, left, items)[0].Err?;
    } else {
      var n :| 0 <= n < |items| && items[n].Err?;
      assert items[1..][n - 1].Err?;
      ScanBreaks(j, left, items[1..]);
      var more, all := ScanOut(j, left, items[1..]), ScanOut(j, left, items);
      var m :| 0 <= m < |more| && more[m].Err?;
      assert all[|all| - |more| + m] == more[m];
    }
  }

  /** The condition can be evaluated on every pair of rows. */
  ghost predicate Sound(j: Join, ls: seq<Row>, rs: seq<Row>) {
    forall i, k | 0 <= i < |ls| && 0 <= k < |rs| :: j.condition.Some? ==> !j.condition.value(ls[i] + rs[k]).Broken?
  }

  /**
   * The join runs to its end without an error if and only if no left item is one, no right item is one (unless there
   * is no left row and right rows are not preserved, so that the right input is never read), and the condition can be
   * evaluated on every pair.
   */
  lemma CompletesExact(j: Join, lefts: seq<Item>, rights: seq<Item>)
    ensures Collected(LeftPhase(j, lefts, rights, {})).Ok? <==>
            && AllOk(lefts)
            && (AllOk(rights) || (lefts == [] && j.joinType !in {RightOuter, FullOuter}))
            && (AllOk(rights) ==> Sound(j, Rows(lefts), Rows(rights)))
  {
    var out := LeftPhase(j, lefts, rights, {});
    CollectedExact(out);
    if !AllOk(lefts) {
      LeftFails(j, lefts, rights, {});
    } else if !AllOk(rights) {
      assert Breaks(rights);
      if lefts == [] {
        LonelyFails(j, rights, 0, {});
      } else {
        ScanBreaks(j, lefts[0].value, rights);
        assert lefts == [Ok(lefts[0].value)] + lefts[1..];
        RowPhaseBroken(j, lefts[0].value, rights, lefts[1..], {});
      }
    } else {
      SoundExact(j, Rows(lefts), Rows(rights));
      assert Okay(Rows(lefts)) == lefts && Okay(Rows(rights)) == rights;
    }
  }

  lemma SoundExact(j: Join, ls: seq<Row>, rs: seq<Row>)
    ensures Breaks(LeftPhase(j, Okay(ls), Okay(rs), {})) <==> !Sound(j, ls, rs)
  {
    var out := LeftPhase(j, Okay(ls), Okay(rs), {});
    var os := RowsExact(j, ls, rs);
    hide LeftPhase;
    if Breaks(out) {
      var n :| 0 <= n < |out| && out[n].Err?;
      assert ItemOf(j, ls, rs, os[n]).Err?;
    }
    if !Sound(j, ls, rs) {
      var i, k :| 0 <= i < |ls| && 0 <= k < |rs| && j.condition.Some? && j.condition.value(ls[i] + rs[k]).Broken?;
      assert Due(j, ls, rs, OfPair(i, k));
      var n :| 0 <= n < |os| && os[n] == OfPair(i, k);
      assert out[n].Err?;
    }
  }
}
