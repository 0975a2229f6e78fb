/** Exactly when optimizing keeps the rows for an executor that obeys the limits the rules put into sorts. */
module LimitHonored {
  import opened Prelude
  import opened LogicalPlan
  import opened PlanEquivalence
  import opened LimitRules
  import opened LimitExact

  // ---- what passes make of a chain of limits ----------------------------------------------------

  /** A window of machine numbers. */
  predicate Fits(s: Span) { s.offset < USIZE && (s.limit.Some? ==> s.limit.value < USIZE) }

  /** The limit of a sort once the window above it has been pushed into it. */
  function Pushed(s: Span, f: Option<usize>): Option<usize>
    requires Fits(s)
  {
    match s.limit
    case None => f
    case Some(n) =>
      var sum := AddUsize(s.offset, n);
      Some(if f.Some? then Min(f.value, sum) else sum)
  }

  function WithLimit(p: Plan, s: Span): Plan
    requires Fits(s)
  {
    if p.Sort? then Sort(p.orderBy, Pushed(s, p.sortLimit), p.input) else p
  }

  predicate NoRows(p: Plan) { p.EmptyRelation? && !p.produceOneRow }

  /** Rules make no sort of another node and keep the limit of a sort that stands alone. */
  lemma WithLimitRound(rules: seq<Rule>, p: Plan, s: Span)
    requires Fits(s) && !p.Limit?
    ensures Round(rules, WithLimit(p, s)) == WithLimit(Round(rules, p), s) && !Round(rules, p).Limit?
  {
    hide Round, Pushed;
    if p.Join? {
      RoundJoin(rules, p);
    } else if Unary(p) {
      RoundUnary(rules, p);
      if p.Sort? { RoundUnary(rules, WithLimit(p, s)); }
    } else {
      RoundLeaf(rules, p);
    }
  }

  lemma WithLimitTwice(p: Plan, s: Span)
    requires Fits(s)
    ensures WithLimit(WithLimit(p, s), s) == WithLimit(p, s)
  {
  }

  /** The push-down rule over at most one limit. */
  lemma PushOne(p: Plan)
    requires p.Limit? ==> !p.input.Limit?
    ensures var q, s := App(PushDownLimit, p), MachineSpan(p);
            ExactSpan(q) == MachineSpan(q) == s && Base(q) == WithLimit(App(PushDownLimit, Base(p)), s)
  {
    hide App, Exact, Machine;
    var rule := PushDownLimit;
    var q := App(rule, p);
    OneLimit(p);
    if p.Limit? {
      var p' := OrElse(TryPushDown(p), p);
      assert Try(rule, p) == TryPushDown(p);
      TopDownAtLimit(rule, p);
      assert p'.input == WithLimit(p.input, MachineSpan(p));
      BaseKept(rule, p'.input);
      BaseKept(rule, p.input);
      if p.input.Sort? {
        UnaryKept(rule, p.input);
        UnaryKept(rule, p'.input);
      } else if Unary(p.input) {
        UnaryKept(rule, p.input);
      } else if p.input.Join? {
        JoinExact(rule, p.input);
      } else {
        LeafKept(rule, p.input);
      }
    } else {
      BaseKept(rule, p);
    }
    OneLimit(q);
  }

  /** The merge rule leaves at most one limit. */
  lemma MergeOne(p: Plan)
    ensures var q := App(MergeLimit, p);
            && MachineSpan(q) == MachineSpan(p) && Base(q) == App(MergeLimit, Base(p))
            && (q.Limit? ==> !q.input.Limit?)
  {
    hide App, Machine, Exact;
    FinalMerged([MergeLimit], p);
    BaseKept(MergeLimit, Base(p));
    if p.Limit? { MergeChain(p); }
  }

  /**
   * One pass of the three rules turns a chain of limits into the merged window, pushed into the sort it is set over,
   * unless nothing shows through it.
   */
  lemma OnePass(p: Plan)
    ensures var q, s := Round(RULES, p), MachineSpan(p);
            || (ExactSpan(q) == MachineSpan(q) == s && Base(q) == WithLimit(Round(RULES, Base(p)), s))
            || (s.limit == Some(0) && NoRows(Base(q)))
  {
    hide App, Machine, Exact, Round, Pushed;
    var e := App(EliminateLimit, p);
    var m := App(MergeLimit, e);
    RoundIs(p);
    RoundIs(Base(p));
    EliminateChain(p);
    MergeOne(e);
    PushOne(m);
    if Base(e).EmptyRelation? {
      LeafKept(MergeLimit, Base(e));
      LeafKept(PushDownLimit, Base(e));
    }
  }

  /** And so do any number of passes. */
  lemma {:induction false} ChainPasses(passes: nat, p: Plan)
    requires passes > 0
    ensures var q, s := Rounds(RULES, passes, p), MachineSpan(p);
            || (ExactSpan(q) == MachineSpan(q) == s && Base(q) == WithLimit(Rounds(RULES, passes, Base(p)), s))
            || (s.limit == Some(0) && NoRows(Base(q)))
  {
    hide Machine, Exact, Round, Pushed;
    var before, s := Rounds(RULES, passes - 1, p), MachineSpan(p);
    assert Rounds(RULES, passes, p) == Round(RULES, before);
    OnePass(before);
    if passes > 1 {
      ChainPasses(passes - 1, p);
      if NoRows(Base(before)) {
        RoundLeaf(RULES, Base(before));
      }
      if Base(before) == WithLimit(Rounds(RULES, passes - 1, Base(p)), s) {
        NoLimitComes(passes - 1, Base(p));
        WithLimitRound(RULES, Rounds(RULES, passes - 1, Base(p)), s);
        WithLimitTwice(Rounds(RULES, passes, Base(p)), s);
      }
    }
  }

  lemma NoLimitComes(passes: nat, p: Plan)
    requires !p.Limit?
    ensures !Rounds(RULES, passes, p).Limit?
  {
    RoundsAre(RULES, passes, p);
    WithLimitRound(Repeat(RULES, passes), p, Span(None, 0));
  }

  lemma ChainRows(passes: nat, p: Plan)
    requires passes > 0
    ensures var s := MachineSpan(p);
            Normalize(true, Rounds(RULES, passes, p)) ==
            CutBy(s, Normalize(true, WithLimit(Rounds(RULES, passes, Base(p)), s)))
  {
    hide Machine, Exact, Rounds, Pushed;
    ChainPasses(passes, p);
    ChainNormal(true, Rounds(RULES, passes, p));
  }

  // ---- the exact condition ------------------------------------------------------------------------

  /** Limit and offset of the merged window add up to too much, so that too little is pushed into the sort. */
  predicate Overshoots(s: Span) { s.limit.Some? && s.limit.value != 0 && s.offset + s.limit.value >= USIZE }

  /** Nothing of the sort below shows through the chain of limits. */
  predicate Hidden(p: Plan)
    requires Base(p).Sort?
  {
    var f := Base(p).sortLimit;
    ExactSpan(p).limit == Some(0) || (f.Some? && f.value <= ExactSpan(p).offset)
  }

  /**
   * When the optimizer keeps the rows of a plan: chains of limits fit, one over a sort adds up to a machine number
   * unless it shows nothing anyway, and a join has no work below it or the same rows on both sides. What is
   * hidden does not matter.
   */
  predicate HonoredClean(p: Plan)
    decreases Size(p)
  {
    var b := Base(p);
    if p.Limit? && b.Sort? then
      && (if Overshoots(MachineSpan(p)) then Hidden(p) else MergeFits(true, p))
      && (Hidden(p) || HonoredClean(b.input))
    else if p.Limit? then MergeFits(true, p) && (ExactSpan(p).limit == Some(0) || HonoredClean(b))
    else if p.Sort? then p.sortLimit == Some(0) || HonoredClean(p.input)
    else if Unary(p) then HonoredClean(p.input)
    else if p.Join? then
      || (!Busy(RULES, p.left) && !Busy(RULES, p.right))
      || (HonoredClean(p.left) && Normalize(true, p.left) == Normalize(true, p.right))
    else true
  }

  /** The window the passes leave over a sort, against the one the chain cut. */
  lemma SortWindows(m: Span, e: Span, f: Option<usize>, node: Plan, x: Normal, y: Normal)
    requires Fits(m) && m.offset <= e.offset && Tighter(e.limit, m.limit) && (m.offset == e.offset ==> m == e)
    ensures CutBy(m, Cut(Pushed(m, f), 0, Operator(node, y))) == CutBy(e, Cut(f, 0, Operator(node, x))) <==>
            var hidden := e.limit == Some(0) || (f.Some? && f.value <= e.offset);
            && (if Overshoots(m) then hidden
                else m.offset == e.offset || m.limit == Some(0) || (f.Some? && f.value <= m.offset))
            && (hidden || x == y)
  {
    hide Cut, Within, Pushed;
    OneCut(m.limit, m.offset, Pushed(m, f), node, y);
    OneCut(e.limit, e.offset, f, node, x);
    CutsTell(Within(m.limit, m.offset, Pushed(m, f)), m.offset, Within(e.limit, e.offset, f), e.offset, node, x, y);
    PushedWithin(m, f);
    ZeroWithin(e.limit, e.offset, f);
    ZeroWithin(m.limit, m.offset, f);
  }

  lemma OneCut(l: Option<nat>, o: nat, f: Option<nat>, node: Plan, n: Normal)
    ensures Cut(l, o, Cut(f, 0, Operator(node, n))) == Cut(Within(l, o, f), o, Operator(node, n))
  {
  }

  lemma CutsTell(l: Option<nat>, o: nat, l': Option<nat>, o': nat, node: Plan, x: Normal, y: Normal)
    ensures Cut(l, o, Operator(node, y)) == Cut(l', o', Operator(node, x)) <==>
            (l == Some(0) && l' == Some(0)) || (l == l' && o == o' && x == y)
  {
  }

  lemma ZeroWithin(l: Option<nat>, o: nat, f: Option<nat>)
    ensures Within(l, o, f) == Some(0) <==> l == Some(0) || (f.Some? && f.value <= o)
  {
  }

  /** A pushed window changes nothing below itself, unless it adds up to too much: then nothing is left. */
  lemma PushedWithin(m: Span, f: Option<usize>)
    requires Fits(m)
    ensures Within(m.limit, m.offset, Pushed(m, f)) ==
            if Overshoots(m) then Some(0) else Within(m.limit, m.offset, f)
  {
  }

  lemma OtherWindows(m: Span, e: Span, base: Plan, y: Normal)
    requires !base.Limit? && !base.Sort?
    requires m.offset <= e.offset && Tighter(e.limit, m.limit) && (m.offset == e.offset ==> m == e)
    requires var x := Normalize(true, base); if base.EmptyRelation? then x == y else Core(x) && Core(y)
    ensures var x := Normalize(true, base);
            CutBy(m, y) == CutBy(e, x) <==>
            && (m.offset == e.offset || m.limit == Some(0) || AtMost(true, base, m.offset))
            && (e.limit == Some(0) || x == y)
  {
  }

  /** What stands below a chain stays a source, an operator or a join, or a relation of no or one row. */
  lemma HonoredShapes(passes: nat, p: Plan)
    requires !p.Limit? && !p.Sort?
    ensures var q := Rounds(RULES, passes, p);
            && !q.Sort?
            && var x, y := Normalize(true, p), Normalize(true, q);
               if p.EmptyRelation? then x == y else Core(x) && Core(y)
  {
    hide Round, Rounds;
    var rules := Repeat(RULES, passes);
    RoundsAre(RULES, passes, p);
    if Unary(p) {
      RoundUnary(rules, p);
    } else if p.Join? {
      RoundJoin(rules, p);
    } else {
      RoundLeaf(rules, p);
    }
  }

  lemma UnaryRounds(passes: nat, p: Plan)
    requires Unary(p) && !p.Limit?
    ensures Rounds(RULES, passes, p) == Onto(p, Rounds(RULES, passes, p.input))
  {
    RoundsAre(RULES, passes, p);
    RoundsAre(RULES, passes, p.input);
    RoundUnary(Repeat(RULES, passes), p);
  }

  lemma SortNormal(p: Plan)
    requires p.Sort?
    ensures Normalize(true, p) == Cut(p.sortLimit, 0, Operator(Bare(p), Normalize(true, p.input)))
  {
  }

  lemma SortRounds(passes: nat, p: Plan, s: Span)
    requires p.Sort? && Fits(s)
    ensures Normalize(true, WithLimit(Rounds(RULES, passes, p), s)) ==
            Cut(Pushed(s, p.sortLimit), 0, Operator(Bare(p), Normalize(true, Rounds(RULES, passes, p.input))))
    ensures Normalize(true, Rounds(RULES, passes, p)) ==
            Cut(p.sortLimit, 0, Operator(Bare(p), Normalize(true, Rounds(RULES, passes, p.input))))
  {
    hide Rounds, Normalize, Cut, Pushed;
    UnaryRounds(passes, p);
    var q := Rounds(RULES, passes, p);
    assert q == Sort(p.orderBy, p.sortLimit, Rounds(RULES, passes, p.input));
    SortNormal(q);
    SortNormal(WithLimit(q, s));
  }

  lemma {:induction false} HonoredNormal(passes: nat, p: Plan)
    requires passes > 0
    ensures Normalize(true, Rounds(RULES, passes, p)) == Normalize(true, p) <==> HonoredClean(p)
    decreases Size(p)
  {
    hide Rounds, Round, Normalize, Cut, Busy, Exact, Machine, Pushed, AtMost;
    if p.Limit? {
      ChainKept(passes, p);
      var b := Base(p);
      HonoredNormal(passes, if b.Sort? then b.input else b);
    } else if p.Sort? {
      HonoredNormal(passes, p.input);
      SortRounds(passes, p, Span(None, 0));
      SortNormal(p);
      SortKept(p.sortLimit, Bare(p), Normalize(true, p.input), Normalize(true, Rounds(RULES, passes, p.input)));
    } else if Unary(p) {
      HonoredNormal(passes, p.input);
      UnaryRounds(passes, p);
      OperatorNormal(p, Rounds(RULES, passes, p.input));
    } else if p.Join? {
      HonoredNormal(passes, p.left);
      JoinRounds(passes, p);
    } else {
      RoundsAre(RULES, passes, p);
      RoundLeaf(Repeat(RULES, passes), p);
    }
  }

  lemma SortKept(f: Option<usize>, node: Plan, x: Normal, y: Normal)
    ensures Cut(f, 0, Operator(node, y)) == Cut(f, 0, Operator(node, x)) <==> f == Some(0) || x == y
  {
  }

  lemma OperatorNormal(p: Plan, q: Plan)
    requires Unary(p) && !p.Limit? && !p.Sort?
    ensures Normalize(true, p) == Operator(Bare(p), Normalize(true, p.input))
    ensures Normalize(true, Onto(p, q)) == Operator(Bare(p), Normalize(true, q))
  {
    assert Bare(Onto(p, q)) == Bare(p);
  }

  lemma JoinRounds(passes: nat, p: Plan)
    requires p.Join? && passes > 0
    ensures var q := Rounds(RULES, passes, p);
            && (!Busy(RULES, p.left) && !Busy(RULES, p.right) ==> q == p)
            && (Busy(RULES, p.left) || Busy(RULES, p.right) ==>
                  var left := Normalize(true, Rounds(RULES, passes, p.left));
                  (Normalize(true, q) == Normalize(true, p) <==>
                   left == Normalize(true, p.left) && left == Normalize(true, p.right)))
  {
    hide Rounds, Round, HasRedex;
    var rules := Repeat(RULES, passes);
    RoundsAre(RULES, passes, p);
    RoundsAre(RULES, passes, p.left);
    RoundJoin(rules, p);
    assert Busy(rules, p.left) <==> Busy(RULES, p.left);
    assert Busy(rules, p.right) <==> Busy(RULES, p.right);
  }

  /** A chain of limits keeps its rows exactly when its windows fit and what shows of its base keeps its own. */
  lemma ChainKept(passes: nat, p: Plan)
    requires p.Limit? && passes > 0
    ensures var b := Base(p);
            Normalize(true, Rounds(RULES, passes, p)) == Normalize(true, p) <==>
            if b.Sort? then
              && (if Overshoots(MachineSpan(p)) then Hidden(p) else MergeFits(true, p))
              && (Hidden(p) || Normalize(true, Rounds(RULES, passes, b.input)) == Normalize(true, b.input))
            else
              && MergeFits(true, p)
              && (ExactSpan(p).limit == Some(0) || Normalize(true, Rounds(RULES, passes, b)) == Normalize(true, b))
  {
    hide Rounds, Normalize, Cut, Exact, Machine, Pushed;
    var b, m, e := Base(p), MachineSpan(p), ExactSpan(p);
    ChainRows(passes, p);
    ChainNormal(true, p);
    Wrapped(None, 0, None, 0, p);
    assert e.offset == Offsets(p);
    if b.Sort? {
      SortRounds(passes, b, m);
      SortNormal(b);
      var x, y := Normalize(true, b.input), Normalize(true, Rounds(RULES, passes, b.input));
      SortWindows(m, e, b.sortLimit, Bare(b), x, y);
    } else {
      HonoredShapes(passes, b);
      OtherWindows(m, e, b, Normalize(true, Rounds(RULES, passes, b)));
    }
  }

  /**
   * The optimizer keeps the rows an executor that obeys sort limits hands out, whatever operators compute, if and only
   * if that condition holds.
   */
  lemma HonoredExact(passes: nat, p: Plan)
    requires passes > 0
    ensures (forall sem :: Denote(sem, true, Rounds(RULES, passes, p)) == Denote(sem, true, p)) <==> HonoredClean(p)
  {
    Equivalent(true, Rounds(RULES, passes, p), true, p);
    HonoredNormal(passes, p);
  }

  // ---- where it holds -----------------------------------------------------------------------------

  lemma {:induction false} SpanSum(l: Option<nat>, o: nat, p: Plan)
    requires Base(p).Sort?
    ensures var s := Exact(l, o, p);
            s.limit.Some? ==> s.offset + s.limit.value <= o + (if l.Some? then l.value else 0) + ChainSum(true, p)
    decreases p
  {
    if p.Limit? {
      SpanSum(Within(l, o, p.limit), p.offset + o, p.input);
    }
  }

  lemma {:induction false} BaseSums(p: Plan)
    requires JoinSafe(p) && Sums(true, p)
    ensures JoinSafe(Base(p)) && Sums(true, Base(p)) && Offsets(p) <= ChainSum(true, p)
    ensures p.Limit? ==> ChainSum(true, p) < USIZE
  {
    if p.Limit? {
      BaseSums(p.input);
      assert Base(p) == Base(p.input);
    }
  }

  /** With nothing to rewrite below joins and sums that fit, the condition holds. */
  lemma {:induction false} SafeHonored(p: Plan)
    requires JoinSafe(p) && Sums(true, p)
    ensures HonoredClean(p)
    decreases Size(p)
  {
    hide Exact, Machine, HasRedex;
    if p.Limit? {
      BaseSums(p);
      var b := Base(p);
      if b.Sort? {
        SpanSum(None, 0, p);
        Wrapped(None, 0, None, 0, p);
        SafeHonored(b.input);
      } else {
        SafeHonored(b);
      }
    } else if Unary(p) {
      SafeHonored(p.input);
    } else if p.Join? {
      forall rule ensures !HasRedex(rule, p.left) && !HasRedex(rule, p.right) {
        match rule
        case EliminateLimit =>
        case MergeLimit =>
        case PushDownLimit =>
      }
    }
  }

  /** The one row behind all that can be skipped: lost only to an executor that obeys sort limits. */
  lemma LastRowLost(orderBy: nat, a: Plan)
    requires a.TableScan?
    ensures var p := Limit(Some(1), USIZE - 1, Sort(orderBy, None, a));
            Clean(RULES, p) && !HonoredClean(p)
  {
    var sort := Sort(orderBy, None, a);
    var p := Limit(Some(1), USIZE - 1, sort);
    OneLimit(p);
    assert Offsets(sort) == 0 && Offsets(p) == USIZE - 1 && Base(p) == sort && Base(sort) == sort;
    assert Clean(RULES, a) && Clean(RULES, sort);
  }
}
