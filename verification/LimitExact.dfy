/** Exactly when optimizing (optimizer/logical_optimizer.rs) keeps the rows of a plan. */
module LimitExact {
  import opened Prelude
  import opened LogicalPlan
  import opened PlanEquivalence
  import opened LogicalPlanner
  import opened LimitRules

  // ---- chains of limits -------------------------------------------------------------------------

  datatype Span = Span(limit: Option<nat>, offset: nat)

  /** The window a chain of limits below (l, o) really cuts. */
  function Exact(l: Option<nat>, o: nat, p: Plan): Span
    decreases p
  {
    if p.Limit? then Exact(Within(l, o, p.limit), p.offset + o, p.input) else Span(l, o)
  }

  /** The window the merge rule makes of it, adding offsets as the machine does. */
  function Machine(l: Option<usize>, o: usize, p: Plan): (s: Span)
    ensures s.offset < USIZE && (s.limit.Some? ==> s.limit.value < USIZE)
    decreases p
  {
    if p.Limit? then Machine(Narrowed(l, o, p.limit), AddUsize(p.offset, o), p.input) else Span(l, o)
  }

  function ExactSpan(p: Plan): Span { Exact(None, 0, p) }

  function MachineSpan(p: Plan): (s: Span)
    ensures s.offset < USIZE && (s.limit.Some? ==> s.limit.value < USIZE)
  {
    Machine(None, 0, p)
  }

  /** All offsets of a chain. */
  function Offsets(p: Plan): nat { if p.Limit? then p.offset + Offsets(p.input) else 0 }

  /** `a` lets no row through that `b` holds back. */
  predicate Tighter(a: Option<nat>, b: Option<nat>) {
    b.Some? ==> a.Some? && a.value <= b.value
  }

  /** The machine's window starts too early, and may be too long, exactly when the offsets add up to too much. */
  lemma {:induction false} Wrapped(l: Option<nat>, o: nat, l': Option<usize>, o': usize, p: Plan)
    requires o' <= o && Tighter(l, l') && (o' == o ==> l' == l)
    ensures var exact, machine := Exact(l, o, p), Machine(l', o', p);
            && exact.offset == o + Offsets(p)
            && machine.offset <= exact.offset && Tighter(exact.limit, machine.limit)
            && (machine.offset == exact.offset ==> machine == exact)
            && (machine.offset == exact.offset <==> o' == o && o + Offsets(p) < USIZE)
    decreases p
  {
    if p.Limit? {
      Wrapped(Within(l, o, p.limit), p.offset + o, Narrowed(l', o', p.limit), AddUsize(p.offset, o'), p.input);
    }
  }

  /** Merging a chain computes that window over what the chain is set over. */
  lemma {:induction false} MergedIs(p: Plan)
    requires p.Limit?
    ensures var s, q := Machine(p.limit, p.offset, p.input), OrElse(TryMerge(p), p);
            q.Limit? && q.limit == s.limit && q.offset == s.offset && q.input == Base(p)
    decreases Size(p)
  {
    if p.input.Limit? {
      MergeStep(p);
      assert Size(MergedOnce(p)) < Size(p);
      MergedIs(MergedOnce(p));
    }
  }

  lemma SpanStart(p: Plan)
    requires p.Limit?
    ensures ExactSpan(p) == Exact(p.limit, p.offset, p.input)
    ensures MachineSpan(p) == Machine(p.limit, p.offset, p.input)
  {
  }

  function CutBy(s: Span, n: Normal): Normal { Cut(s.limit, s.offset, n) }

  lemma {:induction false} ChainBelow(honored: bool, l: Option<nat>, o: nat, p: Plan)
    ensures Cut(l, o, Normalize(honored, p)) == CutBy(Exact(l, o, p), Normalize(honored, Base(p)))
    decreases p
  {
    if p.Limit? {
      NormalProper(honored, p.input);
      CutCut(l, o, p.limit, p.offset, Normalize(honored, p.input));
      ChainBelow(honored, Within(l, o, p.limit), p.offset + o, p.input);
    }
  }

  /** A chain of limits is one window. */
  lemma ChainNormal(honored: bool, p: Plan)
    ensures Normalize(honored, p) == CutBy(ExactSpan(p), Normalize(honored, Base(p)))
  {
    ChainBelow(honored, None, 0, p);
  }

  // ---- merging, exactly -------------------------------------------------------------------------

  /** Whatever it is computed from, the plan yields at most `n` rows. */
  predicate AtMost(honored: bool, p: Plan, n: nat) {
    || (p.EmptyRelation? && (p.produceOneRow ==> n >= 1))
    || (honored && p.Sort? && p.sortLimit.Some? && p.sortLimit.value <= n)
  }

  /**
   * Merging a chain does no harm: its offsets add up without wrapping around, or the merged limit is zero, or there are
   * no rows behind the merged offset anyway.
   */
  predicate MergeFits(honored: bool, p: Plan) {
    Offsets(p) < USIZE || MachineSpan(p).limit == Some(0) || AtMost(honored, Base(p), MachineSpan(p).offset)
  }

  /** The one window (a shorter offset) against the other. */
  lemma WindowsDiffer(m: Span, e: Span, honored: bool, base: Plan)
    requires !base.Limit? && m.offset <= e.offset && Tighter(e.limit, m.limit) && (m.offset == e.offset ==> m == e)
    ensures var n := Normalize(honored, base);
            CutBy(m, n) == CutBy(e, n) <==>
            m.offset == e.offset || m.limit == Some(0) || AtMost(honored, base, m.offset)
  {
    NormalProper(honored, base);
  }

  /** Merging a limit over a limit keeps the rows if and only if the chain fits. */
  lemma MergeExact(honored: bool, p: Plan)
    requires TryMerge(p).Some?
    ensures (forall sem :: Denote(sem, honored, TryMerge(p).value) == Denote(sem, honored, p)) <==>
            MergeFits(honored, p)
  {
    hide Denote, Normalize, Machine, Exact;
    var q := TryMerge(p).value;
    Equivalent(honored, q, honored, p);
    MergedIs(p);
    SpanStart(p);
    Wrapped(None, 0, None, 0, p);
    ChainNormal(honored, p);
    WindowsDiffer(MachineSpan(p), ExactSpan(p), honored, Base(p));
    assert Normalize(honored, q) == CutBy(MachineSpan(p), Normalize(honored, Base(p))) by {
      LimitNormal(honored, q);
    }
  }

  lemma LimitNormal(honored: bool, p: Plan)
    requires p.Limit?
    ensures Normalize(honored, p) == Cut(p.limit, p.offset, Normalize(honored, p.input))
  {
  }

  /**
   * Where an executor obeys a sort's limit, pushing a limit into a sort keeps the rows if and only if limit and offset
   * add up without wrapping around, or there is nothing to see behind the offset anyway. Where it does not, always.
   */
  lemma PushDownExact(honored: bool, p: Plan)
    requires TryPushDown(p).Some?
    ensures (forall sem :: Denote(sem, honored, TryPushDown(p).value) == Denote(sem, honored, p)) <==>
            !honored || p.offset + p.limit.value < USIZE || p.limit == Some(0)
            || (p.input.sortLimit.Some? && p.input.sortLimit.value <= p.offset)
  {
    hide Denote, Cut;
    var q, sort := TryPushDown(p).value, p.input;
    Equivalent(honored, q, honored, p);
    assert Bare(q.input) == Bare(sort);
    var sorted := Operator(Bare(sort), Normalize(honored, sort.input));
    if honored {
      SortCut(p.limit.value, p.offset, sort.sortLimit, sorted);
      assert Normalize(honored, p) == Cut(p.limit, p.offset, Cut(sort.sortLimit, 0, sorted));
      assert Normalize(honored, q) == Cut(p.limit, p.offset, Cut(q.input.sortLimit, 0, sorted));
    } else {
      assert Normalize(honored, p) == Cut(p.limit, p.offset, Cut(None, 0, sorted)) == Normalize(honored, q);
    }
  }

  /** A window (n, o) over sorted rows cut at the sum of n and o, or else at the sort's own limit. */
  lemma SortCut(n: usize, o: usize, l: Option<usize>, sorted: Normal)
    requires sorted.Operator? && (l.Some? ==> AddUsize(o, n) < l.value)
    ensures Cut(Some(n), o, Cut(Some(AddUsize(o, n)), 0, sorted)) == Cut(Some(n), o, Cut(l, 0, sorted)) <==>
            o + n < USIZE || n == 0 || (l.Some? && l.value <= o)
  {
  }

  /** Eliminating limits always keeps the rows. */
  lemma EliminateExact(honored: bool, p: Plan)
    requires TryEliminate(p).Some?
    ensures forall sem :: Denote(sem, honored, TryEliminate(p).value) == Denote(sem, honored, p)
  {
    hide Denote;
    EliminateNormal(honored, p);
    Equivalent(honored, TryEliminate(p).value, honored, p);
  }

  lemma {:induction false} EliminateNormal(honored: bool, p: Plan)
    requires TryEliminate(p).Some?
    ensures Normalize(honored, TryEliminate(p).value) == Normalize(honored, p)
  {
    if p.limit == None {
      assert Normalize(honored, p) == Normalize(honored, p.input);
      if TryEliminate(p.input).Some? {
        EliminateNormal(honored, p.input);
      }
    }
  }

  // ---- a sequence of rules over the nodes of a plan -----------------------------------------------

  lemma {:induction false} RoundUnary(rules: seq<Rule>, p: Plan)
    requires Unary(p) && !p.Limit?
    ensures Round(rules, p) == Onto(p, Round(rules, p.input))
    decreases |rules|
  {
    hide App;
    if rules != [] {
      UnaryKept(rules[0], p);
      var q := App(rules[0], p);
      RoundUnary(rules[1..], q);
      assert Onto(q, Round(rules[1..], q.input)) == Onto(p, Round(rules[1..], q.input));
    }
  }

  lemma {:induction false} RoundLeaf(rules: seq<Rule>, p: Plan)
    requires !Unary(p) && !p.Join?
    ensures Round(rules, p) == p
    decreases |rules|
  {
    hide App;
    if rules != [] {
      LeafKept(rules[0], p);
      RoundLeaf(rules[1..], p);
    }
  }

  /** Some rule has work to do in the plan. */
  predicate Busy(rules: seq<Rule>, p: Plan) { exists rule | rule in rules :: HasRedex(rule, p) }

  lemma {:induction false} RoundIdle(rules: seq<Rule>, p: Plan)
    requires !Busy(rules, p)
    ensures Round(rules, p) == p
    decreases |rules|
  {
    hide HasRedex;
    if rules != [] {
      RewritesExact(rules[0], p);
      RoundIdle(rules[1..], p);
    }
  }

  /** A join with work below it ends up with its left input on both sides. */
  lemma {:induction false} RoundJoin(rules: seq<Rule>, p: Plan)
    requires p.Join?
    ensures Round(rules, p) ==
            if !Busy(rules, p.left) && !Busy(rules, p.right) then p
            else Join(p.joinType, p.condition, p.joinSchema, Round(rules, p.left), Round(rules, p.left))
    decreases |rules|
  {
    hide HasRedex, App;
    if rules != [] {
      var rule, rest := rules[0], rules[1..];
      JoinExact(rule, p);
      RoundJoin(rest, App(rule, p));
      if !HasRedex(rule, p.left) && !HasRedex(rule, p.right) {
        Idle(rule, p.left);
        assert Busy(rest, p.left) <==> Busy(rules, p.left) by { BusyRest(rules, p.left); }
        assert Busy(rest, p.right) <==> Busy(rules, p.right) by { BusyRest(rules, p.right); }
      } else {
        assert Busy(rules, p.left) || Busy(rules, p.right);
        if !Busy(rest, App(rule, p.left)) { RoundIdle(rest, App(rule, p.left)); }
      }
    }
  }

  lemma Idle(rule: Rule, p: Plan)
    requires !HasRedex(rule, p)
    ensures App(rule, p) == p
  {
    RewritesExact(rule, p);
  }

  lemma BusyRest(rules: seq<Rule>, p: Plan)
    requires rules != [] && !HasRedex(rules[0], p)
    ensures Busy(rules[1..], p) <==> Busy(rules, p)
  {
    hide HasRedex;
    if rule :| rule in rules && HasRedex(rule, p) {
      assert rule in rules[1..];
    }
  }

  // ---- rules over chains of limits ----------------------------------------------------------------

  lemma MergeChain(p: Plan)
    requires p.Limit?
    ensures var q, s := App(MergeLimit, p), MachineSpan(p);
            q.Limit? && q.limit == s.limit && q.offset == s.offset && q.input == App(MergeLimit, Base(p))
  {
    hide App, Machine;
    MergedIs(p);
    SpanStart(p);
    assert Try(MergeLimit, p) == TryMerge(p);
    TopDownAtLimit(MergeLimit, p);
  }

  /** The same plan but for a limit in a sort at its root. */
  predicate SameButLimit(p: Plan, q: Plan) {
    p == q || (p.Sort? && q.Sort? && p.orderBy == q.orderBy && p.input == q.input)
  }

  /** Both chains cut the same windows. */
  ghost predicate SameSpans(p: Plan, q: Plan) {
    && (forall l, o :: Exact(l, o, q) == Exact(l, o, p))
    && (forall l: Option<usize>, o: usize :: Machine(l, o, q) == Machine(l, o, p))
  }

  lemma SpansOver(p: Plan, q: Plan)
    requires p.Limit? && q.Limit? && p.limit == q.limit && p.offset == q.offset && SameSpans(p.input, q.input)
    ensures SameSpans(p, q)
  {
    forall l: Option<usize>, o: usize ensures Machine(l, o, q) == Machine(l, o, p) {
      var l', o' := Narrowed(l, o, p.limit), AddUsize(p.offset, o);
      assert Machine(l', o', q.input) == Machine(l', o', p.input);
    }
  }

  lemma NoSpans(p: Plan, q: Plan)
    requires !p.Limit? && !q.Limit?
    ensures SameSpans(p, q)
  {
  }

  lemma {:induction false} PushChain(p: Plan)
    ensures var q := App(PushDownLimit, p);
            SameSpans(p, q) && SameButLimit(Base(q), App(PushDownLimit, Base(p)))
  {
    hide App, SameSpans;
    var rule := PushDownLimit;
    if p.Limit? {
      var p' := OrElse(TryPushDown(p), p);
      assert Try(rule, p) == TryPushDown(p);
      TopDownAtLimit(rule, p);
      var q := App(rule, p);
      if p.input.Sort? {
        UnaryKept(rule, p.input);
        UnaryKept(rule, p'.input);
        NoSpans(p.input, q.input);
      } else {
        PushChain(p.input);
      }
      SpansOver(p, q);
    } else {
      BaseKept(rule, p);
      NoSpans(p, App(rule, p));
    }
  }

  lemma BaseKept(rule: Rule, p: Plan)
    requires !p.Limit?
    ensures !App(rule, p).Limit?
  {
    hide App;
    if Unary(p) {
      UnaryKept(rule, p);
    } else if p.Join? {
      JoinExact(rule, p);
    } else {
      LeafKept(rule, p);
    }
  }

  /** A chain that lets nothing through. */
  ghost predicate Shut(p: Plan) {
    && (forall l, o :: Exact(l, o, p).limit == Some(0))
    && (forall l: Option<usize>, o: usize :: Machine(l, o, p).limit == Some(0))
  }

  lemma {:induction false} ShutStays(o: nat, o': usize, p: Plan)
    ensures Exact(Some(0), o, p).limit == Some(0) && Machine(Some(0), o', p).limit == Some(0)
    decreases p
  {
    if p.Limit? {
      ShutStays(p.offset + o, AddUsize(p.offset, o'), p.input);
    }
  }

  lemma ShutBelow(p: Plan)
    requires p.Limit? && (p.limit == Some(0) || Shut(p.input))
    ensures Shut(p)
  {
    if p.limit == Some(0) {
      forall l: Option<nat>, o: nat ensures Exact(l, o, p).limit == Some(0) { ShutStays(p.offset + o, 0, p.input); }
      forall l: Option<usize>, o: usize ensures Machine(l, o, p).limit == Some(0) {
        ShutStays(0, AddUsize(p.offset, o), p.input);
      }
    } else {
      forall l: Option<usize>, o: usize ensures Machine(l, o, p).limit == Some(0) {
        assert Machine(Narrowed(l, o, p.limit), AddUsize(p.offset, o), p.input).limit == Some(0);
      }
    }
  }

  /** Eliminating limits leaves the windows of a chain alone, or puts nothing below one that lets nothing through. */
  lemma {:induction false} EliminateChain(p: Plan)
    ensures var q := App(EliminateLimit, p);
            || (SameSpans(p, q) && Base(q) == App(EliminateLimit, Base(p)))
            || (Shut(p) && Base(q).EmptyRelation? && !Base(q).produceOneRow)
  {
    hide App, SameSpans, Shut;
    var rule := EliminateLimit;
    if p.Limit? {
      EliminateChain(p.input);
      EliminateAtLimit(p);
      var c := App(rule, p.input);
      var p' := Limit(p.limit, p.offset, c);
      TryExact(rule, p');
      if p.limit == Some(0) {
        ShutBelow(p);
      } else if p.limit == None && p.offset == 0 {
        CleanBelow(p.input);
        assert TryEliminate(c) == None by { TryExact(rule, c); }
        if Shut(p.input) { ShutBelow(p); }
        NothingCut(p);
        SpansOnwards(p, p.input, c);
      } else {
        if Shut(p.input) { ShutBelow(p); }
        if SameSpans(p.input, c) { SpansOver(p, p'); }
      }
    } else {
      BaseKept(rule, p);
      NoSpans(p, App(rule, p));
    }
  }

  lemma SpansOnwards(p: Plan, q: Plan, r: Plan)
    requires SameSpans(p, q)
    ensures SameSpans(q, r) ==> SameSpans(p, r)
  {
  }

  lemma NothingCut(p: Plan)
    requires p.Limit? && p.limit == None && p.offset == 0
    ensures SameSpans(p, p.input)
  {
  }

  /** The top of a plan is no limit to eliminate once limits have been eliminated. */
  lemma {:induction false} CleanBelow(p: Plan)
    ensures !Redex(EliminateLimit, App(EliminateLimit, p))
  {
    hide App;
    if p.Limit? {
      EliminateAtLimit(p);
      CleanBelow(p.input);
      TryExact(EliminateLimit, App(EliminateLimit, p.input));
    } else {
      BaseKept(EliminateLimit, p);
    }
  }

  // ---- what a sequence of rules makes of the rows -------------------------------------------------

  /** The window a chain ends up cutting. */
  function FinalSpan(rules: seq<Rule>, p: Plan): Span {
    if MergeLimit in rules then MachineSpan(p) else ExactSpan(p)
  }

  /** An executor that ignores a sort's limit does not see whether there is one. */
  lemma RoundSame(rules: seq<Rule>, p: Plan, q: Plan)
    requires SameButLimit(p, q)
    ensures Normalize(false, Round(rules, p)) == Normalize(false, Round(rules, q))
  {
    if p != q {
      RoundUnary(rules, p);
      RoundUnary(rules, q);
      var r := Round(rules, p.input);
      assert Bare(Onto(p, r)) == Bare(Onto(q, r));
    }
  }

  lemma NothingBelow(rules: seq<Rule>, p: Plan, s: Span)
    requires p.EmptyRelation? && !p.produceOneRow
    ensures CutBy(s, Normalize(false, Round(rules, p))) == Nothing
  {
    RoundLeaf(rules, p);
  }

  /** Whatever happens above it, what a chain is set over is optimized as if it stood alone. */
  lemma {:induction false} RoundChain(rules: seq<Rule>, p: Plan)
    ensures Normalize(false, Round(rules, p)) ==
            CutBy(FinalSpan(rules, p), Normalize(false, Round(rules, Base(p))))
    decreases |rules|
  {
    hide App, Exact, Machine, Normalize, Cut, SameSpans, SameButLimit, Shut;
    if rules == [] {
      ChainNormal(false, p);
    } else {
      var rule, rest := rules[0], rules[1..];
      var q := App(rule, p);
      RoundChain(rest, q);
      assert MergeLimit in rules <==> rule == MergeLimit || MergeLimit in rest;
      assert Round(rules, Base(p)) == Round(rest, App(rule, Base(p)));
      assert rule != MergeLimit ==> FinalSpan(rules, p) == FinalSpan(rest, p);
      match rule
      case EliminateLimit =>
        EliminateChain(p);
        FinalKept(rest, p, q);
      case PushDownLimit =>
        PushChain(p);
        FinalKept(rest, p, q);
        RoundSame(rest, Base(q), App(rule, Base(p)));
      case MergeLimit => FinalMerged(rest, p);
    }
  }

  lemma FinalKept(rules: seq<Rule>, p: Plan, q: Plan)
    ensures SameSpans(p, q) ==> FinalSpan(rules, q) == FinalSpan(rules, p)
    ensures Shut(p) ==> forall n :: CutBy(FinalSpan(rules, p), n) == Nothing
    ensures Base(q).EmptyRelation? && !Base(q).produceOneRow ==>
              CutBy(FinalSpan(rules, q), Normalize(false, Round(rules, Base(q)))) == Nothing
  {
    hide Exact, Machine;
    if Base(q).EmptyRelation? && !Base(q).produceOneRow {
      NothingBelow(rules, Base(q), FinalSpan(rules, q));
    }
  }

  lemma FinalMerged(rules: seq<Rule>, p: Plan)
    ensures var q := App(MergeLimit, p);
            FinalSpan(rules, q) == MachineSpan(p) && Base(q) == App(MergeLimit, Base(p))
  {
    hide App, Machine;
    BaseKept(MergeLimit, Base(p));
    var q := App(MergeLimit, p);
    if p.Limit? {
      MergeChain(p);
      OneLimit(q);
    } else {
      OneLimit(q);
      OneLimit(p);
    }
  }

  lemma OneLimit(p: Plan)
    requires p.Limit? ==> !p.input.Limit?
    ensures ExactSpan(p) == MachineSpan(p) == if p.Limit? then Span(p.limit, p.offset) else Span(None, 0)
  {
    if p.Limit? {
      SpanStart(p);
      assert Exact(p.limit, p.offset, p.input) == Span(p.limit, p.offset) == Machine(p.limit, p.offset, p.input);
    }
  }

  /**
   * When a sequence of rules keeps the rows of a plan: where limits are merged every chain of limits fits, and a
   * join has no work below it or the same rows on both sides. What a limit of zero hides does not matter.
   */
  predicate Clean(rules: seq<Rule>, p: Plan)
    decreases Size(p)
  {
    if p.Limit? then
      (MergeLimit in rules ==> MergeFits(false, p)) && (ExactSpan(p).limit == Some(0) || Clean(rules, Base(p)))
    else if Unary(p) then Clean(rules, p.input)
    else if p.Join? then
      || (!Busy(rules, p.left) && !Busy(rules, p.right))
      || (Clean(rules, p.left) && Normalize(false, p.left) == Normalize(false, p.right))
    else true
  }

  lemma {:induction false} CleanNormal(rules: seq<Rule>, p: Plan)
    ensures Normalize(false, Round(rules, p)) == Normalize(false, p) <==> Clean(rules, p)
    decreases Size(p)
  {
    hide Round, Cut, Busy, Exact, Machine;
    if p.Limit? {
      CleanNormal(rules, Base(p));
      RoundChain(rules, p);
      ChainNormal(false, p);
      Shapes(rules, Base(p));
      Wrapped(None, 0, None, 0, p);
      var x, y := Normalize(false, Base(p)), Normalize(false, Round(rules, Base(p)));
      if MergeLimit in rules {
        CutsDiffer(MachineSpan(p), ExactSpan(p), Base(p), y);
      } else {
        CutsDiffer(ExactSpan(p), ExactSpan(p), Base(p), y);
      }
    } else if Unary(p) {
      CleanNormal(rules, p.input);
      RoundUnary(rules, p);
      OntoNormal(p, Round(rules, p.input));
    } else if p.Join? {
      CleanNormal(rules, p.left);
      RoundJoin(rules, p);
    } else {
      RoundLeaf(rules, p);
    }
  }

  lemma OntoNormal(p: Plan, q: Plan)
    requires Unary(p) && !p.Limit?
    ensures Normalize(false, p) == Operator(Bare(p), Normalize(false, p.input))
    ensures Normalize(false, Onto(p, q)) == Operator(Bare(p), Normalize(false, q))
  {
    assert Bare(Onto(p, q)) == Bare(p);
  }

  /** What stands below a chain stays a source, an operator or a join, or a relation of no or one row. */
  lemma Shapes(rules: seq<Rule>, p: Plan)
    requires !p.Limit?
    ensures var x, y := Normalize(false, p), Normalize(false, Round(rules, p));
            if p.EmptyRelation? then x == y else Core(x) && Core(y)
  {
    if Unary(p) {
      RoundUnary(rules, p);
      OntoNormal(p, Round(rules, p.input));
    } else if p.Join? {
      RoundJoin(rules, p);
    } else {
      RoundLeaf(rules, p);
    }
  }

  lemma CutsDiffer(m: Span, e: Span, base: Plan, y: Normal)
    requires !base.Limit? && m.offset <= e.offset && Tighter(e.limit, m.limit) && (m.offset == e.offset ==> m == e)
    requires var x := Normalize(false, base); if base.EmptyRelation? then x == y else Core(x) && Core(y)
    ensures var x := Normalize(false, base);
            CutBy(m, y) == CutBy(e, x) <==>
            && (m.offset == e.offset || m.limit == Some(0) || AtMost(false, base, m.offset))
            && (e.limit == Some(0) || x == y)
  {
  }

  /** Rules keep the rows the executor hands out, whatever operators compute, exactly when the plan is clean. */
  lemma RulesExact(rules: seq<Rule>, p: Plan)
    ensures (forall sem :: Denote(sem, false, Round(rules, p)) == Denote(sem, false, p)) <==> Clean(rules, p)
  {
    Equivalent(false, Round(rules, p), false, p);
    CleanNormal(rules, p);
  }

  // ---- passes -------------------------------------------------------------------------------------

  function Repeat(rules: seq<Rule>, passes: nat): seq<Rule> {
    if passes == 0 then [] else Repeat(rules, passes - 1) + rules
  }

  lemma {:induction false} RoundAppend(a: seq<Rule>, b: seq<Rule>, p: Plan)
    ensures Round(a + b, p) == Round(b, Round(a, p))
    decreases |a|
  {
    hide App;
    if a == [] {
      assert a + b == b;
    } else {
      assert (a + b)[1..] == a[1..] + b;
      RoundAppend(a[1..], b, App(a[0], p));
    }
  }

  lemma {:induction false} RoundsAre(rules: seq<Rule>, passes: nat, p: Plan)
    ensures Rounds(rules, passes, p) == Round(Repeat(rules, passes), p)
    ensures passes > 0 ==> forall rule :: rule in Repeat(rules, passes) <==> rule in rules
  {
    if passes > 0 {
      RoundsAre(rules, passes - 1, p);
      RoundAppend(Repeat(rules, passes - 1), rules, p);
    }
  }

  /** It does not matter in which order and how often rules are applied, only which. */
  lemma {:induction false} CleanSame(rules: seq<Rule>, rules': seq<Rule>, p: Plan)
    requires forall rule :: rule in rules' <==> rule in rules
    ensures Clean(rules', p) <==> Clean(rules, p)
    decreases Size(p)
  {
    hide MergeFits, Exact, HasRedex;
    if p.Limit? {
      CleanSame(rules, rules', Base(p));
    } else if Unary(p) {
      CleanSame(rules, rules', p.input);
    } else if p.Join? {
      CleanSame(rules, rules', p.left);
      assert Busy(rules', p.left) <==> Busy(rules, p.left);
      assert Busy(rules', p.right) <==> Busy(rules, p.right);
    }
  }

  lemma PassesNormal(rules: seq<Rule>, passes: nat, p: Plan)
    ensures Normalize(false, Rounds(rules, passes, p)) == Normalize(false, p) <==> passes == 0 || Clean(rules, p)
  {
    hide Clean, Normalize, Round;
    RoundsAre(rules, passes, p);
    CleanNormal(Repeat(rules, passes), p);
    if passes > 0 {
      CleanSame(rules, Repeat(rules, passes), p);
    }
  }

  /**
   * The optimizer. Run by an executor that ignores a sort's limit, as the physical planner has it, the new plan yields
   * the rows of the old one, whatever operators compute, if and only if the old one is clean.
   */
  method Optimize(rules: seq<Rule>, maxPasses: nat, plan: Plan) returns (newPlan: Plan)
    ensures newPlan == Rounds(rules, maxPasses, plan)
    ensures (forall sem :: Denote(sem, false, newPlan) == Denote(sem, false, plan)) <==>
            maxPasses == 0 || Clean(rules, plan)
    ensures JoinSafe(plan) ==> JoinSafe(newPlan) && Schema(newPlan) == Schema(plan)
    ensures forall sem, honored | JoinSafe(plan) && Sums(honored, plan) ::
              Denote(sem, honored, newPlan) == Denote(sem, honored, plan)
  {
    hide Denote, JoinSafe, Sums, ChainSum, Schema, Clean, Normalize;
    newPlan := plan;
    var i := 0;
    while i < maxPasses
      invariant i <= maxPasses && newPlan == Rounds(rules, i, plan)
    {
      ghost var before := newPlan;
      assert rules[0..] == rules;
      for k := 0 to |rules|
        invariant Round(rules[k..], newPlan) == Round(rules, before)
      {
        assert rules[k..][1..] == rules[k + 1..];
        var optimized := OptimizeRecursively(rules[k], newPlan);
        if optimized.Some? {
          newPlan := optimized.value;
        }
      }
      i := i + 1;
    }
    PassesNormal(rules, maxPasses, plan);
    Equivalent(false, newPlan, false, plan);
    if JoinSafe(plan) {
      RoundsKeep(AnySemantics(), true, rules, maxPasses, plan);
      forall sem, honored | Sums(honored, plan)
        ensures Denote(sem, honored, newPlan) == Denote(sem, honored, plan)
      {
        RoundsKeep(sem, honored, rules, maxPasses, plan);
      }
    }
  }

  /**
   * A plan without Sort limits, optimized and then run by an executor that ignores them, gives its rows if and only if
   * it is clean.
   */
  lemma RunAsPlanned(rules: seq<Rule>, passes: nat, p: Plan)
    requires NoSortLimits(p)
    ensures (forall sem :: Denote(sem, false, Rounds(rules, passes, p)) == Denote(sem, true, p)) <==>
            passes == 0 || Clean(rules, p)
  {
    hide Denote, Normalize, Clean, Rounds, NoSortLimits;
    Equivalent(false, Rounds(rules, passes, p), true, p);
    PassesNormal(rules, passes, p);
    forall sem ensures Denote(sem, false, p) == Denote(sem, true, p) { SortLimitsIdle(sem, p); }
    Equivalent(false, p, true, p);
  }

  /** With nothing to rewrite below joins and offsets that add up, a plan is clean. */
  lemma {:induction false} SafeClean(rules: seq<Rule>, p: Plan)
    requires JoinSafe(p) && Sums(false, p)
    ensures Clean(rules, p)
    decreases Size(p)
  {
    hide Exact, Machine, HasRedex;
    if p.Limit? {
      BaseSafe(p);
      SafeClean(rules, Base(p));
    } else if Unary(p) {
      SafeClean(rules, p.input);
    } else if p.Join? {
      forall rule ensures !HasRedex(rule, p.left) && !HasRedex(rule, p.right) {
        match rule
        case EliminateLimit =>
        case MergeLimit =>
        case PushDownLimit =>
      }
    }
  }

  lemma {:induction false} BaseSafe(p: Plan)
    requires JoinSafe(p) && Sums(false, p)
    ensures JoinSafe(Base(p)) && Sums(false, Base(p)) && Offsets(p) == ChainSum(false, p)
    ensures p.Limit? ==> Offsets(p) < USIZE
  {
    if p.Limit? {
      BaseSafe(p.input);
    }
  }

  // ---- joins --------------------------------------------------------------------------------------

  /**
   * A rule applied to a join keeps its rows, whatever operators compute, exactly when the rule has no work below the
   * join or both inputs have the same normal form.
   */
  lemma JoinKeepsExact(rule: Rule, p: Plan, honored: bool)
    requires p.Join? && JoinSafe(p.left) && Sums(honored, p.left)
    ensures (forall sem :: Denote(sem, honored, App(rule, p)) == Denote(sem, honored, p)) <==>
            || (!HasRedex(rule, p.left) && !HasRedex(rule, p.right))
            || Normalize(honored, p.left) == Normalize(honored, p.right)
  {
    JoinExact(rule, p);
    Equivalent(honored, App(rule, p), honored, p);
    hide HasRedex, App, Denote, JoinSafe, Sums, ChainSum;
    var l := App(rule, p.left);
    forall sem ensures Denote(sem, honored, l) == Denote(sem, honored, p.left) {
      RecursionKeeps(rule, sem, honored, p.left);
    }
    Equivalent(honored, l, honored, p.left);
  }

  // ---- what queries are planned to ----------------------------------------------------------------

  /** `Clean` without its first condition. */
  predicate JoinsKept(rules: seq<Rule>, p: Plan) {
    if p.Limit? then p.limit == Some(0) || JoinsKept(rules, p.input)
    else if Unary(p) then JoinsKept(rules, p.input)
    else if p.Join? then
      || (!Busy(rules, p.left) && !Busy(rules, p.right))
      || (JoinsKept(rules, p.left) && Normalize(false, p.left) == Normalize(false, p.right))
    else true
  }

  /** In the plans of queries no offsets ever wrap around, and no sum of a limit and an offset does. */
  lemma {:induction false} PlannedSums(honored: bool, p: Plan)
    requires Planned(p)
    ensures Sums(honored, p) && NoSortLimits(p) && (p.Limit? && !p.input.Limit? ==> Offsets(p) < USIZE)
  {
    if Unary(p) {
      PlannedSums(honored, p.input);
      if p.Limit? { assert Base(p) == p.input && ChainSum(honored, p.input) == 0; }
    } else if p.Join? {
      PlannedSums(honored, p.left);
      PlannedSums(honored, p.right);
    }
  }

  lemma {:induction false} PlannedClean(rules: seq<Rule>, p: Plan)
    requires Planned(p)
    ensures Clean(rules, p) <==> JoinsKept(rules, p)
    decreases Size(p)
  {
    hide Busy, Machine;
    if p.Limit? {
      PlannedSums(false, p);
      OneLimit(p);
      assert Base(p) == p.input;
      PlannedClean(rules, p.input);
    } else if Unary(p) {
      PlannedClean(rules, p.input);
    } else if p.Join? {
      PlannedClean(rules, p.left);
    }
  }

  /**
   * Of every statement: optimized and run, its plan yields the rows it was planned to, whatever operators compute,
   * if and only if every join that shows has nothing to rewrite below it or the same rows on both sides. Offsets play
   * no part.
   */
  lemma StatementExact(s: Statement)
    requires PlanStatement(s).Ok?
    ensures var p := PlanStatement(s).value;
            (forall sem :: Denote(sem, false, Rounds(RULES, MAX_PASSES, p)) == Denote(sem, true, p)) <==>
            JoinsKept(RULES, p)
  {
    hide Denote, Normalize, Clean, JoinsKept, Rounds, Planned, NoSortLimits;
    var p := PlanStatement(s).value;
    StatementPlanned(s);
    PlannedSums(true, p);
    RunAsPlanned(RULES, MAX_PASSES, p);
    PlannedClean(RULES, p);
  }

  // ---- where the conditions bite ------------------------------------------------------------------

  /** Two tables of one row each, projections that change nothing, and the cross product. */
  ghost function OneRowTables(x: int, y: int): Semantics {
    Semantics(p => if p == TableScan(1, 7) then [Row([x])] else if p == TableScan(2, 9) then [Row([y])] else [],
              (_, rows) => rows, (_, _, l, r) => Product(l, r), Row([]))
  }

  function Product(l: seq<Row>, r: seq<Row>): seq<Row> {
    if l == [] then [] else seq(|r|, i requires 0 <= i < |r| => Row(l[0].cells + r[i].cells)) + Product(l[1..], r)
  }

  const CROSS: nat := 4

  /** `select * from (select * from a offset 0) cross join b` */
  function CrossQuery(): Statement {
    var inner := Query(Select(Table(1, 7), None, None, 0, 7), None, None, Some(Int64(0)));
    QueryStatement(Query(Select(Joined(CROSS, 0, 8, Derived(inner), Table(2, 9)), None, None, 0, 8), None, None, None))
  }

  /** Of that query the row of b is lost: [x, y] becomes [x, x]. */
  lemma JoinLosesInput(x: int, y: int)
    ensures PlanStatement(CrossQuery()).Ok?
    ensures var p := PlanStatement(CrossQuery()).value;
            && Denote(OneRowTables(x, y), true, p) == [Row([x, y])]
            && Denote(OneRowTables(x, y), false, Rounds(RULES, MAX_PASSES, p)) == [Row([x, x])]
  {
    var a, b := TableScan(1, 7), TableScan(2, 9);
    var l := Limit(None, 0, Project(0, 7, a));
    var j := Join(CROSS, 0, 8, l, b);
    assert PlanStatement(CrossQuery()) == Ok(Project(0, 8, j));
    CrossOptimized();
    CrossRows(x, y);
  }

  lemma CrossRows(x: int, y: int)
    ensures var sem, a, b := OneRowTables(x, y), TableScan(1, 7), TableScan(2, 9);
            && Denote(sem, true, Project(0, 8, Join(CROSS, 0, 8, Limit(None, 0, Project(0, 7, a)), b))) == [Row([x, y])]
            && Denote(sem, false, Project(0, 8, Join(CROSS, 0, 8, Project(0, 7, a), Project(0, 7, a)))) == [Row([x, x])]
  {
    var sem, a, b := OneRowTables(x, y), TableScan(1, 7), TableScan(2, 9);
    var scan := Project(0, 7, a);
    var l := Limit(None, 0, scan);
    ProjectRows(x, y, true, 0, 7, a);
    ProjectRows(x, y, false, 0, 7, a);
    ProjectRows(x, y, true, 0, 8, Join(CROSS, 0, 8, l, b));
    ProjectRows(x, y, false, 0, 8, Join(CROSS, 0, 8, scan, scan));
    WindowRows(sem, true, scan);
    hide OneRowTables, Denote;
    ProductRows(x, y, true, l, b);
    ProductRows(x, y, false, scan, scan);
  }

  lemma WindowRows(sem: Semantics, honored: bool, p: Plan)
    ensures Denote(sem, honored, Limit(None, 0, p)) == Denote(sem, honored, p)
  {
  }

  lemma ProjectRows(x: int, y: int, honored: bool, exprs: nat, schema: nat, p: Plan)
    ensures Denote(OneRowTables(x, y), honored, Project(exprs, schema, p)) == Denote(OneRowTables(x, y), honored, p)
    ensures p == TableScan(1, 7) ==> Denote(OneRowTables(x, y), honored, p) == [Row([x])]
  {
  }

  lemma ProductRows(x: int, y: int, honored: bool, l: Plan, r: Plan)
    requires Denote(OneRowTables(x, y), honored, l) == [Row([x])]
    ensures Denote(OneRowTables(x, y), honored, r) == [Row([x])] ==>
              Denote(OneRowTables(x, y), honored, Join(CROSS, 0, 8, l, r)) == [Row([x, x])]
    ensures r == TableScan(2, 9) ==> Denote(OneRowTables(x, y), honored, Join(CROSS, 0, 8, l, r)) == [Row([x, y])]
  {
    OneRowProduct(x, x);
    OneRowProduct(x, y);
    ProjectRows(x, y, honored, 0, 9, r);
    var rows := Denote(OneRowTables(x, y), honored, r);
    assert Denote(OneRowTables(x, y), honored, Join(CROSS, 0, 8, l, r)) == Product([Row([x])], rows);
  }

  lemma OneRowProduct(x: int, y: int)
    ensures Product([Row([x])], [Row([y])]) == [Row([x, y])]
  {
    var one, two := [Row([x])], [Row([y])];
    assert one[1..] == [] && Product([], two) == [];
    assert [x] + [y] == [x, y];
  }

  lemma CrossOptimized()
    ensures var a, b := TableScan(1, 7), TableScan(2, 9);
            Rounds(RULES, MAX_PASSES, Project(0, 8, Join(CROSS, 0, 8, Limit(None, 0, Project(0, 7, a)), b))) ==
            Project(0, 8, Join(CROSS, 0, 8, Project(0, 7, a), Project(0, 7, a)))
  {
    hide Round, Rounds;
    var a, b := TableScan(1, 7), TableScan(2, 9);
    var scan := Project(0, 7, a);
    var l := Limit(None, 0, scan);
    var j := Join(CROSS, 0, 8, l, b);
    var rules := Repeat(RULES, MAX_PASSES);
    RoundsAre(RULES, MAX_PASSES, Project(0, 8, j));
    RoundUnary(rules, Project(0, 8, j));
    RoundJoin(rules, j);
    assert EliminateLimit in RULES && HasRedex(EliminateLimit, l);
    assert Busy(rules, l);
    FirstRule();
    OffsetDropped(rules, scan);
  }

  lemma FirstRule()
    ensures Repeat(RULES, MAX_PASSES) != [] && Repeat(RULES, MAX_PASSES)[0] == EliminateLimit
  {
    assert Repeat(RULES, 1) == RULES && Repeat(RULES, 2) == RULES + RULES;
    assert Repeat(RULES, 3) == RULES + RULES + RULES;
  }

  lemma {:induction false} OffsetDropped(rules: seq<Rule>, scan: Plan)
    requires rules != [] && rules[0] == EliminateLimit && scan.Project? && scan.input.TableScan?
    ensures Round(rules, Limit(None, 0, scan)) == scan
  {
    hide App;
    var l := Limit(None, 0, scan);
    EliminateAtLimit(l);
    UnaryKept(EliminateLimit, scan);
    LeafKept(EliminateLimit, scan.input);
    assert App(EliminateLimit, l) == scan;
    RoundUnary(rules[1..], scan);
    RoundLeaf(rules[1..], scan.input);
  }

  lemma MergedTwice(p: Plan)
    requires p.Limit? && p.input.Limit? && p.input.input.Limit? && !p.input.input.input.Limit?
    ensures TryMerge(p) == Some(MergedOnce(MergedOnce(p)))
  {
    MergeStep(p);
    MergeStep(MergedOnce(p));
  }

  /**
   * Offsets an SQL literal can say, three of them in a chain built by hand (no statement is planned to one): they wrap
   * around to none, and rows that should be skipped come back.
   */
  lemma OffsetWraps(sem: Semantics, honored: bool, a: Plan)
    requires a.TableScan? && 0 < |sem.leaf(a)| < USIZE
    ensures var p := Limit(None, MAX_INT64, Limit(None, MAX_INT64, Limit(None, 2, a)));
            && TryMerge(p) == Some(Limit(None, 0, a)) && !MergeFits(honored, p)
            && Denote(sem, honored, p) == [] && Denote(sem, honored, TryMerge(p).value) == sem.leaf(a)
  {
    hide Denote;
    assert Denote(sem, honored, a) == sem.leaf(a) by { LeafRows(sem, honored, a); }
    var p2 := Limit(None, 2, a);
    var p1 := Limit(None, MAX_INT64, p2);
    var p := Limit(None, MAX_INT64, p1);
    assert MergedOnce(p) == Limit(None, USIZE - 2, p2);
    assert MergedOnce(MergedOnce(p)) == Limit(None, 0, a);
    MergedTwice(p);
    hide TryMerge, MergedOnce;
    assert Offsets(p2) == 2 && Offsets(p1) == MAX_INT64 + 2 && Offsets(p) == USIZE;
    assert Base(p2) == a && Base(p1) == a && Base(p) == a;
    assert MachineSpan(p) == Span(None, 0) by { MergedIs(p); SpanStart(p); }
    WindowRows(sem, honored, a);
    SkippedRows(sem, honored, 2, a);
    SkippedRows(sem, honored, MAX_INT64, p2);
    SkippedRows(sem, honored, MAX_INT64, p1);
  }

  lemma LeafRows(sem: Semantics, honored: bool, p: Plan)
    requires p.TableScan?
    ensures Denote(sem, honored, p) == sem.leaf(p)
  {
  }

  lemma SkippedRows(sem: Semantics, honored: bool, o: usize, p: Plan)
    ensures Denote(sem, honored, Limit(None, o, p)) == Drop(o, Denote(sem, honored, p))
  {
  }
}
