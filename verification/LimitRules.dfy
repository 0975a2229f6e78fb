/** The LIMIT rewrite rules (optimizer/rule) and the driver that applies them (optimizer/logical_optimizer.rs). */
module LimitRules {
  import opened Prelude
  import opened LogicalPlan

  /** Machine addition, wrapping around. */
  function AddUsize(a: usize, b: usize): usize { (a + b) % USIZE }

  function SaturatingSub(a: usize, b: usize): usize { if a >= b then a - b else 0 }

  function Min(a: usize, b: usize): usize { if a <= b then a else b }

  // ---- the rules ------------------------------------------------------------------------------

  datatype Rule = EliminateLimit | MergeLimit | PushDownLimit

  datatype ApplyOrder = TopDown | BottomUp

  function Order(rule: Rule): ApplyOrder {
    match rule
    case EliminateLimit => BottomUp
    case MergeLimit => TopDown
    case PushDownLimit => TopDown
  }

  function TryEliminate(plan: Plan): Option<Plan> {
    if !plan.Limit? then None
    else
      match plan.limit
      case Some(fetch) => if fetch == 0 then Some(EmptyRelation(false, Schema(plan.input))) else None
      case None =>
        if plan.offset == 0 then
          match TryEliminate(plan.input)
          case Some(again) => Some(again)
          case None => Some(plan.input)
        else None
  }

  function TryMerge(plan: Plan): Option<Plan>
    decreases Size(plan)
  {
    if !plan.Limit? || !plan.input.Limit? then None
    else
      var child := plan.input;
      var newLimit :=
        match (plan.limit, child.limit)
        case (Some(p), Some(c)) => Some(Min(p, SaturatingSub(c, plan.offset)))
        case (Some(p), None) => Some(p)
        case (None, Some(c)) => Some(SaturatingSub(c, plan.offset))
        case (None, None) => None;
      var merged := Limit(newLimit, AddUsize(child.offset, plan.offset), child.input);
      assert Size(plan) == Size(child) + 2 == Size(child.input) + 4 && Size(merged) == Size(child.input) + 2;
      match TryMerge(merged)
      case Some(again) => Some(again)
      case None => Some(merged)
  }

  function TryPushDown(plan: Plan): Option<Plan> {
    if !plan.Limit? || plan.limit.None? || !plan.input.Sort? then None
    else
      var sort := plan.input;
      var sortLimit := AddUsize(plan.offset, plan.limit.value);
      var newLimit := match sort.sortLimit case Some(f) => Some(Min(f, sortLimit)) case None => Some(sortLimit);
      if newLimit == sort.sortLimit then None
      else Some(Limit(plan.limit, plan.offset, Sort(sort.orderBy, newLimit, sort.input)))
  }

  function Try(rule: Rule, plan: Plan): Option<Plan> {
    match rule
    case EliminateLimit => TryEliminate(plan)
    case MergeLimit => TryMerge(plan)
    case PushDownLimit => TryPushDown(plan)
  }

  // ---- the driver -----------------------------------------------------------------------------

  function Size(p: Plan): nat {
    if Unary(p) then Size(p.input) + 2 else if p.Join? then Size(p.left) + Size(p.right) + 3 else 1
  }

  function SizeAll(ps: seq<Plan>): nat {
    if ps == [] then 0 else Size(ps[0]) + 1 + SizeAll(ps[1..])
  }

  lemma InputsSmaller(p: Plan)
    ensures SizeAll(Inputs(p)) < Size(p)
  {
    if p.Join? {
      assert Inputs(p)[1..] == [p.right] && SizeAll([p.right]) == Size(p.right) + 1;
    } else if Unary(p) {
      assert SizeAll([p.input]) == Size(p.input) + 1;
    }
  }

  lemma {:induction false} TrySmaller(rule: Rule, p: Plan)
    ensures Try(rule, p).Some? ==> Size(Try(rule, p).value) <= Size(p)
    decreases Size(p)
  {
    if rule == EliminateLimit && p.Limit? {
      TrySmaller(rule, p.input);
    } else if rule == MergeLimit && p.Limit? && p.input.Limit? {
      var merged := MergedOnce(p);
      assert Size(p) == Size(p.input) + 2 == Size(p.input.input) + 4 && Size(merged) == Size(p.input.input) + 2;
      TrySmaller(rule, merged);
    }
  }

  /** `Within` on machine numbers. */
  function Narrowed(l: Option<usize>, o: usize, l': Option<usize>): (w: Option<usize>)
    ensures w == Within(l, o, l')
  {
    match Within(l, o, l') case None => None case Some(n) => Some(n)
  }

  /** A limit over a limit merged into one. */
  function MergedOnce(p: Plan): Plan
    requires p.Limit? && p.input.Limit?
  {
    Limit(Narrowed(p.limit, p.offset, p.input.limit), AddUsize(p.input.offset, p.offset), p.input.input)
  }

  lemma MergeStep(p: Plan)
    requires p.Limit? && p.input.Limit?
    ensures TryMerge(p) == Some(if TryMerge(MergedOnce(p)).Some? then TryMerge(MergedOnce(p)).value else MergedOnce(p))
  {
  }

  function OrElse(p: Option<Plan>, q: Plan): Plan { match p case Some(r) => r case None => q }

  function OptimizeRecursively(rule: Rule, plan: Plan): Option<Plan>
    decreases Size(plan), 2
  {
    match Order(rule)
    case TopDown =>
      TrySmaller(rule, plan);
      var self := Try(rule, plan);
      var inputs := OptimizeInputs(rule, OrElse(self, plan));
      if inputs.Some? then inputs else self
    case BottomUp =>
      var inputs := OptimizeInputs(rule, plan);
      var self := Try(rule, OrElse(inputs, plan));
      if self.Some? then self else inputs
  }

  function OptimizeAll(rule: Rule, plans: seq<Plan>): (r: seq<Option<Plan>>)
    ensures |r| == |plans|
    decreases SizeAll(plans), 0
  {
    if plans == [] then []
    else [OptimizeRecursively(rule, plans[0])] + OptimizeAll(rule, plans[1..])
  }

  function Replaced(results: seq<Option<Plan>>, inputs: seq<Plan>): (r: seq<Plan>)
    requires |results| == |inputs|
    ensures |r| == |inputs|
  {
    if inputs == [] then [] else [OrElse(results[0], inputs[0])] + Replaced(results[1..], inputs[1..])
  }

  function OptimizeInputs(rule: Rule, plan: Plan): Option<Plan>
    decreases Size(plan), 1
  {
    InputsSmaller(plan);
    var inputs := Inputs(plan);
    var result := OptimizeAll(rule, inputs);
    if result == [] || forall o | o in result :: o.None? then None
    else Some(WithNewInputs(plan, Replaced(result, inputs)).value)
  }

  // ---- what the driver does, node by node -------------------------------------------------------

  /** The unary node over another input. */
  function Onto(p: Plan, input: Plan): (q: Plan)
    requires Unary(p)
    ensures Unary(q) && q.input == input
  {
    WithNewInputs(p, [input]).value
  }

  lemma UnaryInputs(rule: Rule, p: Plan)
    requires Unary(p)
    ensures OptimizeInputs(rule, p) ==
            match OptimizeRecursively(rule, p.input) case None => None case Some(q) => Some(Onto(p, q))
  {
    var r := OptimizeRecursively(rule, p.input);
    assert OptimizeAll(rule, [p.input]) == [r] by {
      assert OptimizeAll(rule, [p.input][1..]) == [];
    }
    assert Replaced([r], [p.input]) == [OrElse(r, p.input)];
  }

  lemma LeafInputs(rule: Rule, p: Plan)
    requires !Unary(p) && !p.Join?
    ensures OptimizeInputs(rule, p) == None
  {
  }

  /** A join whose inputs are rewritten gets its left input twice. */
  lemma JoinInputs(rule: Rule, p: Plan)
    requires p.Join?
    ensures var l, r := OptimizeRecursively(rule, p.left), OptimizeRecursively(rule, p.right);
            OptimizeInputs(rule, p) ==
            if l.None? && r.None? then None
            else Some(Join(p.joinType, p.condition, p.joinSchema, OrElse(l, p.left), OrElse(l, p.left)))
  {
    var l, r := OptimizeRecursively(rule, p.left), OptimizeRecursively(rule, p.right);
    var inputs := [p.left, p.right];
    assert OptimizeAll(rule, inputs) == [l, r] by {
      assert inputs[1..] == [p.right] && inputs[1..][1..] == [];
      assert OptimizeAll(rule, [p.right]) == [r];
    }
    assert Replaced([l, r], inputs)[0] == OrElse(l, p.left);
    assert [l, r][0] == l && [l, r][1] == r;
  }

  // ---- where a rule applies -------------------------------------------------------------------

  /** The guard of each rule at one node. */
  predicate Redex(rule: Rule, p: Plan) {
    && p.Limit?
    && match rule
       case EliminateLimit => p.limit == Some(0) || (p.limit == None && p.offset == 0)
       case MergeLimit => p.input.Limit?
       case PushDownLimit =>
         && p.limit.Some? && p.input.Sort?
         && (p.input.sortLimit == None || p.input.sortLimit.value > AddUsize(p.offset, p.limit.value))
  }

  predicate HasRedex(rule: Rule, p: Plan) {
    || Redex(rule, p)
    || (Unary(p) && HasRedex(rule, p.input))
    || (p.Join? && (HasRedex(rule, p.left) || HasRedex(rule, p.right)))
  }

  lemma TryExact(rule: Rule, p: Plan)
    ensures Try(rule, p).Some? <==> Redex(rule, p)
  {
    if rule == MergeLimit && p.Limit? && p.input.Limit? {
      MergeStep(p);
    }
  }

  /** The driver rewrites a plan exactly when some node of it meets the rule's guard. */
  lemma {:induction false} RewritesExact(rule: Rule, p: Plan)
    ensures OptimizeRecursively(rule, p).Some? <==> HasRedex(rule, p)
    ensures OptimizeInputs(rule, p).Some? <==>
            (Unary(p) && HasRedex(rule, p.input)) || (p.Join? && (HasRedex(rule, p.left) || HasRedex(rule, p.right)))
  {
    hide Redex, Try;
    TryExact(rule, p);
    if Unary(p) {
      RewritesExact(rule, p.input);
      UnaryInputs(rule, p);
    } else if p.Join? {
      RewritesExact(rule, p.left);
      RewritesExact(rule, p.right);
      JoinInputs(rule, p);
    } else {
      LeafInputs(rule, p);
    }
  }

  /** No rule applies anywhere. */
  predicate Quiet(p: Plan) {
    !HasRedex(EliminateLimit, p) && !HasRedex(MergeLimit, p) && !HasRedex(PushDownLimit, p)
  }

  /** No rule applies below a join. */
  predicate JoinSafe(p: Plan) {
    if Unary(p) then JoinSafe(p.input) else p.Join? ==> Quiet(p.left) && Quiet(p.right)
  }

  lemma QuietStays(rule: Rule, p: Plan)
    requires Quiet(p)
    ensures OptimizeRecursively(rule, p) == None
  {
    RewritesExact(rule, p);
  }

  // ---- meaning is kept ------------------------------------------------------------------------

  /** What a chain of limits is set over. */
  function Base(p: Plan): (base: Plan)
    ensures !base.Limit? && Size(base) <= Size(p) && (p.Limit? ==> Size(base) < Size(p))
  {
    if p.Limit? then Base(p.input) else p
  }

  /** What may get added up in a chain of limits: its offsets, and over a sort whose limit counts its limits. */
  function ChainSum(honored: bool, p: Plan): nat {
    if !p.Limit? then 0
    else
      p.offset + (if honored && Base(p).Sort? && p.limit.Some? then p.limit.value else 0) + ChainSum(honored, p.input)
  }

  /** Wherever the rules get to, the sums they form fit the machine's numbers. */
  predicate Sums(honored: bool, p: Plan) {
    Unary(p) ==> (p.Limit? ==> ChainSum(honored, p) < USIZE) && Sums(honored, p.input)
  }

  /** `q` can stand for `p`: same schema, as harmless to rewrite on and, where sums fit, same rows. */
  ghost predicate Stands(sem: Semantics, honored: bool, p: Plan, q: Plan) {
    && Schema(q) == Schema(p) && JoinSafe(q) && (Base(q).Sort? ==> Base(p).Sort?)
    && (Sums(honored, p) ==>
          && Denote(sem, honored, q) == Denote(sem, honored, p)
          && Sums(honored, q) && ChainSum(honored, q) <= ChainSum(honored, p))
  }

  lemma {:induction false} EliminateKeeps(sem: Semantics, honored: bool, p: Plan)
    requires JoinSafe(p) && TryEliminate(p).Some?
    ensures Stands(sem, honored, p, TryEliminate(p).value)
  {
    if p.limit == None {
      var rows := Denote(sem, honored, p.input);
      assert Drop(0, rows) == rows;
      if TryEliminate(p.input).Some? {
        EliminateKeeps(sem, honored, p.input);
      }
    }
  }

  lemma MergeOnceSums(honored: bool, p: Plan)
    requires p.Limit? && p.input.Limit? && Sums(honored, p)
    ensures AddUsize(p.input.offset, p.offset) == p.input.offset + p.offset
    ensures Sums(honored, MergedOnce(p)) && ChainSum(honored, MergedOnce(p)) <= ChainSum(honored, p)
  {
    assert Base(p) == Base(p.input) == Base(p.input.input) == Base(MergedOnce(p));
    assert ChainSum(honored, p.input) >= p.input.offset;
  }

  lemma MergeOnceRows(sem: Semantics, honored: bool, p: Plan)
    requires p.Limit? && p.input.Limit? && AddUsize(p.input.offset, p.offset) == p.input.offset + p.offset
    ensures Denote(sem, honored, MergedOnce(p)) == Denote(sem, honored, p)
  {
    hide Within, Take, Drop;
    var child, q := p.input, MergedOnce(p);
    var rows := Denote(sem, honored, child.input);
    WindowOfWindow(p.limit, p.offset, child.limit, child.offset, rows);
    assert Denote(sem, honored, child) == Take(child.limit, Drop(child.offset, rows));
    assert Denote(sem, honored, p) == Take(p.limit, Drop(p.offset, Denote(sem, honored, child)));
    assert Denote(sem, honored, q) == Take(q.limit, Drop(q.offset, rows));
  }

  lemma MergeOnceSchema(p: Plan)
    requires p.Limit? && p.input.Limit?
    ensures Schema(MergedOnce(p)) == Schema(p)
  {
    assert Schema(p) == Schema(p.input) == Schema(p.input.input);
  }

  lemma MergeOnceKeeps(sem: Semantics, honored: bool, p: Plan)
    requires p.Limit? && p.input.Limit? && JoinSafe(p)
    ensures Stands(sem, honored, p, MergedOnce(p))
  {
    hide Denote, Sums, ChainSum, Within, AddUsize;
    MergeOnceSchema(p);
    if Sums(honored, p) {
      MergeOnceSums(honored, p);
      MergeOnceRows(sem, honored, p);
    }
    assert Base(p) == Base(p.input) == Base(p.input.input) == Base(MergedOnce(p));
    assert JoinSafe(p.input) && JoinSafe(p.input.input);
  }

  lemma {:induction false} MergeKeeps(sem: Semantics, honored: bool, p: Plan)
    requires JoinSafe(p) && TryMerge(p).Some?
    ensures Stands(sem, honored, p, TryMerge(p).value)
    decreases Size(p)
  {
    hide Denote, Sums, ChainSum, JoinSafe;
    MergeStep(p);
    MergeOnceKeeps(sem, honored, p);
    if TryMerge(MergedOnce(p)).Some? {
      assert Size(p) == Size(p.input) + 2 == Size(p.input.input) + 4 && Size(MergedOnce(p)) == Size(p.input.input) + 2;
      MergeKeeps(sem, honored, MergedOnce(p));
    }
  }

  lemma PushDownKeeps(sem: Semantics, honored: bool, p: Plan)
    requires JoinSafe(p) && TryPushDown(p).Some?
    ensures Stands(sem, honored, p, TryPushDown(p).value)
  {
    var sort, q := p.input, TryPushDown(p).value;
    var rows := Denote(sem, honored, sort.input);
    if honored && Sums(honored, p) {
      assert Base(p) == Base(sort) == sort;
      WindowCut(p.limit.value, p.offset, sort.sortLimit, q.input.sortLimit.value, sem.unary(Bare(sort), rows));
    }
    assert Bare(q.input) == Bare(sort);
    assert Base(p) == sort && Base(q) == q.input && ChainSum(honored, q) == ChainSum(honored, p);
    assert Sums(honored, p) ==> Sums(honored, sort) && Sums(honored, sort.input) && Sums(honored, q.input);
    assert JoinSafe(sort) && JoinSafe(sort.input) && JoinSafe(q.input);
  }

  lemma TryKeeps(rule: Rule, sem: Semantics, honored: bool, p: Plan)
    requires JoinSafe(p)
    ensures Stands(sem, honored, p, OrElse(Try(rule, p), p))
  {
    hide Denote, Sums, ChainSum, JoinSafe;
    if Try(rule, p).Some? {
      match rule
      case EliminateLimit => EliminateKeeps(sem, honored, p);
      case MergeLimit => MergeKeeps(sem, honored, p);
      case PushDownLimit => PushDownKeeps(sem, honored, p);
    }
  }

  lemma OntoRows(sem: Semantics, honored: bool, p: Plan, q: Plan)
    requires Unary(p) && Denote(sem, honored, q) == Denote(sem, honored, p.input)
    ensures Denote(sem, honored, Onto(p, q)) == Denote(sem, honored, p)
  {
    if !p.Limit? { assert Bare(Onto(p, q)) == Bare(p); }
  }

  lemma OntoSums(honored: bool, p: Plan, q: Plan)
    requires Unary(p) && (Base(q).Sort? ==> Base(p.input).Sort?) && Sums(honored, p)
    requires Sums(honored, q) && ChainSum(honored, q) <= ChainSum(honored, p.input)
    ensures Sums(honored, Onto(p, q)) && ChainSum(honored, Onto(p, q)) <= ChainSum(honored, p)
  {
    if p.Limit? { assert Base(p) == Base(p.input) && Base(Onto(p, q)) == Base(q); }
  }

  lemma OntoKeeps(sem: Semantics, honored: bool, p: Plan, q: Plan)
    requires Unary(p) && Stands(sem, honored, p.input, q)
    ensures Stands(sem, honored, p, Onto(p, q))
  {
    hide Denote, Sums, ChainSum;
    if Sums(honored, p) {
      assert Sums(honored, p.input) by { InputSums(honored, p); }
      OntoRows(sem, honored, p, q);
      OntoSums(honored, p, q);
    }
  }

  lemma InputSums(honored: bool, p: Plan)
    requires Unary(p) && Sums(honored, p)
    ensures Sums(honored, p.input)
  {
  }

  lemma {:induction false} InputsKeep(rule: Rule, sem: Semantics, honored: bool, p: Plan)
    requires JoinSafe(p)
    ensures Stands(sem, honored, p, OrElse(OptimizeInputs(rule, p), p))
    decreases Size(p), 1
  {
    hide Denote, Stands, Quiet;
    if Unary(p) {
      UnaryInputs(rule, p);
      StandsItself(sem, honored, p);
      RecursionKeeps(rule, sem, honored, p.input);
      if OptimizeRecursively(rule, p.input).Some? {
        OntoKeeps(sem, honored, p, OptimizeRecursively(rule, p.input).value);
      }
    } else {
      if p.Join? {
        JoinInputs(rule, p);
        QuietStays(rule, p.left);
        QuietStays(rule, p.right);
      } else {
        LeafInputs(rule, p);
      }
      StandsItself(sem, honored, p);
    }
  }

  lemma StandsItself(sem: Semantics, honored: bool, p: Plan)
    requires JoinSafe(p)
    ensures Stands(sem, honored, p, p)
  {
  }

  lemma StandsTransitive(sem: Semantics, honored: bool, p: Plan, q: Plan, r: Plan)
    requires Stands(sem, honored, p, q) && Stands(sem, honored, q, r)
    ensures Stands(sem, honored, p, r)
  {
    hide Denote, Sums, ChainSum, JoinSafe, Base, Schema;
  }

  /** Applying one rule all over a plan keeps its rows and its schema. */
  lemma {:induction false} RecursionKeeps(rule: Rule, sem: Semantics, honored: bool, p: Plan)
    requires JoinSafe(p)
    ensures Stands(sem, honored, p, OrElse(OptimizeRecursively(rule, p), p))
    decreases Size(p), 2
  {
    hide Denote, JoinSafe, Sums, ChainSum;
    match Order(rule)
    case TopDown =>
      TryKeeps(rule, sem, honored, p);
      TrySmaller(rule, p);
      var p' := OrElse(Try(rule, p), p);
      InputsKeep(rule, sem, honored, p');
      StandsTransitive(sem, honored, p, p', OrElse(OptimizeInputs(rule, p'), p'));
    case BottomUp =>
      InputsKeep(rule, sem, honored, p);
      var p' := OrElse(OptimizeInputs(rule, p), p);
      TryKeeps(rule, sem, honored, p');
      StandsTransitive(sem, honored, p, p', OrElse(Try(rule, p'), p'));
  }

  // ---- passes ---------------------------------------------------------------------------------

  /** One rule applied all over. */
  function App(rule: Rule, p: Plan): Plan { OrElse(OptimizeRecursively(rule, p), p) }

  function Round(rules: seq<Rule>, p: Plan): Plan {
    if rules == [] then p else Round(rules[1..], App(rules[0], p))
  }

  function Rounds(rules: seq<Rule>, passes: nat, p: Plan): Plan {
    if passes == 0 then p else Round(rules, Rounds(rules, passes - 1, p))
  }

  const RULES: seq<Rule> := [EliminateLimit, MergeLimit, PushDownLimit]

  const MAX_PASSES: nat := 3

  lemma {:induction false} RoundKeeps(sem: Semantics, honored: bool, rules: seq<Rule>, p: Plan)
    requires JoinSafe(p)
    ensures Stands(sem, honored, p, Round(rules, p))
    decreases |rules|
  {
    hide Denote, Sums, ChainSum;
    if rules == [] {
      StandsItself(sem, honored, p);
    } else {
      RecursionKeeps(rules[0], sem, honored, p);
      RoundKeeps(sem, honored, rules[1..], App(rules[0], p));
      StandsTransitive(sem, honored, p, App(rules[0], p), Round(rules, p));
    }
  }

  /** Any rules, any number of passes. */
  lemma {:induction false} RoundsKeep(sem: Semantics, honored: bool, rules: seq<Rule>, passes: nat, p: Plan)
    requires JoinSafe(p)
    ensures Stands(sem, honored, p, Rounds(rules, passes, p))
  {
    hide Denote, Sums, ChainSum;
    if passes == 0 {
      StandsItself(sem, honored, p);
    } else {
      RoundsKeep(sem, honored, rules, passes - 1, p);
      RoundKeeps(sem, honored, rules, Rounds(rules, passes - 1, p));
      StandsTransitive(sem, honored, p, Rounds(rules, passes - 1, p), Rounds(rules, passes, p));
    }
  }

  // ---- rules over the nodes of a plan -----------------------------------------------------------

  /** A rule changes no node but limits; other nodes stay over their rewritten input. */
  lemma UnaryKept(rule: Rule, p: Plan)
    requires Unary(p) && !p.Limit?
    ensures App(rule, p) == Onto(p, App(rule, p.input)) && !App(rule, p).Limit?
  {
    TryExact(rule, p);
    UnaryInputs(rule, p);
    TryExact(rule, OrElse(OptimizeInputs(rule, p), p));
  }

  lemma LeafKept(rule: Rule, p: Plan)
    requires !Unary(p) && !p.Join?
    ensures App(rule, p) == p
  {
    TryExact(rule, p);
    LeafInputs(rule, p);
  }

  /** A join is left alone exactly when the rule has no work below it; otherwise its right input is lost. */
  lemma JoinExact(rule: Rule, p: Plan)
    requires p.Join?
    ensures App(rule, p) ==
            if !HasRedex(rule, p.left) && !HasRedex(rule, p.right) then p
            else Join(p.joinType, p.condition, p.joinSchema, App(rule, p.left), App(rule, p.left))
  {
    hide HasRedex;
    RewritesExact(rule, p.left);
    RewritesExact(rule, p.right);
    JoinInputs(rule, p);
    TryExact(rule, p);
    TryExact(rule, OrElse(OptimizeInputs(rule, p), p));
  }

  // ---- two passes suffice -----------------------------------------------------------------------

  lemma RootKept(rule: Rule, p: Plan)
    requires JoinSafe(p) && !p.Limit?
    ensures App(rule, p) == if Unary(p) then Onto(p, App(rule, p.input)) else p
    ensures !App(rule, p).Limit?
  {
    if Unary(p) {
      UnaryKept(rule, p);
    } else if p.Join? {
      JoinExact(rule, p);
    } else {
      LeafKept(rule, p);
    }
  }

  lemma EliminateAtLimit(p: Plan)
    requires p.Limit?
    ensures var p' := Limit(p.limit, p.offset, App(EliminateLimit, p.input));
            App(EliminateLimit, p) == OrElse(TryEliminate(p'), p')
  {
    UnaryInputs(EliminateLimit, p);
  }

  lemma TopDownAtLimit(rule: Rule, p: Plan)
    requires p.Limit? && Order(rule) == TopDown && OrElse(Try(rule, p), p).Limit?
    ensures var p' := OrElse(Try(rule, p), p);
            App(rule, p) == Limit(p'.limit, p'.offset, App(rule, p'.input))
  {
    UnaryInputs(rule, OrElse(Try(rule, p), p));
  }

  lemma {:induction false} EliminateClears(p: Plan)
    requires JoinSafe(p)
    ensures !HasRedex(EliminateLimit, App(EliminateLimit, p))
  {
    hide App;
    if p.Limit? {
      EliminateClears(p.input);
      EliminateAtLimit(p);
      TryExact(EliminateLimit, App(EliminateLimit, p.input));
    } else {
      RootKept(EliminateLimit, p);
      if Unary(p) {
        EliminateClears(p.input);
      }
    }
  }

  /** Eliminating limits makes no new work for the other two rules. */
  lemma {:induction false} EliminateAddsNone(p: Plan)
    requires JoinSafe(p) && !HasRedex(MergeLimit, p) && !HasRedex(PushDownLimit, p)
    ensures !HasRedex(MergeLimit, App(EliminateLimit, p)) && !HasRedex(PushDownLimit, App(EliminateLimit, p))
  {
    hide App;
    if p.Limit? {
      var c := p.input;
      EliminateAddsNone(c);
      EliminateAtLimit(p);
      EliminateClears(c);
      RootKept(EliminateLimit, c);
      TryExact(EliminateLimit, App(EliminateLimit, c));
      if c.Sort? { assert App(EliminateLimit, c).sortLimit == c.sortLimit; }
    } else {
      RootKept(EliminateLimit, p);
      if Unary(p) {
        EliminateAddsNone(p.input);
      }
    }
  }

  /** A chain of limits is merged to its end at once. */
  lemma {:induction false} MergedFlat(p: Plan)
    requires p.Limit? && JoinSafe(p)
    ensures var p' := OrElse(TryMerge(p), p);
            p'.Limit? && !p'.input.Limit? && Size(p') <= Size(p) && JoinSafe(p')
    decreases Size(p)
  {
    if p.input.Limit? {
      MergeStep(p);
      var merged := MergedOnce(p);
      assert Size(p) == Size(p.input) + 2 == Size(p.input.input) + 4 && Size(merged) == Size(p.input.input) + 2;
      assert JoinSafe(p.input) && JoinSafe(p.input.input) && JoinSafe(merged);
      MergedFlat(merged);
    }
  }

  lemma {:induction false} MergeClears(p: Plan)
    requires JoinSafe(p)
    ensures !HasRedex(MergeLimit, App(MergeLimit, p))
    decreases Size(p)
  {
    hide App;
    if p.Limit? {
      MergedFlat(p);
      var p' := OrElse(TryMerge(p), p);
      assert Try(MergeLimit, p) == TryMerge(p);
      TopDownAtLimit(MergeLimit, p);
      assert JoinSafe(p'.input) && Size(p') == Size(p'.input) + 2;
      RootKept(MergeLimit, p'.input);
      MergeClears(p'.input);
    } else {
      RootKept(MergeLimit, p);
      if Unary(p) {
        assert Size(p) == Size(p.input) + 2;
        MergeClears(p.input);
      }
    }
  }

  lemma {:induction false} PushDownClears(p: Plan)
    requires JoinSafe(p) && !HasRedex(MergeLimit, p)
    ensures !HasRedex(MergeLimit, App(PushDownLimit, p)) && !HasRedex(PushDownLimit, App(PushDownLimit, p))
    decreases Size(p)
  {
    hide App;
    if p.Limit? {
      var p' := OrElse(TryPushDown(p), p);
      TryExact(PushDownLimit, p);
      assert Try(PushDownLimit, p) == TryPushDown(p);
      TopDownAtLimit(PushDownLimit, p);
      PushedOnce(p);
      RootKept(PushDownLimit, p'.input);
      PushDownClears(p'.input);
      var c := App(PushDownLimit, p'.input);
      if p'.input.Sort? { assert c.Sort? && c.sortLimit == p'.input.sortLimit; }
    } else {
      RootKept(PushDownLimit, p);
      if Unary(p) {
        assert Size(p) == Size(p.input) + 2;
        PushDownClears(p.input);
      }
    }
  }

  lemma PushedOnce(p: Plan)
    requires p.Limit? && JoinSafe(p) && !HasRedex(MergeLimit, p)
    ensures var p' := OrElse(TryPushDown(p), p);
            && p'.Limit? && !Redex(PushDownLimit, p') && Size(p'.input) < Size(p)
            && JoinSafe(p'.input) && !p'.input.Limit? && !HasRedex(MergeLimit, p'.input)
            && (p'.input.Sort? <==> p.input.Sort?)
  {
    var c := p.input;
    assert JoinSafe(c) && !HasRedex(MergeLimit, c) && Size(p) == Size(c) + 2;
    if c.Sort? {
      assert JoinSafe(c.input) && !HasRedex(MergeLimit, c.input) && Size(c) == Size(c.input) + 2;
    }
  }

  /** After two passes of the three rules no rule applies anywhere. */
  lemma TwoPassesSuffice(p: Plan)
    requires JoinSafe(p)
    ensures Quiet(Rounds(RULES, 2, p))
  {
    hide App, HasRedex, JoinSafe;
    var p1, p2 := Rounds(RULES, 1, p), Rounds(RULES, 2, p);
    RoundIs(p);
    RoundIs(p1);
    assert Rounds(RULES, 0, p) == p;
    SafeKept(EliminateLimit, p);
    SafeKept(MergeLimit, App(EliminateLimit, p));
    MergeClears(App(EliminateLimit, p));
    var m := App(MergeLimit, App(EliminateLimit, p));
    PushDownClears(m);
    SafeKept(PushDownLimit, m);
    var e := App(EliminateLimit, p1);
    EliminateClears(p1);
    EliminateAddsNone(p1);
    SafeKept(EliminateLimit, p1);
    QuietApp(e);
  }

  lemma RoundIs(p: Plan)
    ensures Round(RULES, p) == App(PushDownLimit, App(MergeLimit, App(EliminateLimit, p)))
  {
    hide App;
    var merge, push: seq<Rule> := [MergeLimit, PushDownLimit], [PushDownLimit];
    assert RULES[1..] == merge && merge[1..] == push && push[1..] == [];
    var e := App(EliminateLimit, p);
    assert Round(push, App(MergeLimit, e)) == App(PushDownLimit, App(MergeLimit, e));
    assert Round(merge, e) == Round(push, App(MergeLimit, e));
  }

  lemma SafeKept(rule: Rule, p: Plan)
    requires JoinSafe(p)
    ensures JoinSafe(App(rule, p))
  {
    hide JoinSafe;
    RecursionKeeps(rule, AnySemantics(), true, p);
  }

  lemma QuietApp(p: Plan)
    requires Quiet(p)
    ensures forall rule :: App(rule, p) == p
  {
    forall rule ensures App(rule, p) == p {
      QuietStays(rule, p);
    }
  }

  /** Further passes change nothing, so optimizing twice is optimizing once. */
  lemma {:induction false} PassesSettle(p: Plan, passes: nat)
    requires JoinSafe(p) && passes >= 2
    ensures Rounds(RULES, passes, p) == Rounds(RULES, 2, p)
  {
    hide App, JoinSafe, Quiet;
    if passes > 2 {
      PassesSettle(p, passes - 1);
      TwoPassesSuffice(p);
      QuietApp(Rounds(RULES, 2, p));
      RoundIs(Rounds(RULES, 2, p));
    }
  }

  ghost function AnySemantics(): Semantics {
    Semantics(_ => [], (_, _) => [], (_, _, _, _) => [], Row([]))
  }
}
