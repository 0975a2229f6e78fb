/** What planned statements compute, said of the statements themselves (planner/logical_planner). */
module QueryMeaning {
  import opened Prelude
  import opened LogicalPlan
  import opened LogicalPlanner
  import opened LimitRules
  import opened LimitExact

  // ---- which queries can be planned ---------------------------------------------------------------

  /** An absent bound, or an integer literal that is not negative. */
  predicate BoundOk(b: Option<Bound>) { b.Some? ==> b.value.Int64? && b.value.value >= 0 }

  predicate QueryOk(q: Query) { BodyOk(q.body) && BoundOk(q.limit) && BoundOk(q.offset) }

  predicate BodyOk(s: SetExpr) { s.Select? ==> FromOk(s.from) }

  predicate FromOk(f: From) {
    match f
    case Derived(query) => QueryOk(query)
    case Joined(_, _, _, left, right) => FromOk(left) && FromOk(right)
    case _ => true
  }

  // ---- what queries mean --------------------------------------------------------------------------

  /** The number a bound says. */
  function Said(b: Bound): nat { if b.Int64? && b.value >= 0 then b.value else 0 }

  /**
   * A query: its body's rows, in the order asked for, without as many rows as OFFSET says, and of the rest no more than
   * LIMIT says.
   */
  ghost function QueryRows(sem: Semantics, q: Query): seq<Row> {
    var rows := BodyRows(sem, q.body);
    var sorted := match q.orderBy case None => rows case Some(x) => sem.unary(Sort(x, None, PLACEHOLDER), rows);
    var skipped := match q.offset case None => sorted case Some(n) => Drop(Said(n), sorted);
    match q.limit
    case None => skipped
    case Some(n) => if |skipped| <= Said(n) then skipped else skipped[..Said(n)]
  }

  /** A select: the rows of FROM that pass WHERE, grouped, and of those the projections. */
  ghost function BodyRows(sem: Semantics, s: SetExpr): seq<Row> {
    match s
    case Rows(v) => sem.leaf(Values(v, EMPTY_SCHEMA))
    case Select(from, selection, grouping, projection, schema) =>
      var rows := FromRows(sem, from);
      var passed := match selection case None => rows case Some(x) => sem.unary(Filter(x, PLACEHOLDER), rows);
      var grouped := match grouping
                     case None => passed
                     case Some(g) => sem.unary(Aggregate(g.0, g.1, PLACEHOLDER), passed);
      sem.unary(Project(projection, schema, PLACEHOLDER), grouped)
  }

  ghost function FromRows(sem: Semantics, f: From): seq<Row> {
    match f
    case NoTable => [sem.oneRow]
    case Table(t, schema) => sem.leaf(TableScan(t, schema))
    case Derived(query) => QueryRows(sem, query)
    case Joined(joinType, condition, _, left, right) =>
      sem.join(joinType, condition, FromRows(sem, left), FromRows(sem, right))
  }

  // ---- plans compute it ---------------------------------------------------------------------------

  lemma UnaryRows(sem: Semantics, p: Plan)
    requires Unary(p) && !p.Limit? && (p.Sort? ==> p.sortLimit == None)
    ensures Denote(sem, true, p) == sem.unary(Bare(p), Denote(sem, true, p.input))
  {
  }

  /** A query can be planned exactly when its bounds are what they should be, and its plan yields its rows. */
  lemma {:induction false} QueryMeans(sem: Semantics, q: Query)
    ensures PlanQuery(q).Ok? <==> QueryOk(q)
    ensures PlanQuery(q).Ok? ==> Denote(sem, true, PlanQuery(q).value) == QueryRows(sem, q)
  {
    BodyMeans(sem, q.body);
    if PlanSetExpr(q.body).Ok? {
      var body := PlanSetExpr(q.body).value;
      if q.orderBy.Some? { UnaryRows(sem, Sort(q.orderBy.value, None, body)); }
      LimitMeans(sem, PlanOrderBy(body, q.orderBy), q.limit, q.offset);
    }
  }

  lemma LimitMeans(sem: Semantics, p: Plan, limit: Option<Bound>, offset: Option<Bound>)
    ensures PlanLimit(p, limit, offset).Ok? <==> BoundOk(limit) && BoundOk(offset)
    ensures PlanLimit(p, limit, offset).Ok? ==>
              var rows := Denote(sem, true, p);
              var skipped := match offset case None => rows case Some(n) => Drop(Said(n), rows);
              Denote(sem, true, PlanLimit(p, limit, offset).value) ==
              match limit
              case None => skipped
              case Some(n) => if |skipped| <= Said(n) then skipped else skipped[..Said(n)]
  {
    var rows := Denote(sem, true, p);
    assert Drop(0, rows) == rows;
    if PlanLimit(p, limit, offset).Ok? && (limit.Some? || offset.Some?) {
      var l := if limit.Some? then Some(Said(limit.value)) else None;
      var o := if offset.Some? then Said(offset.value) else 0;
      assert Denote(sem, true, PlanLimit(p, limit, offset).value) == Take(l, Drop(o, rows));
    }
  }

  lemma {:induction false} BodyMeans(sem: Semantics, s: SetExpr)
    ensures PlanSetExpr(s).Ok? <==> BodyOk(s)
    ensures PlanSetExpr(s).Ok? ==> Denote(sem, true, PlanSetExpr(s).value) == BodyRows(sem, s)
  {
    if s.Select? {
      FromMeans(sem, s.from);
      if PlanFrom(s.from).Ok? {
        var table := PlanFrom(s.from).value;
        var filtered := match s.selection case None => table case Some(x) => Filter(x, table);
        var grouped := match s.grouping case None => filtered case Some(g) => Aggregate(g.0, g.1, filtered);
        if s.selection.Some? { UnaryRows(sem, filtered); }
        if s.grouping.Some? { UnaryRows(sem, grouped); }
        UnaryRows(sem, Project(s.projection, s.schema, grouped));
      }
    }
  }

  lemma {:induction false} FromMeans(sem: Semantics, f: From)
    ensures PlanFrom(f).Ok? <==> FromOk(f)
    ensures PlanFrom(f).Ok? ==> Denote(sem, true, PlanFrom(f).value) == FromRows(sem, f)
  {
    match f
    case Derived(query) => QueryMeans(sem, query);
    case Joined(_, _, _, left, right) =>
      FromMeans(sem, left);
      FromMeans(sem, right);
    case _ =>
  }

  /**
   * What an INSERT puts in is its source's body, whatever order, limit and offset the source asks for: the bounds are
   * not even looked at.
   */
  lemma InsertMeans(sem: Semantics, target: nat, schema: nat, source: Query)
    ensures var plan := PlanStatement(InsertStatement(target, schema, source));
            && (plan.Ok? <==> BodyOk(source.body))
            && (plan.Ok? ==>
                  && plan.value.Insert? && plan.value.target == target
                  && Denote(sem, true, plan.value.input) ==
                     if source.body.Rows? then sem.leaf(Values(source.body.values, schema))
                     else BodyRows(sem, source.body))
  {
    BodyMeans(sem, source.body);
  }

  /**
   * Of every query that can be planned: its plan, optimized and run, yields the query's rows, whatever operators
   * compute, if and only if every join that shows has nothing to rewrite below it or the same rows on both sides.
   */
  lemma QueryAnswered(q: Query)
    requires QueryOk(q)
    ensures PlanQuery(q).Ok?
    ensures var p := PlanQuery(q).value;
            (forall sem :: Denote(sem, false, Rounds(RULES, MAX_PASSES, p)) == QueryRows(sem, q)) <==>
            JoinsKept(RULES, p)
  {
    hide Denote, QueryRows, JoinsKept, Rounds;
    forall sem ensures PlanQuery(q).Ok? && Denote(sem, true, PlanQuery(q).value) == QueryRows(sem, q) {
      QueryMeans(sem, q);
    }
    QueryMeans(AnySemantics(), q);
    StatementExact(QueryStatement(q));
  }
}
