/** Planning queries (planner/logical_planner): where the limits of a plan come from. */
module LogicalPlanner {
  import opened Prelude
  import opened LogicalPlan

  const MAX_INT64: nat := 0x7FFF_FFFF_FFFF_FFFF

  type int64 = v: int | -0x8000_0000_0000_0000 <= v <= MAX_INT64

  /** A bound LIMIT or OFFSET expression, as far as the planner looks at it. */
  datatype Bound = Int64(value: int64) | OtherLiteral | NotALiteral

  /** Queries over names: expressions, orderings and schemas are what binding them yields. */
  datatype Query = Query(body: SetExpr, orderBy: Option<nat>, limit: Option<Bound>, offset: Option<Bound>)

  datatype SetExpr =
    | Select(from: From, selection: Option<nat>, grouping: Option<(nat, nat)>, projection: nat, schema: nat)
    | Rows(values: nat)

  datatype From =
    | NoTable
    | Table(scan: nat, tableSchema: nat)
    | Derived(query: Query)
    | Joined(joinType: nat, condition: nat, joinSchema: nat, left: From, right: From)

  datatype Statement =
    | CreateTableStatement(table: nat)
    | CreateIndexStatement(index: nat)
    | UpdateStatement(update: nat)
    | InsertStatement(target: nat, projectedSchema: nat, source: Query)
    | QueryStatement(query: Query)

  function PlanStatement(s: Statement): Result<Plan, string> {
    match s
    case CreateTableStatement(t) => Ok(CreateTable(t))
    case CreateIndexStatement(i) => Ok(CreateIndex(i))
    case UpdateStatement(u) => Ok(Update(u))
    case InsertStatement(t, schema, source) => PlanInsert(t, schema, source)
    case QueryStatement(q) => PlanQuery(q)
  }

  /** Only the body of the source query is planned: its ordering and its limit are dropped. */
  function PlanInsert(target: nat, schema: nat, source: Query): Result<Plan, string> {
    match PlanSetExpr(source.body)
    case Err(e) => Err(e)
    case Ok(input) => Ok(Insert(target, if input.Values? then Values(input.values, schema) else input))
  }

  function PlanQuery(q: Query): Result<Plan, string> {
    match PlanSetExpr(q.body)
    case Err(e) => Err(e)
    case Ok(body) => PlanLimit(PlanOrderBy(body, q.orderBy), q.limit, q.offset)
  }

  function PlanOrderBy(input: Plan, orderBy: Option<nat>): Plan {
    match orderBy
    case None => input
    case Some(exprs) => Sort(exprs, None, input)
  }

  function PlanLimit(input: Plan, limit: Option<Bound>, offset: Option<Bound>): Result<Plan, string> {
    if limit.None? && offset.None? then Ok(input)
    else
      match PlanBound(limit, "LIMIT must be literal", "LIMIT must not be negative")
      case Err(e) => Err(e)
      case Ok(l) =>
        match PlanBound(offset, "Offset expression not expected", "Offset must be >= 0")
        case Err(e) => Err(e)
        case Ok(o) => Ok(Limit(l, match o case Some(n) => n case None => 0, input))
  }

  function PlanBound(bound: Option<Bound>, unbound: string, negative: string): (r: Result<Option<usize>, string>)
    ensures r.Ok? && r.value.Some? ==> r.value.value <= MAX_INT64
  {
    match bound
    case None => Ok(None)
    case Some(Int64(v)) => if v >= 0 then Ok(Some(v)) else Err(negative)
    case Some(OtherLiteral) => Err(negative)
    case Some(NotALiteral) => Err(unbound)
  }

  function PlanSetExpr(s: SetExpr): Result<Plan, string> {
    match s
    case Rows(v) => Ok(Values(v, EMPTY_SCHEMA))
    case Select(from, selection, grouping, projection, schema) =>
      match PlanFrom(from)
      case Err(e) => Err(e)
      case Ok(table) =>
        var filtered := match selection case None => table case Some(x) => Filter(x, table);
        var grouped := match grouping case None => filtered case Some(g) => Aggregate(g.0, g.1, filtered);
        Ok(Project(projection, schema, grouped))
  }

  function PlanFrom(f: From): Result<Plan, string> {
    match f
    case NoTable => Ok(EmptyRelation(true, EMPTY_SCHEMA))
    case Table(t, schema) => Ok(TableScan(t, schema))
    case Derived(query) => PlanQuery(query)
    case Joined(joinType, condition, schema, left, right) =>
      match PlanFrom(left)
      case Err(e) => Err(e)
      case Ok(l) =>
        match PlanFrom(right)
        case Err(e) => Err(e)
        case Ok(r) => Ok(Join(joinType, condition, schema, l, r))
  }

  /** No limit stands over a limit, limits and offsets are what SQL literals can say, and sorts carry none. */
  predicate Planned(p: Plan) {
    if Unary(p) then
      && Planned(p.input)
      && (p.Limit? ==> !p.input.Limit? && p.offset <= MAX_INT64 && (p.limit.Some? ==> p.limit.value <= MAX_INT64))
      && (p.Sort? ==> p.sortLimit == None)
    else p.Join? ==> Planned(p.left) && Planned(p.right)
  }

  /** Plans of queries, of set expressions (which have no limit on top) and of what stands behind FROM. */
  lemma {:induction false} QueryPlanned(q: Query)
    ensures PlanQuery(q).Ok? ==> Planned(PlanQuery(q).value)
  {
    SetExprPlanned(q.body);
  }

  lemma {:induction false} SetExprPlanned(s: SetExpr)
    ensures PlanSetExpr(s).Ok? ==> Planned(PlanSetExpr(s).value) && !PlanSetExpr(s).value.Limit?
  {
    if s.Select? {
      FromPlanned(s.from);
    }
  }

  lemma {:induction false} FromPlanned(f: From)
    ensures PlanFrom(f).Ok? ==> Planned(PlanFrom(f).value)
  {
    match f
    case Derived(query) => QueryPlanned(query);
    case Joined(_, _, _, left, right) =>
      FromPlanned(left);
      FromPlanned(right);
    case _ =>
  }

  lemma StatementPlanned(s: Statement)
    ensures PlanStatement(s).Ok? ==> Planned(PlanStatement(s).value)
  {
    match s
    case QueryStatement(q) => QueryPlanned(q);
    case InsertStatement(_, _, source) => SetExprPlanned(source.body);
    case _ =>
  }
}
