/** Logical query plans (planner/logical_plan/mod.rs) and the rows they denote. */
module LogicalPlan {
  import opened Prelude

  datatype Row = Row(cells: seq<int>)

  const USIZE: nat := 0x1_0000_0000_0000_0000

  /** The machine's counting type. */
  type usize = n: nat | n < USIZE

  /** Expressions, tables, schemas and the like are names; what they mean is a parameter (`Semantics`). */
  datatype Plan =
    | CreateTable(table: nat)
    | CreateIndex(index: nat)
    | Update(update: nat)
    | TableScan(scan: nat, tableSchema: nat)
    | Values(values: nat, valuesSchema: nat)
    | EmptyRelation(produceOneRow: bool, emptySchema: nat)
    | Filter(predicate_: nat, input: Plan)
    | Insert(target: nat, input: Plan)
    | Project(exprs: nat, projectSchema: nat, input: Plan)
    | Aggregate(groups: nat, aggregateSchema: nat, input: Plan)
    | Sort(orderBy: nat, sortLimit: Option<usize>, input: Plan)
    | Limit(limit: Option<usize>, offset: usize, input: Plan)
    | Join(joinType: nat, condition: nat, joinSchema: nat, left: Plan, right: Plan)

  const EMPTY_SCHEMA: nat := 0
  const INSERT_OUTPUT_SCHEMA: nat := 1
  const UPDATE_OUTPUT_SCHEMA: nat := 2

  function Schema(p: Plan): nat {
    match p
    case CreateTable(_) => EMPTY_SCHEMA
    case CreateIndex(_) => EMPTY_SCHEMA
    case Update(_) => UPDATE_OUTPUT_SCHEMA
    case TableScan(_, s) => s
    case Values(_, s) => s
    case EmptyRelation(_, s) => s
    case Filter(_, input) => Schema(input)
    case Insert(_, _) => INSERT_OUTPUT_SCHEMA
    case Project(_, s, _) => s
    case Aggregate(_, s, _) => s
    case Sort(_, _, input) => Schema(input)
    case Limit(_, _, input) => Schema(input)
    case Join(_, _, s, _, _) => s
  }

  predicate Unary(p: Plan) { p.Filter? || p.Insert? || p.Project? || p.Aggregate? || p.Sort? || p.Limit? }

  function Inputs(p: Plan): seq<Plan> {
    if Unary(p) then [p.input] else if p.Join? then [p.left, p.right] else []
  }

  /** The node over new inputs. For a join the code takes the first input for both sides. */
  function WithNewInputs(p: Plan, inputs: seq<Plan>): Result<Plan, string> {
    if !Unary(p) && !p.Join? then Ok(p)
    else if inputs == [] then Err("inputs should have at least one")
    else
      Ok(match p
         case Filter(x, _) => Filter(x, inputs[0])
         case Insert(x, _) => Insert(x, inputs[0])
         case Project(x, s, _) => Project(x, s, inputs[0])
         case Aggregate(x, s, _) => Aggregate(x, s, inputs[0])
         case Sort(x, l, _) => Sort(x, l, inputs[0])
         case Limit(l, o, _) => Limit(l, o, inputs[0])
         case Join(t, c, s, _, _) => Join(t, c, s, inputs[0], inputs[0])
         case other => other)
  }

  // ---- meaning --------------------------------------------------------------------------------

  /** What scans, operators and joins compute. `unary` sees the node over an empty placeholder input. */
  datatype Semantics = Semantics(
    leaf: Plan -> seq<Row>,
    unary: (Plan, seq<Row>) -> seq<Row>,
    join: (nat, nat, seq<Row>, seq<Row>) -> seq<Row>,
    oneRow: Row)

  function Take<T>(limit: Option<nat>, rows: seq<T>): seq<T> {
    match limit
    case None => rows
    case Some(n) => if n <= |rows| then rows[..n] else rows
  }

  function Drop<T>(offset: nat, rows: seq<T>): seq<T> {
    if offset <= |rows| then rows[offset..] else []
  }

  const PLACEHOLDER: Plan := EmptyRelation(false, EMPTY_SCHEMA)

  /** The node alone, without its input. */
  function Bare(p: Plan): Plan
    requires Unary(p)
  {
    match p
    case Filter(x, _) => Filter(x, PLACEHOLDER)
    case Insert(x, _) => Insert(x, PLACEHOLDER)
    case Project(x, s, _) => Project(x, s, PLACEHOLDER)
    case Aggregate(x, s, _) => Aggregate(x, s, PLACEHOLDER)
    case Sort(x, _, _) => Sort(x, None, PLACEHOLDER)
    case Limit(l, o, _) => Limit(l, o, PLACEHOLDER)
  }

  /** One operator over its input rows. `honored` says whether sorting obeys a limit in the Sort node. */
  function Over(sem: Semantics, honored: bool, p: Plan, rows: seq<Row>): seq<Row>
    requires Unary(p)
  {
    match p
    case Limit(l, o, _) => Take(l, Drop(o, rows))
    case Sort(_, l, _) => var sorted := sem.unary(Bare(p), rows); if honored then Take(l, sorted) else sorted
    case _ => sem.unary(Bare(p), rows)
  }

  function Denote(sem: Semantics, honored: bool, p: Plan): seq<Row> {
    if Unary(p) then Over(sem, honored, p, Denote(sem, honored, p.input))
    else
      match p
      case Join(t, c, _, l, r) => sem.join(t, c, Denote(sem, honored, l), Denote(sem, honored, r))
      case EmptyRelation(one, _) => if one then [sem.oneRow] else []
      case leaf => sem.leaf(leaf)
  }

  predicate NoSortLimits(p: Plan) {
    if Unary(p) then (p.Sort? ==> p.sortLimit == None) && NoSortLimits(p.input)
    else p.Join? ==> NoSortLimits(p.left) && NoSortLimits(p.right)
  }

  /** Where no Sort carries a limit it does not matter whether such limits are obeyed. */
  lemma {:induction false} SortLimitsIdle(sem: Semantics, p: Plan)
    requires NoSortLimits(p)
    ensures Denote(sem, true, p) == Denote(sem, false, p)
  {
    if Unary(p) {
      SortLimitsIdle(sem, p.input);
    } else if p.Join? {
      SortLimitsIdle(sem, p.left);
      SortLimitsIdle(sem, p.right);
    }
  }

  /** A window of a window is a window. */
  lemma WindowOfWindow(l: Option<nat>, o: nat, l': Option<nat>, o': nat, rows: seq<Row>)
    ensures Take(l, Drop(o, Take(l', Drop(o', rows)))) == Take(Within(l, o, l'), Drop(o' + o, rows))
  {
    var inner := Drop(o', rows);
    assert Drop(o, inner) == Drop(o' + o, rows);
    if l'.Some? {
      assert Drop(o, Take(l', inner)) == Take(Some(if l'.value >= o then l'.value - o else 0), Drop(o, inner));
    }
  }

  /** The limit left when a window (l, o) is cut from the first l' rows. */
  function Within(l: Option<nat>, o: nat, l': Option<nat>): Option<nat> {
    match l'
    case None => l
    case Some(n') =>
      var left := if n' >= o then n' - o else 0;
      match l
      case None => Some(left)
      case Some(n) => Some(if n <= left then n else left)
  }

  /** Cutting the rows short below a window that never reaches beyond changes nothing. */
  lemma WindowCut(n: nat, o: nat, l: Option<nat>, m: nat, rows: seq<Row>)
    requires m == match l case None => o + n case Some(k) => if k <= o + n then k else o + n
    ensures Take(Some(n), Drop(o, Take(Some(m), rows))) == Take(Some(n), Drop(o, Take(l, rows)))
  {
  }
}
