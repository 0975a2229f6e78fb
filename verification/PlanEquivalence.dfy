/** When two plans yield the same rows whatever tables hold and operators compute: a normal form decides it. */
module PlanEquivalence {
  import opened Prelude
  import opened LogicalPlan

  /** A plan with its windows pulled together. Sources, operators and pairings are opaque. */
  datatype Normal =
    | Nothing
    | OneRow
    | Source(leaf: Plan)
    | Operator(node: Plan, input: Normal)
    | Pairing(joinType: nat, condition: nat, left: Normal, right: Normal)
    | Window(limit: Option<nat>, offset: nat, of: Normal)

  predicate Core(n: Normal) { n.Source? || n.Operator? || n.Pairing? }

  /** The window (l, o) cut from what `n` yields. */
  function Cut(l: Option<nat>, o: nat, n: Normal): Normal {
    if l == Some(0) then Nothing
    else if l == None && o == 0 then n
    else
      match n
      case Nothing => Nothing
      case OneRow => if o == 0 then OneRow else Nothing
      case Window(l', o', m) =>
        var w := Within(l, o, l');
        if w == Some(0) then Nothing else Window(w, o' + o, m)
      case _ => Window(l, o, n)
  }

  function Normalize(honored: bool, p: Plan): Normal {
    if p.Limit? then Cut(p.limit, p.offset, Normalize(honored, p.input))
    else if p.Sort? then Cut(if honored then p.sortLimit else None, 0, Operator(Bare(p), Normalize(honored, p.input)))
    else if Unary(p) then Operator(Bare(p), Normalize(honored, p.input))
    else if p.Join? then Pairing(p.joinType, p.condition, Normalize(honored, p.left), Normalize(honored, p.right))
    else if p.EmptyRelation? then if p.produceOneRow then OneRow else Nothing
    else Source(p)
  }

  /** Shapes `Normalize` yields. */
  predicate Proper(n: Normal) {
    match n
    case Nothing => true
    case OneRow => true
    case Source(leaf) => !Unary(leaf) && !leaf.Join? && !leaf.EmptyRelation?
    case Operator(node, input) => Unary(node) && !node.Limit? && Bare(node) == node && Proper(input)
    case Pairing(_, _, left, right) => Proper(left) && Proper(right)
    case Window(l, o, of) => l != Some(0) && !(l == None && o == 0) && Core(of) && Proper(of)
  }

  lemma {:induction false} NormalProper(honored: bool, p: Plan)
    ensures Proper(Normalize(honored, p))
    ensures !p.Limit? ==> Normalize(honored, p).Window? ==> honored && p.Sort?
  {
    if Unary(p) {
      NormalProper(honored, p.input);
      if !p.Limit? { assert Bare(Bare(p)) == Bare(p); }
    } else if p.Join? {
      NormalProper(honored, p.left);
      NormalProper(honored, p.right);
    }
  }

  // ---- a normal form means what its plan means --------------------------------------------------

  function Meaning(sem: Semantics, n: Normal): seq<Row> {
    match n
    case Nothing => []
    case OneRow => [sem.oneRow]
    case Source(leaf) => sem.leaf(leaf)
    case Operator(node, input) => sem.unary(node, Meaning(sem, input))
    case Pairing(t, c, left, right) => sem.join(t, c, Meaning(sem, left), Meaning(sem, right))
    case Window(l, o, of) => Take(l, Drop(o, Meaning(sem, of)))
  }

  lemma CutMeans(sem: Semantics, l: Option<nat>, o: nat, n: Normal)
    ensures Meaning(sem, Cut(l, o, n)) == Take(l, Drop(o, Meaning(sem, n)))
  {
    if n.Window? {
      WindowOfWindow(l, o, n.limit, n.offset, Meaning(sem, n.of));
    }
  }

  lemma {:induction false} NormalMeans(sem: Semantics, honored: bool, p: Plan)
    ensures Meaning(sem, Normalize(honored, p)) == Denote(sem, honored, p)
  {
    hide Cut;
    if Unary(p) {
      NormalMeans(sem, honored, p.input);
      if p.Limit? {
        CutMeans(sem, p.limit, p.offset, Normalize(honored, p.input));
      } else if p.Sort? {
        CutMeans(sem, if honored then p.sortLimit else None, 0, Operator(Bare(p), Normalize(honored, p.input)));
      }
    } else if p.Join? {
      NormalMeans(sem, honored, p.left);
      NormalMeans(sem, honored, p.right);
    }
  }

  // ---- and different normal forms mean different things somewhere -------------------------------

  /** Leaves and bare operators as numbers. */
  function Code(p: Plan): (code: seq<int>)
    ensures |code| == 3
  {
    match p
    case CreateTable(t) => [0, t, 0]
    case CreateIndex(i) => [1, i, 0]
    case Update(u) => [2, u, 0]
    case TableScan(t, s) => [3, t, s]
    case Values(v, s) => [4, v, s]
    case Filter(x, _) => [5, x, 0]
    case Insert(t, _) => [6, t, 0]
    case Project(e, s, _) => [7, e, s]
    case Aggregate(g, s, _) => [8, g, s]
    case Sort(x, _, _) => [9, x, 0]
    case _ => [10, 0, 0]
  }

  /** Rows as numbers, each row behind its length. */
  function Flat(rows: seq<Row>): seq<int> {
    if rows == [] then [] else [|rows[0].cells|] + rows[0].cells + Flat(rows[1..])
  }

  lemma {:induction false} FlatTells(a: seq<Row>, b: seq<Row>)
    requires Flat(a) == Flat(b)
    ensures a == b
  {
    if a != [] && b != [] {
      var x, y := a[0].cells, b[0].cells;
      assert Flat(a)[0] == |x| && Flat(b)[0] == |y|;
      assert Flat(a)[1..1 + |x|] == x && Flat(b)[1..1 + |x|] == y;
      assert Flat(a)[1 + |x|..] == Flat(a[1..]) && Flat(b)[1 + |x|..] == Flat(b[1..]);
      FlatTells(a[1..], b[1..]);
      assert a[0] == b[0];
      assert a == [a[0]] + a[1..] && b == [b[0]] + b[1..];
    }
  }

  function Copies(n: nat, cells: seq<int>): (rows: seq<Row>)
    ensures |rows| == n
  {
    seq(n, i => Row([i] + cells))
  }

  /** Everything yields `n` numbered rows that tell what they were computed from. */
  function Telling(n: nat): Semantics {
    Semantics(p => Copies(n, [0] + Code(p)),
              (p, rows) => Copies(n, [1] + Code(p) + Flat(rows)),
              (t, c, l, r) => Copies(n, [2, t, c, |Flat(l)|] + Flat(l) + Flat(r)),
              Row([-1]))
  }

  /** No window of `n` looks beyond this many rows. */
  function Reach(n: Normal): nat {
    match n
    case Operator(_, input) => Reach(input)
    case Pairing(_, _, left, right) => Reach(left) + Reach(right)
    case Window(l, o, of) => o + (if l.Some? then l.value else 0) + Reach(of)
    case _ => 0
  }

  function Cells(n: nat, core: Normal): seq<int>
    requires Core(core)
  {
    match core
    case Source(leaf) => [0] + Code(leaf)
    case Operator(node, input) => [1] + Code(node) + Flat(Meaning(Telling(n), input))
    case Pairing(t, c, l, r) =>
      var left, right := Flat(Meaning(Telling(n), l)), Flat(Meaning(Telling(n), r));
      [2, t, c, |left|] + left + right
  }

  lemma CoreRows(n: nat, core: Normal)
    requires Core(core)
    ensures Meaning(Telling(n), core) == Copies(n, Cells(n, core))
  {
  }

  function CoreOf(m: Normal): Normal { if m.Window? then m.of else m }
  function LimitOf(m: Normal): Option<nat> { if m.Window? then m.limit else None }
  function OffsetOf(m: Normal): nat { if m.Window? then m.offset else 0 }

  /** The rows of a window tell the window and what it was cut from. */
  lemma WindowSeen(n: nat, m: Normal)
    requires Proper(m) && !m.Nothing? && !m.OneRow? && Reach(m) < n
    ensures var rows, o := Meaning(Telling(n), m), OffsetOf(m);
            && |rows| == (match LimitOf(m) case None => n - o case Some(l) => l)
            && 0 < |rows| && rows[0] == Row([o] + Cells(n, CoreOf(m))) && rows[0] != Row([-1])
            && (LimitOf(m).Some? ==> |rows| < n - o)
  {
    hide Cells, Telling;
    var core, cells := CoreOf(m), Cells(n, CoreOf(m));
    CoreRows(n, core);
    if m.Window? {
      assert Reach(m) == m.offset + (if m.limit.Some? then m.limit.value else 0) + Reach(m.of);
      assert Meaning(Telling(n), m) == Take(m.limit, Drop(m.offset, Copies(n, cells)));
    }
    assert ([OffsetOf(m)] + cells)[0] >= 0;
  }

  /** Cells tell the source, operator or pairing they stem from, and the rows it was given. */
  lemma CellsTell(n: nat, a: Normal, b: Normal)
    requires Core(a) && Core(b) && Proper(a) && Proper(b) && Cells(n, a) == Cells(n, b)
    ensures a.Source? ==> a == b
    ensures a.Operator? ==> b.Operator? && a.node == b.node
                            && Meaning(Telling(n), a.input) == Meaning(Telling(n), b.input)
    ensures a.Pairing? ==> b.Pairing? && a.joinType == b.joinType && a.condition == b.condition
                           && Meaning(Telling(n), a.left) == Meaning(Telling(n), b.left)
                           && Meaning(Telling(n), a.right) == Meaning(Telling(n), b.right)
  {
    hide Meaning, Telling, Flat;
    var x, y := Cells(n, a), Cells(n, b);
    assert x[0] == y[0];
    if a.Source? {
      assert x[1..] == Code(a.leaf) && y[1..] == Code(b.leaf);
      CodeTells(a.leaf, b.leaf);
    } else if a.Operator? {
      assert x[1..4] == Code(a.node) && y[1..4] == Code(b.node);
      CodeTells(a.node, b.node);
      assert x[4..] == Flat(Meaning(Telling(n), a.input)) && y[4..] == Flat(Meaning(Telling(n), b.input));
      FlatTells(Meaning(Telling(n), a.input), Meaning(Telling(n), b.input));
    } else {
      var l, r := Flat(Meaning(Telling(n), a.left)), Flat(Meaning(Telling(n), a.right));
      var l', r' := Flat(Meaning(Telling(n), b.left)), Flat(Meaning(Telling(n), b.right));
      assert x[1] == y[1] && x[2] == y[2] && x[3] == y[3];
      assert x[4..4 + |l|] == l && y[4..4 + |l'|] == l';
      assert x[4 + |l|..] == r && y[4 + |l'|..] == r';
      FlatTells(Meaning(Telling(n), a.left), Meaning(Telling(n), b.left));
      FlatTells(Meaning(Telling(n), a.right), Meaning(Telling(n), b.right));
    }
  }

  /** Leaves have codes of their own, and so have bare operators. */
  lemma CodeTells(p: Plan, q: Plan)
    requires Code(p) == Code(q)
    requires (Unary(p) <==> Unary(q)) && !p.Limit? && !q.Limit? && !p.Join? && !q.Join?
    requires !p.EmptyRelation? && !q.EmptyRelation?
    requires Unary(p) ==> Bare(p) == p && Bare(q) == q
    ensures p == q
  {
    var x, y := Code(p), Code(q);
    assert x[0] == y[0] && x[1] == y[1] && x[2] == y[2];
  }

  /** Where rows tell what they were computed from, equal rows come from equal normal forms. */
  lemma {:induction false} RowsTell(n: nat, a: Normal, b: Normal)
    requires Proper(a) && Proper(b) && Reach(a) < n && Reach(b) < n
    requires Meaning(Telling(n), a) == Meaning(Telling(n), b)
    ensures a == b
  {
    hide Meaning, Telling, Cells, Code;
    Plainest(n);
    if a.Nothing? || a.OneRow? || b.Nothing? || b.OneRow? {
      if !a.Nothing? && !a.OneRow? { WindowSeen(n, a); }
      if !b.Nothing? && !b.OneRow? { WindowSeen(n, b); }
    } else {
      WindowSeen(n, a);
      WindowSeen(n, b);
      var x, y := [OffsetOf(a)] + Cells(n, CoreOf(a)), [OffsetOf(b)] + Cells(n, CoreOf(b));
      assert x[0] == OffsetOf(a) && y[0] == OffsetOf(b);
      assert x[1..] == Cells(n, CoreOf(a)) && y[1..] == Cells(n, CoreOf(b));
      CellsTell(n, CoreOf(a), CoreOf(b));
      match CoreOf(a)
      case Source(_) =>
      case Operator(_, input) => RowsTell(n, input, CoreOf(b).input);
      case Pairing(_, _, left, right) =>
        RowsTell(n, left, CoreOf(b).left);
        RowsTell(n, right, CoreOf(b).right);
    }
  }

  lemma Plainest(n: nat)
    ensures Meaning(Telling(n), Nothing) == [] && Meaning(Telling(n), OneRow) == [Row([-1])]
  {
  }

  /**
   * Two plans yield the same rows whatever their tables hold and their operators compute if and only if they have the
   * same normal form.
   */
  lemma Equivalent(honored: bool, p: Plan, honored': bool, q: Plan)
    ensures (forall sem :: Denote(sem, honored, p) == Denote(sem, honored', q)) <==>
            Normalize(honored, p) == Normalize(honored', q)
  {
    hide Denote, Normalize, Meaning;
    var a, b := Normalize(honored, p), Normalize(honored', q);
    if a == b {
      forall sem ensures Denote(sem, honored, p) == Denote(sem, honored', q) {
        NormalMeans(sem, honored, p);
        NormalMeans(sem, honored', q);
      }
    } else {
      NormalProper(honored, p);
      NormalProper(honored', q);
      var n := Reach(a) + Reach(b) + 1;
      var sem := Telling(n);
      if Meaning(sem, a) == Meaning(sem, b) {
        RowsTell(n, a, b);
      }
      NormalMeans(sem, honored, p);
      NormalMeans(sem, honored', q);
      assert Denote(sem, honored, p) != Denote(sem, honored', q);
    }
  }

  // ---- windows of windows -----------------------------------------------------------------------

  lemma WithinWithin(l: Option<nat>, o: nat, l1: Option<nat>, o1: nat, l2: Option<nat>)
    ensures Within(l, o, Within(l1, o1, l2)) == Within(Within(l, o, l1), o1 + o, l2)
  {
  }

  /** A window of a window is a window. */
  lemma CutCut(l: Option<nat>, o: nat, l': Option<nat>, o': nat, n: Normal)
    requires Proper(n)
    ensures Cut(l, o, Cut(l', o', n)) == Cut(Within(l, o, l'), o' + o, n)
  {
    if n.Window? {
      WithinWithin(l, o, l', o', n.limit);
    }
  }
}
