/** The plans the logical plan generator builds for SELECT and DELETE. */
module GeneratedPlans {
  import opened Common
  import opened Expressions
  import opened ValueMeaning
  import opened LogicalPlan

  datatype FilterObj = Attr(table: string, field: string, fieldType: AttrType) | Const(value: Value)

  datatype FilterUnitRaw = FilterUnitRaw(comp: CompOp, left: FilterObj, right: FilterObj)

  /** FilterStmt::create_filter_unit refuses every operator outside the six comparisons. */
  type FilterUnit = u: FilterUnitRaw | !u.comp.NoOp? witness FilterUnitRaw(EqualTo, Const(Undef), Const(Undef))

  function ObjExpr(o: FilterObj): Expr {
    match o
    case Attr(t, f, ty) => Field(t, f, ty)
    case Const(v) => ValueExpr(v)
  }

  function UnitExpr(u: FilterUnit): Expr {
    Comparison(u.comp, ObjExpr(u.left), ObjExpr(u.right))
  }

  /** No data type converts to another at a finite cost, so two different types cannot be compared. */
  function ImplicitCastCost(from: AttrType, to: AttrType): int32 {
    if from == to then 0 else INT32_MAX
  }

  predicate Comparable(u: FilterUnit) {
    ImplicitCastCost(ObjExpr(u.left).ValueType(), ObjExpr(u.right).ValueType()) != INT32_MAX
  }

  function UnitExprs(units: seq<FilterUnit>): (es: seq<Expr>)
    ensures |es| == |units|
    ensures forall i :: 0 <= i < |es| ==> es[i] == UnitExpr(units[i])
  {
    if units == [] then [] else UnitExprs(units[..|units| - 1]) + [UnitExpr(units[|units| - 1])]
  }

  // ---- what a condition means --------------------------------------------------------------------

  /** A side of a condition has the value on the row. */
  ghost predicate SideIs(o: FilterObj, row: Row, v: Value) {
    match o
    case Attr(t, f, _) => HasValue(row, t, f, v)
    case Const(c) => v == c
  }

  /** The left side stands in the relation to the right side. */
  ghost predicate Holds(u: FilterUnit, row: Row) {
    exists l, r :: SideIs(u.left, row, l) && SideIs(u.right, row, r) && Related(u.comp, l, r)
  }

  ghost predicate Satisfies(row: Row, units: seq<FilterUnit>) {
    forall i :: 0 <= i < |units| ==> Holds(units[i], row)
  }

  lemma {:induction false} SideMeans(o: FilterObj, row: Row)
    ensures forall v :: Eval(ObjExpr(o), row) == Ok(v) <==> SideIs(o, row, v)
  {
    if o.Attr? { FindCellExact(row, o.table, o.field); }
  }

  /** What the comparison built for a condition finds is the relation between what its sides stand for. */
  lemma {:induction false} UnitMeans(u: FilterUnit, row: Row)
    ensures EvalTruth(UnitExpr(u), row) == Ok(true) <==> Holds(u, row)
  {
    SideMeans(u.left, row);
    SideMeans(u.right, row);
    var l, r := Eval(ObjExpr(u.left), row), Eval(ObjExpr(u.right), row);
    if l.Ok? && r.Ok? {
      CompareIsRelated(u.comp, l.value, r.value);
      assert SideIs(u.left, row, l.value) && SideIs(u.right, row, r.value);
    }
  }

  lemma {:induction false} UnitsMean(units: seq<FilterUnit>, row: Row)
    ensures EvalConjuncts(AND, UnitExprs(units), row) == Ok(true) <==> Satisfies(row, units)
  {
    AndIsAll(UnitExprs(units), row);
    forall i | 0 <= i < |units| ensures EvalTruth(UnitExprs(units)[i], row) == Ok(true) <==> Holds(units[i], row) {
      UnitMeans(units[i], row);
    }
  }

  // ---- generating ----------------------------------------------------------------------------------

  /** The predicate operator, still without a child: none when there is no condition. */
  function FilterOperator(units: seq<FilterUnit>, input: seq<Plan>): seq<Plan> {
    if units == [] then input else [Plan(Predicate, [Conjunction(AND, UnitExprs(units))], input)]
  }

  method CreateFilter(units: seq<FilterUnit>, input: seq<Plan>) returns (rc: RC, body: seq<Plan>)
    ensures rc == if forall u <- units :: Comparable(u) then SUCCESS else UNSUPPORTED
    ensures rc == SUCCESS ==> body == FilterOperator(units, input)
    ensures rc == SUCCESS && units != [] ==>
              && |body| == 1 && body[0].kind.Predicate? && |body[0].expressions| == 1 && body[0].children == input
              && forall row :: EvalTruth(body[0].expressions[0], row) == Ok(true) <==> Satisfies(row, units)
  {
    var cmpExprs: seq<Expr> := [];
    for i := 0 to |units|
      invariant cmpExprs == UnitExprs(units[..i])
      invariant forall u <- units[..i] :: Comparable(u)
    {
      var left, right := ObjExpr(units[i].left), ObjExpr(units[i].right);
      if left.ValueType() != right.ValueType() {
        assert !Comparable(units[i]) && units[i] in units;
        return UNSUPPORTED, [];
      }
      cmpExprs := cmpExprs + [Comparison(units[i].comp, left, right)];
      assert units[..i + 1] == units[..i] + [units[i]];
    }
    assert units[..|units|] == units;
    rc, body := SUCCESS, input;
    if |cmpExprs| > 0 {
      body := [Plan(Predicate, [Conjunction(AND, cmpExprs)], input)];
      forall row ensures EvalTruth(Conjunction(AND, cmpExprs), row) == Ok(true) <==> Satisfies(row, units) {
        UnitsMean(units, row);
      }
    }
  }

  function TableGetOperator(table: string): Plan {
    Plan(TableGet(table, []), [], [])
  }

  /** A left-deep tree of joins over the tables, in order. */
  function JoinTree(tables: seq<string>): (j: seq<Plan>)
    ensures |j| <= 1
    ensures tables != [] ==> |j| == 1
  {
    if tables == [] then []
    else
      var rest, get := JoinTree(tables[..|tables| - 1]), TableGetOperator(tables[|tables| - 1]);
      if rest == [] then [get] else [Plan(Join, [], [rest[0], get])]
  }

  method CreateJoinTree(tables: seq<string>) returns (tableOper: seq<Plan>)
    ensures tableOper == JoinTree(tables)
  {
    tableOper := [];
    for i := 0 to |tables|
      invariant tableOper == JoinTree(tables[..i])
    {
      var get := TableGetOperator(tables[i]);
      if |tableOper| == 0 {
        tableOper := [get];
      } else {
        tableOper := [Plan(Join, [], [tableOper[0], get])];
      }
      assert tables[..i + 1][..i] == tables[..i];
    }
    assert tables[..|tables|] == tables;
  }

  /** An operator that sits above the predicate: a projection, a grouping, or a delete. */
  datatype Upper = Upper(kind: Kind, expressions: seq<Expr>)

  /** The operators `uppers`, outermost first, on top of at most one plan. */
  function Build(uppers: seq<Upper>, body: seq<Plan>): Plan
    requires uppers != []
  {
    Plan(uppers[0].kind, uppers[0].expressions, if |uppers| == 1 then body else [Build(uppers[1..], body)])
  }

  /** A bound SELECT; the aggregates are the SUMs collected from the query expressions, by their argument. */
  datatype SelectStmt = SelectStmt(
    tables: seq<string>, units: seq<FilterUnit>, queryExpressions: seq<Expr>, groupBy: seq<Expr>, aggregates: seq<Expr>)

  /** A grouping operator is needed when there is a GROUP BY or an aggregate. */
  function SelectUppers(s: SelectStmt): seq<Upper> {
    [Upper(Projection, s.queryExpressions)] +
    if s.groupBy == [] && s.aggregates == [] then [] else [Upper(GroupBy(s.groupBy, s.aggregates), [])]
  }

  // ---- columns that are neither grouped nor aggregated ------------------------------------------

  /** Expression::equal. The types play no part, and constants are equal if they compare as 0. */
  predicate SameExpr(e: Expr, other: Expr) {
    match (e, other)
    case (Field(t, f, _), Field(t', f', _)) => t == t' && f == f'
    case (ValueExpr(v), ValueExpr(v')) => Compare(v, v') == Some(0)
    case (Arithmetic(op, l, r), Arithmetic(op', l', r')) => op == op' && SameExpr(l, l') && SameExpr(r, r')
    case _ => false
  }

  /** An expression of columns, numbers, strings and arithmetic. */
  predicate IsArithmetic(e: Expr) {
    match e
    case Field(_, _, _) => true
    case ValueExpr(v) => v.Int? || v.Str? || v.Float?
    case Arithmetic(_, l, r) => IsArithmetic(l) && IsArithmetic(r)
    case _ => false
  }

  predicate HasFloat(e: Expr) {
    match e
    case ValueExpr(v) => v.Float?
    case Arithmetic(_, l, r) => HasFloat(l) || HasFloat(r)
    case _ => false
  }

  /** The expression with its column types forgotten. */
  function Untyped(e: Expr): Expr {
    match e
    case Field(t, f, _) => Field(t, f, Undefined)
    case Arithmetic(op, l, r) => Arithmetic(op, Untyped(l), Untyped(r))
    case _ => e
  }

  /** Without float constants, expressions count as equal exactly if they are, column types apart. */
  lemma {:induction false} SameExprExactly(e: Expr, other: Expr)
    requires !HasFloat(e)
    ensures SameExpr(e, other) <==> IsArithmetic(e) && Untyped(e) == Untyped(other)
  {
    match (e, other)
    case (ValueExpr(v), ValueExpr(v')) => if v.Str? && v'.Str? { CompareStringExact(v.s, v'.s); }
    case (Arithmetic(_, l, r), Arithmetic(_, l', r')) =>
      SameExprExactly(l, l');
      SameExprExactly(r, r');
    case _ =>
  }

  predicate IsGrouped(e: Expr, groupBy: seq<Expr>) {
    exists i :: 0 <= i < |groupBy| && SameExpr(e, groupBy[i])
  }

  /** An aggregate stands in the expression as the column of the group row that holds its sum, which has no table. */
  predicate IsAggregate(e: Expr) {
    e.Field? && e.table == ""
  }

  function SubExprs(e: Expr): seq<Expr> {
    match e
    case Field(_, _, _) => []
    case ValueExpr(_) => []
    case Cast(c, _) => [c]
    case Comparison(_, l, r) => [l, r]
    case Conjunction(_, cs) => cs
    case Arithmetic(_, l, r) => [l, r]
  }

  /** Some column occurs outside every aggregate and every grouped expression. */
  predicate HasUnboundColumn(e: Expr, groupBy: seq<Expr>) {
    !IsAggregate(e) && !IsGrouped(e, groupBy) && (e.Field? || exists c <- SubExprs(e) :: HasUnboundColumn(c, groupBy))
  }

  /** The parts of e that count as grouped are grouping expressions to the letter. */
  predicate IsLiterallyGrouped(e: Expr, groupBy: seq<Expr>) {
    && (forall i :: 0 <= i < |groupBy| && SameExpr(e, groupBy[i]) ==> e == groupBy[i])
    && (forall c <- SubExprs(e) :: IsLiterallyGrouped(c, groupBy))
  }

  /** The rows agree on every grouping expression and every aggregate. */
  ghost predicate SameGroup(a: Row, b: Row, groupBy: seq<Expr>) {
    && (forall g <- groupBy :: Eval(g, a) == Eval(g, b))
    && (forall f :: FindCell(a, "", f) == FindCell(b, "", f))
  }

  /** What the check is for: a query expression that passes it has one value for the whole group. */
  lemma {:induction false} BoundIsDetermined(e: Expr, groupBy: seq<Expr>, a: Row, b: Row)
    requires !HasUnboundColumn(e, groupBy) && IsLiterallyGrouped(e, groupBy) && SameGroup(a, b, groupBy)
    ensures Eval(e, a) == Eval(e, b)
    decreases e, 1
  {
    if IsGrouped(e, groupBy) {
      var i :| 0 <= i < |groupBy| && SameExpr(e, groupBy[i]);
      assert groupBy[i] in groupBy;
    } else if !e.Field? {
      match e
      case ValueExpr(_) =>
      case Cast(c, _) =>
        assert c in SubExprs(e);
        BoundIsDetermined(c, groupBy, a, b);
      case Comparison(_, l, r) =>
        assert l in SubExprs(e) && r in SubExprs(e);
        BoundIsDetermined(l, groupBy, a, b);
        BoundIsDetermined(r, groupBy, a, b);
      case Arithmetic(_, l, r) =>
        assert l in SubExprs(e) && r in SubExprs(e);
        BoundIsDetermined(l, groupBy, a, b);
        BoundIsDetermined(r, groupBy, a, b);
      case Conjunction(t, cs) => BoundConjuncts(t, cs, groupBy, a, b);
    }
  }

  lemma {:induction false} BoundConjuncts(t: ConjunctionType, cs: seq<Expr>, groupBy: seq<Expr>, a: Row, b: Row)
    requires forall c <- cs :: !HasUnboundColumn(c, groupBy) && IsLiterallyGrouped(c, groupBy)
    requires SameGroup(a, b, groupBy)
    ensures EvalConjuncts(t, cs, a) == EvalConjuncts(t, cs, b)
    decreases cs, 0
  {
    if cs != [] {
      BoundIsDetermined(cs[0], groupBy, a, b);
      BoundConjuncts(t, cs[1..], groupBy, a, b);
    }
  }

  /** A column that is missing from the GROUP BY differs within some group. */
  lemma {:induction false} UnboundFieldDiffers(e: Expr, groupBy: seq<Expr>) returns (a: Row, b: Row)
    requires e.Field? && HasUnboundColumn(e, groupBy) && forall g <- groupBy :: g.Field?
    ensures SameGroup(a, b, groupBy) && Eval(e, a) != Eval(e, b)
  {
    a, b := [Cell(e.table, e.field, Int(0))], [Cell(e.table, e.field, Int(1))];
    assert FindCell(a[1..], e.table, e.field) == FindCell(b[1..], e.table, e.field);
  }

  // ---- grouping up to the tolerance --------------------------------------------------------------

  type Column = e: Expr | e.Field? && e.table != "" witness Field("t", "x", Floats)

  /** A column times a constant. */
  function Scaled(c: Column, k: real): Expr {
    Arithmetic(MUL, c, ValueExpr(Float(k)))
  }

  function OneCell(c: Column, x: real): Row {
    [Cell(c.table, c.field, Float(x))]
  }

  lemma {:induction false} ScaledEval(c: Column, k: real, row: Row)
    ensures Eval(Scaled(c, k), row) ==
            match FindCell(row, c.table, c.field) case Err(rc) => Err(rc) case Ok(v) => CalcFloat(MUL, v, Float(k))
  {
    assert Eval(Scaled(c, k).left, row) == FindCell(row, c.table, c.field);
    assert Eval(Scaled(c, k).right, row) == Ok(Float(k));
    assert Scaled(c, k).ValueType() == Floats;
  }

  lemma {:induction false} OneCellValue(c: Column, k: real, x: real)
    ensures Eval(Scaled(c, k), OneCell(c, x)) == Ok(Float(Times(x, k)))
  {
    ScaledEval(c, k, OneCell(c, x));
    assert FindCell(OneCell(c, x), c.table, c.field) == Ok(Float(x));
  }

  /** The expression is accepted exactly if the constants are equal up to the tolerance. */
  lemma {:induction false} CountsAsGroupedExactly(c: Column, k0: real, k: real)
    ensures !HasUnboundColumn(Scaled(c, k), [Scaled(c, k0)]) <==> -EPSILON <= k - k0 <= EPSILON
  {
    assert IsGrouped(Scaled(c, k), [Scaled(c, k0)]) <==> SameExpr(Scaled(c, k), [Scaled(c, k0)][0]);
    assert !IsGrouped(c, [Scaled(c, k0)]) && HasUnboundColumn(c, [Scaled(c, k0)]);
    assert c in SubExprs(Scaled(c, k));
  }

  lemma {:induction false} NoAggregates(c: Column, x: real, y: real)
    ensures forall f :: FindCell(OneCell(c, x), "", f) == FindCell(OneCell(c, y), "", f)
  {
    forall f ensures FindCell(OneCell(c, x), "", f) == FindCell(OneCell(c, y), "", f) {
      assert OneCell(c, x)[1..] == [] == OneCell(c, y)[1..];
    }
  }

  /** Two rows that a column times zero does not tell apart, and the column times k does. */
  lemma {:induction false} ZeroKeyVaries(c: Column, k: real)
    requires k != 0.0
    ensures SameGroup(OneCell(c, 1.0), OneCell(c, 2.0), [Scaled(c, 0.0)])
    ensures Eval(Scaled(c, k), OneCell(c, 1.0)) != Eval(Scaled(c, k), OneCell(c, 2.0))
  {
    NoAggregates(c, 1.0, 2.0);
    OneCellValue(c, 0.0, 1.0);
    OneCellValue(c, 0.0, 2.0);
    OneCellValue(c, k, 1.0);
    OneCellValue(c, k, 2.0);
  }

  lemma {:induction false} Cancel(x: real, y: real, k: real)
    requires k != 0.0 && Times(x, k) == Times(y, k)
    ensures x == y
  {
    assert (x - y) * k == 0.0;
  }

  lemma {:induction false} ScaledAgree(v: Value, w: Value, k0: real, k: real)
    requires CalcFloat(MUL, v, Float(k0)) == CalcFloat(MUL, w, Float(k0)) && k0 != 0.0
    ensures CalcFloat(MUL, v, Float(k)) == CalcFloat(MUL, w, Float(k))
  {
    if ToFloat(v).Ok? && ToFloat(w).Ok? {
      var x, y := ToFloat(v).value, ToFloat(w).value;
      assert CalcFloat(MUL, v, Float(k0)) == Ok(Float(Times(x, k0)));
      assert CalcFloat(MUL, w, Float(k0)) == Ok(Float(Times(y, k0)));
      Cancel(x, y, k0);
    }
  }

  lemma {:induction false} OtherKeyDetermines(c: Column, a: Row, b: Row, k0: real, k: real)
    requires SameGroup(a, b, [Scaled(c, k0)]) && k0 != 0.0
    ensures Eval(Scaled(c, k), a) == Eval(Scaled(c, k), b)
  {
    assert Scaled(c, k0) in [Scaled(c, k0)];
    ScaledEval(c, k0, a);
    ScaledEval(c, k0, b);
    ScaledEval(c, k, a);
    ScaledEval(c, k, b);
    var va, vb := FindCell(a, c.table, c.field), FindCell(b, c.table, c.field);
    if va.Ok? && vb.Ok? {
      ScaledAgree(va.value, vb.value, k0, k);
    }
  }

  /** The expression takes different values within some group. */
  ghost predicate Varies(e: Expr, groupBy: seq<Expr>) {
    exists a, b :: SameGroup(a, b, groupBy) && Eval(e, a) != Eval(e, b)
  }

  /**
   * What the tolerance costs: a column times k, accepted because the key is the column times a constant k0 that compares
   * equal to k, varies within some group if and only if the key is constantly zero and the expression is not.
   */
  lemma {:induction false} ToleranceMattersExactly(c: Column, k0: real, k: real)
    requires !HasUnboundColumn(Scaled(c, k), [Scaled(c, k0)])
    ensures Varies(Scaled(c, k), [Scaled(c, k0)]) <==> k0 == 0.0 && k != 0.0
  {
    if k0 == 0.0 && k != 0.0 {
      ZeroKeyVaries(c, k);
    } else if a, b :| SameGroup(a, b, [Scaled(c, k0)]) && Eval(Scaled(c, k), a) != Eval(Scaled(c, k), b) {
      assert Scaled(c, k0) in [Scaled(c, k0)];
      if k0 != 0.0 { OtherKeyDetermines(c, a, b, k0, k); }
    }
  }

  // ---- SELECT and DELETE -------------------------------------------------------------------------

  method CreateSelectPlan(s: SelectStmt) returns (rc: RC, plan: Plan)
    ensures rc ==
      if exists u <- s.units :: !Comparable(u) then UNSUPPORTED
      else if IsRefusedGrouping(s) then INVALID_ARGUMENT
      else SUCCESS
    ensures rc == SUCCESS ==> plan == Build(SelectUppers(s), FilterOperator(s.units, JoinTree(s.tables)))
  {
    var tableOper := CreateJoinTree(s.tables);
    var lastOper;
    rc, lastOper := CreateFilter(s.units, tableOper);
    plan := Plan(Projection, s.queryExpressions, []);
    if rc != SUCCESS {
      return;
    }
    var foundUnboundColumn := FindUnboundColumn(s.queryExpressions, s.groupBy);
    if (s.groupBy != [] || s.aggregates != []) && foundUnboundColumn {
      return INVALID_ARGUMENT, plan;
    }
    if s.groupBy != [] || s.aggregates != [] {
      lastOper := [Plan(GroupBy(s.groupBy, s.aggregates), [], lastOper)];
      assert SelectUppers(s)[1..] == [Upper(GroupBy(s.groupBy, s.aggregates), [])];
    }
    plan := Plan(Projection, s.queryExpressions, lastOper);
  }

  /** The statement is grouped, and its query expressions show a column that has no one value in a group. */
  predicate IsRefusedGrouping(s: SelectStmt) {
    && (s.groupBy != [] || s.aggregates != [])
    && exists e <- s.queryExpressions :: HasUnboundColumn(e, s.groupBy)
  }

  method FindUnboundColumn(queryExpressions: seq<Expr>, groupBy: seq<Expr>) returns (found: bool)
    ensures found <==> exists e <- queryExpressions :: HasUnboundColumn(e, groupBy)
  {
    found := false;
    for i := 0 to |queryExpressions|
      invariant found <==> exists k :: 0 <= k < i && HasUnboundColumn(queryExpressions[k], groupBy)
    {
      found := found || HasUnboundColumn(queryExpressions[i], groupBy);
    }
  }

  method CreateDeletePlan(table: string, units: seq<FilterUnit>) returns (rc: RC, plan: Plan)
    ensures rc == if forall u <- units :: Comparable(u) then SUCCESS else UNSUPPORTED
    ensures rc == SUCCESS ==> plan == Build([Upper(Delete(table), [])], FilterOperator(units, JoinTree([table])))
  {
    var child;
    rc, child := CreateFilter(units, [TableGetOperator(table)]);
    plan := Plan(Delete(table), [], child);
    assert JoinTree([table]) == [TableGetOperator(table)];
  }
}
