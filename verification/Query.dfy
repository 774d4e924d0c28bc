/** A SELECT from statement to rows: generate, optimize, compile, open, drain, close. */
module Query {
  import opened Common
  import opened Expressions
  import opened Streams
  import opened LogicalPlan
  import opened ExpressionRewrite
  import opened PlanRewrite
  import opened GeneratedPlans
  import opened OptimizedPlans
  import opened QueryMeaning
  import opened PhysicalPlan
  import opened StatementMeaning
  import opened Executor

  // ---- statements whose expressions can be evaluated ----------------------------------------

  /** The conditions have a value on every row they may meet. */
  predicate ConditionsEvaluate(tables: seq<string>, units: seq<FilterUnit>, db: Database) {
    && AllRowsEvaluate(BodyRows(JoinTree(tables), db.tables).rows, UnitExprs(units))
    && forall key :: key in db.indexes && key.0 in tables ==>
         AllRowsEvaluate(EntryRows(db.indexes[key]), UnitExprs(units))
  }

  /** So have the query expressions. */
  predicate IsEvaluable(s: SelectStmt, db: Database) {
    && ConditionsEvaluate(s.tables, s.units, db)
    && AllProject(BodyRows(JoinTree(s.tables), db.tables).rows, s.queryExpressions)
  }

  /** The settled predicate, as the list of predicates a scan or a filter holds. */
  function SettledList(cs: seq<Expr>): seq<Expr> {
    var s := Settle(cs);
    if s.Conjunction? then s.children else [s]
  }

  lemma {:induction false} SettledEvaluates(cs: seq<Expr>, row: Row)
    requires AllConditions(cs) && cs != [] && AllEvaluate(cs, row)
    ensures EvalConjuncts(AND, SettledList(cs), row).Ok? && EvalConjuncts(AND, [Settle(cs)], row).Ok?
  {
    SettleIsSettled(cs);
    SingleConjunct(AND, Settle(cs), row);
    if Overlooked(cs) {
      SettleOverlooked(cs);
      FirstColumnIsColumn(cs);
      var k := FirstColumnMember(cs);
      assert Eval(cs[k], row).Ok?;
    } else {
      ConjunctsEvaluate(cs, row);
      SettleMeans(cs, row);
    }
  }

  lemma {:induction false} SettledRunsThrough(rows: seq<Row>, cs: seq<Expr>)
    requires AllConditions(cs) && cs != [] && AllRowsEvaluate(rows, cs)
    ensures RunsThrough(rows, SettledList(cs)) && RunsThrough(rows, [Settle(cs)])
  {
    forall i | 0 <= i < |rows|
      ensures EvalConjuncts(AND, SettledList(cs), rows[i]).Ok? && EvalConjuncts(AND, [Settle(cs)], rows[i]).Ok?
    {
      assert AllEvaluate(cs, rows[i]);
      SettledEvaluates(cs, rows[i]);
    }
  }

  lemma {:induction false} BareScanSmooth(p: Plan, db: Database)
    requires p.kind.TableGet? && p.kind.predicates == [] && p.children == []
    ensures IsSmooth(p, db)
  {
    BareEnds(p, db.tables);
  }

  lemma {:induction false} JoinSmooth(p: Plan, db: Database)
    requires p.kind.Join? && |p.children| == 2 && IsSmooth(p.children[0], db) && IsSmooth(p.children[1], db)
    requires Rows(p, db.tables).end == RECORD_EOF
    ensures IsSmooth(p, db)
  {
    forall i | 0 <= i < |p.children| ensures IsSmooth(p.children[i], db) {
      assert i == 0 || i == 1;
    }
  }

  lemma {:induction false} BareSmooth(p: Plan, db: Database)
    requires IsInner(p) && IsBare(p)
    ensures IsSmooth(p, db)
    decreases p
  {
    if p.kind.Join? {
      BareSmooth(p.children[0], db);
      BareSmooth(p.children[1], db);
      BareEnds(p, db.tables);
      JoinSmooth(p, db);
    } else {
      BareScanSmooth(p, db);
    }
  }

  /** Filtering keeps rows that project. */
  lemma {:induction false} FilteredProject(rows: seq<Row>, preds: seq<Expr>, exprs: seq<Expr>)
    requires AllProject(rows, exprs)
    ensures AllProject(Flat(KeepIf(preds), rows), exprs)
  {
    if rows != [] { FilteredProject(rows[1..], preds, exprs); }
  }

  /** A plan below the upper operators that meets no error, and whose rows project. */
  predicate IsSmoothBody(body: seq<Plan>, exprs: seq<Expr>, db: Database) {
    && |body| <= 1 && (body != [] ==> IsSmooth(body[0], db))
    && BodyRows(body, db.tables).end == RECORD_EOF && AllProject(BodyRows(body, db.tables).rows, exprs)
  }

  lemma {:induction false} FilteredBodySmooth(tables: seq<string>, units: seq<FilterUnit>, exprs: seq<Expr>, db: Database)
    requires IsQuery(tables, units) && ConditionsEvaluate(tables, units, db) && units != []
    requires AllProject(BodyRows(JoinTree(tables), db.tables).rows, exprs)
    ensures IsSmoothBody(FinalBody(Settle(UnitExprs(units)), JoinTree(tables)), exprs, db)
  {
    var cs, input := UnitExprs(units), JoinTree(tables);
    var e := Settle(cs);
    var body := FinalBody(e, input);
    var all := BodyRows(input, db.tables);
    UnitsAreConditions(units);
    JoinTreeGenerated(tables);
    SettleIsSettled(cs);
    FinalBodyMeans(e, input, db.tables);
    BareEnds(input[0], db.tables);
    SettledRunsThrough(all.rows, cs);
    FilterIsFlat(all, [e]);
    FilteredProject(all.rows, [e], exprs);
    BareSmooth(input[0], db);
    if !e.ValueExpr? && IsScan(input) {
      ScanTable(tables);
      assert body == [SetPredicates(input[0], SettledList(cs))];
      assert body[0].children == [];
      forall key | key in db.indexes && key.0 == body[0].kind.table
        ensures RunsThrough(EntryRows(db.indexes[key]), body[0].kind.predicates)
      {
        SettledRunsThrough(EntryRows(db.indexes[key]), cs);
      }
    }
  }

  lemma {:induction false} ScanTable(tables: seq<string>)
    requires tables != [] && JoinTree(tables)[0].kind.TableGet?
    ensures JoinTree(tables)[0].kind.table in tables
  {
  }

  /** What is below the upper operators after optimization. */
  function OptimizedInput(tables: seq<string>, units: seq<FilterUnit>): seq<Plan> {
    if units == [] then JoinTree(tables) else FinalBody(Settle(UnitExprs(units)), JoinTree(tables))
  }

  lemma {:induction false} OptimizedShape(us: seq<Upper>, tables: seq<string>, units: seq<FilterUnit>)
    requires AllUppers(us) && IsQuery(tables, units)
    ensures Optimized(Build(us, FilterOperator(units, JoinTree(tables)))) == Ok(Build(us, OptimizedInput(tables, units)))
  {
    UnitsAreConditions(units);
    JoinTreeGenerated(tables);
    if units == [] {
      UnconditionalRun(us, JoinTree(tables));
    } else {
      GeneratedRun(us, UnitExprs(units), JoinTree(tables));
    }
  }

  lemma {:induction false} SelectShape(s: SelectStmt)
    requires IsUngrouped(s)
    ensures Optimized(SelectPlan(s)) == Ok(Plan(Projection, s.queryExpressions, OptimizedInput(s.tables, s.units)))
  {
    SelectIsGenerated(s);
    OptimizedShape(SelectUppers(s), s.tables, s.units);
    assert SelectUppers(s) == [Upper(Projection, s.queryExpressions)];
  }

  lemma {:induction false} DeleteShape(table: string, units: seq<FilterUnit>)
    requires IsQuery([table], units)
    ensures Optimized(DeletePlan(table, units)) == Ok(Plan(Delete(table), [], OptimizedInput([table], units)))
  {
    OptimizedShape([Upper(Delete(table), [])], [table], units);
  }

  lemma {:induction false} BodySmooth(tables: seq<string>, units: seq<FilterUnit>, exprs: seq<Expr>, db: Database)
    requires IsQuery(tables, units) && ConditionsEvaluate(tables, units, db)
    requires AllProject(BodyRows(JoinTree(tables), db.tables).rows, exprs)
    ensures IsSmoothBody(OptimizedInput(tables, units), exprs, db)
  {
    if units == [] {
      JoinTreeGenerated(tables);
      BareEnds(JoinTree(tables)[0], db.tables);
      BareSmooth(JoinTree(tables)[0], db);
    } else {
      FilteredBodySmooth(tables, units, exprs, db);
    }
  }

  lemma {:induction false} BodyCompiles(tables: seq<string>, units: seq<FilterUnit>, catalog: Catalog)
    requires IsQuery(tables, units)
    ensures var body := OptimizedInput(tables, units);
      |body| <= 1 && (body != [] ==> Compile(body[0], catalog).Ok?)
  {
    JoinTreeGenerated(tables);
    CompilesInner(JoinTree(tables)[0], catalog);
    if units != [] {
      UnitsAreConditions(units);
      SettleIsSettled(UnitExprs(units));
    }
  }

  /** Every ungrouped SELECT gets an optimized plan, and that plan compiles, whatever its conditions and the indexes. */
  lemma {:induction false} SelectCompiles(s: SelectStmt, catalog: Catalog)
    requires IsUngrouped(s)
    ensures Optimized(SelectPlan(s)).Ok? && Compile(Optimized(SelectPlan(s)).value, catalog).Ok?
  {
    SelectShape(s);
    BodyCompiles(s.tables, s.units, catalog);
  }

  /** So does every DELETE. */
  lemma {:induction false} DeleteCompiles(table: string, units: seq<FilterUnit>, catalog: Catalog)
    requires IsQuery([table], units)
    ensures Optimized(DeletePlan(table, units)).Ok? && Optimized(DeletePlan(table, units)).value.kind.Delete?
    ensures Compile(Optimized(DeletePlan(table, units)).value, catalog).Ok?
  {
    DeleteShape(table, units);
    BodyCompiles([table], units, catalog);
  }

  lemma {:induction false} ProjectionSmooth(exprs: seq<Expr>, body: seq<Plan>, db: Database)
    requires IsSmoothBody(body, exprs, db)
    ensures IsSmooth(Plan(Projection, exprs, body), db)
  {
    ProjectIsFlat(BodyRows(body, db.tables), exprs);
    assert FirstChild(Plan(Projection, exprs, body), db.tables) == BodyRows(body, db.tables);
  }

  /** Where every expression has a value, no operator of the optimized plan meets an error. */
  lemma {:induction false} OptimizedSelect(s: SelectStmt, db: Database)
    requires IsUngrouped(s) && IsEvaluable(s, db)
    ensures Optimized(SelectPlan(s)).Ok?
    ensures IsSmooth(Optimized(SelectPlan(s)).value, db)
    ensures Compile(Optimized(SelectPlan(s)).value, db.indexes.Keys).Ok?
  {
    SelectShape(s);
    BodySmooth(s.tables, s.units, s.queryExpressions, db);
    SelectCompiles(s, db.indexes.Keys);
    ProjectionSmooth(s.queryExpressions, OptimizedInput(s.tables, s.units), db);
  }

  lemma {:induction false} DeletionSmooth(table: string, body: seq<Plan>, db: Database)
    requires IsSmoothBody(body, [], db)
    ensures IsSmooth(Plan(Delete(table), [], body), db)
  {
  }

  lemma {:induction false} OptimizedDelete(table: string, units: seq<FilterUnit>, db: Database)
    requires IsQuery([table], units) && ConditionsEvaluate([table], units, db)
    ensures Optimized(DeletePlan(table, units)).Ok? && Optimized(DeletePlan(table, units)).value.kind.Delete?
    ensures IsSmooth(Optimized(DeletePlan(table, units)).value, db)
    ensures Compile(Optimized(DeletePlan(table, units)).value, db.indexes.Keys).Ok?
  {
    DeleteShape(table, units);
    BodySmooth([table], units, [], db);
    DeleteCompiles(table, units, db.indexes.Keys);
    DeletionSmooth(table, OptimizedInput([table], units), db);
  }

  lemma {:induction false} CompilesInner(p: Plan, catalog: Catalog)
    requires IsInner(p)
    ensures Compile(p, catalog).Ok?
    decreases p
  {
    if p.kind.Join? {
      CompilesInner(p.children[0], catalog);
      CompilesInner(p.children[1], catalog);
    }
  }

  /** PhysicalPlanGenerator::create, by recursion on the plan. */
  method CreatePhysicalPlan(p: Plan, catalog: Catalog) returns (r: Result<Physical>)
    ensures r == Compile(p, catalog)
    decreases p
  {
    match p.kind {
      case TableGet(t, preds) =>
        var scan := CreateScan(t, preds, catalog);
        return Ok(scan);
      case Join =>
        if |p.children| != 2 {
          return Err(INTERNAL);
        }
        var l := CreatePhysicalPlan(p.children[0], catalog);
        if l.Err? {
          return l;
        }
        var r' := CreatePhysicalPlan(p.children[1], catalog);
        return if r'.Err? then r' else Ok(NestedLoopJoin(l.value, r'.value));
      case Predicate =>
        if |p.children| != 1 || |p.expressions| != 1 || p.expressions[0].ValueType() != Booleans {
          return Err(UNDEFINED);
        }
        var child := CreatePhysicalPlan(p.children[0], catalog);
        return if child.Err? then child else Ok(Filter(p.expressions[0], child.value));
      case GroupBy(_, _) =>
        if |p.children| != 1 {
          return Err(UNDEFINED);
        }
        var child := CreatePhysicalPlan(p.children[0], catalog);
        return if child.Err? then child else Err(UNIMPLEMENTED);
      case Projection =>
        if p.children == [] {
          return Ok(Project(p.expressions, []));
        }
        var child := CreatePhysicalPlan(p.children[0], catalog);
        return if child.Err? then child else Ok(Project(p.expressions, [child.value]));
      case Delete(t) =>
        if p.children == [] {
          return Ok(Collect(t, []));
        }
        var child := CreatePhysicalPlan(p.children[0], catalog);
        return if child.Err? then child else Ok(Collect(t, [child.value]));
    }
  }

  // ---- from statement to rows ----------------------------------------------------------------

  /** The rows an optimized SELECT yields against those it asks for, as often as each occurs. */
  lemma {:induction false} SelectRowsExact(s: SelectStmt, db: Database, rows: seq<Row>)
    requires IsUngrouped(s) && IsEvaluable(s, db) && Optimized(SelectPlan(s)).Ok?
    requires SameRows(Stream(rows, RECORD_EOF), Rows(Optimized(SelectPlan(s)).value, db.tables))
    ensures exists answer :: IsAnswer(answer, s, db.tables) && (multiset(rows) == multiset(answer) <==>
              !LetsRowsThrough(UnitExprs(s.units), BodyRows(JoinTree(s.tables), db.tables).rows))
  {
    SelectDenotes(s, db.tables);
    SelectExact(s, db.tables);
    if LetsRowsThrough(UnitExprs(s.units), BodyRows(JoinTree(s.tables), db.tables).rows) {
      OverlookedSelectsNothing(s, db.tables);
      SomeRows(rows, Rows(Optimized(SelectPlan(s)).value, db.tables).rows);
    }
  }

  lemma {:induction false} SomeRows(a: seq<Row>, b: seq<Row>)
    requires multiset(a) == multiset(b) && b != []
    ensures multiset(a) != multiset{}
  {
    assert b[0] in multiset(b);
  }

  /**
   * Running a SELECT on a database with sound indexes where its expressions have values returns exactly the rows the
   * statement asks for, each as often, if and only if no constant FALSE is overlooked or no row gets through in its place.
   */
  method ExecuteSelect(s: SelectStmt, db: Database) returns (rc: RC, rows: seq<Row>)
    ensures IsUngrouped(s) && IsEvaluable(s, db) && IsIndexed(db) ==>
      && rc == RECORD_EOF
      && exists answer :: IsAnswer(answer, s, db.tables) && (multiset(rows) == multiset(answer) <==>
           !LetsRowsThrough(UnitExprs(s.units), BodyRows(JoinTree(s.tables), db.tables).rows))
  {
    rows := [];
    var plan;
    rc, plan := CreateSelectPlan(s);
    if rc != SUCCESS {
      return;
    }
    rc, plan := Optimize(plan);
    if rc != SUCCESS {
      if IsUngrouped(s) && IsEvaluable(s, db) { OptimizedSelect(s, db); }
      return;
    }
    var physical := CreatePhysicalPlan(plan, db.indexes.Keys);
    if physical.Err? {
      if IsUngrouped(s) && IsEvaluable(s, db) { OptimizedSelect(s, db); }
      return physical.rc, rows;
    }
    var oper := new Iterator(physical.value, db);
    oper.Open();
    rows, rc := oper.Drain();
    oper.Close();
    if IsUngrouped(s) && IsEvaluable(s, db) && IsIndexed(db) {
      OptimizedSelect(s, db);
      CompiledYields(plan, db, physical.value);
      SelectRowsExact(s, db, rows);
    }
  }

  lemma {:induction false} DeleteRowsExact(table: string, units: seq<FilterUnit>, db: Database, records: seq<Row>)
    requires IsQuery([table], units) && ConditionsEvaluate([table], units, db)
    requires var plan := Optimized(DeletePlan(table, units));
      plan.Ok? && plan.value.kind.Delete? && multiset(records) == multiset(Deletes(plan.value, db.tables))
    ensures exists answer :: AreSelected(answer, TableRows(db.tables, table), units) &&
              (multiset(records) == multiset(answer) <==> !LetsRowsThrough(UnitExprs(units), TableRows(db.tables, table)))
  {
    SingleTable(table, db.tables);
    DeleteDenotes(table, units, db.tables);
    DeleteExact(table, units, db.tables);
    if LetsRowsThrough(UnitExprs(units), TableRows(db.tables, table)) {
      OverlookedDeletesNothing(table, units, db.tables);
      SomeRows(records, Deletes(Optimized(DeletePlan(table, units)).value, db.tables));
    }
  }

  /** Running a DELETE likewise: `records` are those handed to the transaction. */
  method ExecuteDelete(table: string, units: seq<FilterUnit>, db: Database) returns (rc: RC, records: seq<Row>)
    ensures IsQuery([table], units) && ConditionsEvaluate([table], units, db) && IsIndexed(db) ==>
      && rc == SUCCESS
      && exists answer :: AreSelected(answer, TableRows(db.tables, table), units) &&
           (multiset(records) == multiset(answer) <==> !LetsRowsThrough(UnitExprs(units), TableRows(db.tables, table)))
  {
    records := [];
    var plan;
    rc, plan := CreateDeletePlan(table, units);
    if rc != SUCCESS {
      return;
    }
    rc, plan := Optimize(plan);
    if rc != SUCCESS {
      if IsQuery([table], units) { DeleteCompiles(table, units, db.indexes.Keys); }
      return;
    }
    var physical := CreatePhysicalPlan(plan, db.indexes.Keys);
    if physical.Err? {
      if IsQuery([table], units) { DeleteCompiles(table, units, db.indexes.Keys); }
      return physical.rc, records;
    }
    var oper := new Iterator(physical.value, db);
    oper.Open();
    records := oper.collected;
    oper.Close();
    if IsQuery([table], units) && ConditionsEvaluate([table], units, db) && IsIndexed(db) {
      OptimizedDelete(table, units, db);
      CompiledDeletes(plan, db, physical.value);
      DeleteRowsExact(table, units, db, records);
    }
  }

  // ---- a grouped SELECT without rows -----------------------------------------------------------

  /** Nothing is left below the upper operators exactly then. */
  lemma {:induction false} NothingBelowExactly(tables: seq<string>, units: seq<FilterUnit>)
    requires IsQuery(tables, units)
    ensures OptimizedInput(tables, units) == [] <==> SomeConstantFalse(UnitExprs(units)) && !Overlooked(UnitExprs(units))
  {
    UnitsAreConditions(units);
    if units != [] {
      SettlesFalseExactly(UnitExprs(units));
      SettleIsSettled(UnitExprs(units));
      EmptyBodyExactly(Settle(UnitExprs(units)), JoinTree(tables));
    }
  }

  lemma {:induction false} EmptyBodyExactly(e: Expr, input: seq<Plan>)
    requires IsSettled(e) && input != []
    ensures FinalBody(e, input) == [] <==> e == ValueExpr(Bool(false))
  {
  }

  lemma {:induction false} GroupedShape(s: SelectStmt)
    requires IsSelect(s) && s.tables != [] && (s.groupBy != [] || s.aggregates != [])
    ensures var grouping := Plan(GroupBy(s.groupBy, s.aggregates), [], OptimizedInput(s.tables, s.units));
      Optimized(SelectPlan(s)) == Ok(Plan(Projection, s.queryExpressions, [grouping]))
  {
    var us, body := SelectUppers(s), OptimizedInput(s.tables, s.units);
    SelectIsGenerated(s);
    OptimizedShape(us, s.tables, s.units);
    assert us[1..] == [Upper(GroupBy(s.groupBy, s.aggregates), [])];
    assert Build(us, body).children == [Plan(GroupBy(s.groupBy, s.aggregates), [], body)];
  }

  lemma {:induction false} GroupedCompiles(exprs: seq<Expr>, grouping: Plan, catalog: Catalog)
    requires grouping.kind.GroupBy? && |grouping.children| <= 1
    requires grouping.children != [] ==> Compile(grouping.children[0], catalog).Ok?
    ensures Compile(Plan(Projection, exprs, [grouping]), catalog) ==
            Err(if grouping.children == [] then UNDEFINED else UNIMPLEMENTED)
  {
    assert Compile(grouping, catalog) == Err(if grouping.children == [] then UNDEFINED else UNIMPLEMENTED);
  }

  /**
   * The physical generator asserts that a grouping operator has a child, and then reads it. A grouped SELECT breaks that
   * if and only if a condition is constantly false and none before it mentions a column.
   */
  lemma {:induction false} GroupingLosesChildExactly(s: SelectStmt, catalog: Catalog)
    requires IsSelect(s) && s.tables != [] && (s.groupBy != [] || s.aggregates != [])
    ensures Optimized(SelectPlan(s)).Ok?
    ensures var plan := Optimized(SelectPlan(s)).value;
      && |plan.children| == 1 && plan.children[0].kind.GroupBy?
      && (plan.children[0].children == [] <==> SomeConstantFalse(UnitExprs(s.units)) && !Overlooked(UnitExprs(s.units)))
      && Compile(plan, catalog) == Err(if plan.children[0].children == [] then UNDEFINED else UNIMPLEMENTED)
  {
    var body := OptimizedInput(s.tables, s.units);
    GroupedShape(s);
    NothingBelowExactly(s.tables, s.units);
    BodyCompiles(s.tables, s.units, catalog);
    GroupedCompiles(s.queryExpressions, Plan(GroupBy(s.groupBy, s.aggregates), [], body), catalog);
  }

  /** `SELECT SUM(f) FROM t WHERE 1 = 2`. */
  const GROUPED_EXAMPLE := SelectStmt(["t"], [EXAMPLE_FALSE], [Field("", "SUM(f)", Ints)], [], [Field("t", "f", Ints)])

  lemma {:induction false} GroupingWithoutChild(catalog: Catalog)
    ensures IsSelect(GROUPED_EXAMPLE) && !IsRefusedGrouping(GROUPED_EXAMPLE)
    ensures Optimized(SelectPlan(GROUPED_EXAMPLE)).Ok?
    ensures Compile(Optimized(SelectPlan(GROUPED_EXAMPLE)).value, catalog) == Err(UNDEFINED)
  {
    var cs := UnitExprs(GROUPED_EXAMPLE.units);
    assert GROUPED_EXAMPLE.units[..0] == [] && UnitExprs([]) == [];
    assert cs == [UnitExpr(EXAMPLE_FALSE)];
    assert IsConstantFalse(cs[0]);
    GroupingLosesChildExactly(GROUPED_EXAMPLE, catalog);
  }
}
