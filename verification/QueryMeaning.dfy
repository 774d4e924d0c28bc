/** Whether the optimized plan still stands for the rows of the plan the generator built. */
module QueryMeaning {
  import opened Common
  import opened Expressions
  import opened Streams
  import opened Grouping
  import opened LogicalPlan
  import opened ExpressionRewrite
  import opened PlanRewrite
  import opened GeneratedPlans
  import opened OptimizedPlans

  // ---- when the conjunction rule is right --------------------------------------------------

  /**
   * When answering with the first remaining child is wrong on a row: a constant decides the conjunction but an earlier
   * child, that is not that constant and comes out differently, is kept instead; or every child of an OR was FALSE and
   * erased, and an empty conjunction counts as TRUE.
   */
  predicate RuleMisjudges(t: ConjunctionType, cs: seq<Expr>, row: Row) {
    var rest := DropNeutral(t, cs);
    if HasDeciding(t, cs) then rest != [] && EvalTruth(rest[0], row) != Ok(t.OR?)
    else t.OR? && cs != [] && rest == []
  }

  predicate AllEvaluate(cs: seq<Expr>, row: Row) {
    forall i :: 0 <= i < |cs| ==> Eval(cs[i], row).Ok?
  }

  lemma {:induction false} NeutralDropped(t: ConjunctionType, cs: seq<Expr>, row: Row)
    ensures EvalConjuncts(t, DropNeutral(t, cs), row) == EvalConjuncts(t, cs, row)
  {
    if cs != [] { NeutralDropped(t, cs[1..], row); }
  }

  lemma {:induction false} DecidingDecides(t: ConjunctionType, cs: seq<Expr>, row: Row)
    requires HasDeciding(t, cs) && AllEvaluate(cs, row)
    ensures EvalConjuncts(t, cs, row) == Ok(t.OR?)
  {
    if !IsDeciding(t, cs[0]) { DecidingDecides(t, cs[1..], row); }
  }

  lemma {:induction false} SingleConjunct(t: ConjunctionType, e: Expr, row: Row)
    ensures EvalConjuncts(t, [e], row) == EvalTruth(e, row)
  {
    assert [e][1..] == [];
    assert EvalConjuncts(t, [e][1..], row) == Ok(t.AND?);
  }

  /** The conjunction rule keeps the truth value on a row if and only if it does not misjudge that row. */
  lemma {:induction false} ConjunctionRuleExact(t: ConjunctionType, cs: seq<Expr>, row: Row)
    requires AllEvaluate(cs, row)
    ensures EvalTruth(SimplifyConjunction(Conjunction(t, cs)).0, row) == EvalTruth(Conjunction(t, cs), row)
            <==> !RuleMisjudges(t, cs, row)
  {
    var rest := DropNeutral(t, cs);
    NeutralDropped(t, cs, row);
    if HasDeciding(t, cs) {
      DecidingDecides(t, cs, row);
      DecidingSurvives(t, cs);
    } else if |rest| == 1 {
      assert rest == [rest[0]];
      SingleConjunct(t, rest[0], row);
    }
  }

  // ---- the predicate of a generated plan ---------------------------------------------------

  predicate IsConstantTrue(c: Expr) {
    Fold(c) == ValueExpr(Bool(true))
  }

  predicate IsConstantFalse(c: Expr) {
    Fold(c) == ValueExpr(Bool(false))
  }

  predicate SomeConstantFalse(cs: seq<Expr>) {
    cs != [] && (IsConstantFalse(cs[0]) || SomeConstantFalse(cs[1..]))
  }

  /** The first condition that is not constantly true mentions a column, and a constantly false one follows it. */
  predicate Overlooked(cs: seq<Expr>) {
    && cs != []
    && if IsConstantTrue(cs[0]) then Overlooked(cs[1..])
       else IsColumnCondition(cs[0]) && SomeConstantFalse(cs[1..])
  }

  /** The condition the rewriter keeps then. */
  function FirstColumnCondition(cs: seq<Expr>): Expr
    requires Overlooked(cs)
  {
    if IsConstantTrue(cs[0]) then FirstColumnCondition(cs[1..]) else cs[0]
  }

  lemma {:induction false} FoldMeans(c: Expr, row: Row)
    requires IsCondition(c)
    ensures EvalTruth(Fold(c), row) == EvalTruth(c, row)
  {
    if !IsColumnCondition(c) {
      SameTypeComparable(c.left.value, c.right.value);
      assert Eval(c.left, row) == Ok(c.left.value) && Eval(c.right, row) == Ok(c.right.value);
    }
  }

  lemma {:induction false} FoldAllMeans(cs: seq<Expr>, row: Row)
    requires AllConditions(cs)
    ensures EvalConjuncts(AND, FoldAll(cs), row) == EvalConjuncts(AND, cs, row)
  {
    if cs != [] {
      FoldMeans(cs[0], row);
      FoldAllMeans(cs[1..], row);
      assert FoldAll(cs)[1..] == FoldAll(cs[1..]);
    }
  }

  /** The first survivor of the fold, by cases. */
  lemma {:induction false} FirstSurvivorIs(cs: seq<Expr>)
    requires AllConditions(cs)
    ensures HasDeciding(AND, FoldAll(cs)) == SomeConstantFalse(cs)
    ensures Overlooked(cs) ==> SomeConstantFalse(cs) && DropNeutral(AND, FoldAll(cs)) != []
                               && DropNeutral(AND, FoldAll(cs))[0] == FirstColumnCondition(cs)
    ensures SomeConstantFalse(cs) && !Overlooked(cs) ==>
              DropNeutral(AND, FoldAll(cs)) != [] && DropNeutral(AND, FoldAll(cs))[0] == ValueExpr(Bool(false))
  {
    if cs != [] {
      FoldCondition(cs[0]);
      FirstSurvivorIs(cs[1..]);
      assert FoldAll(cs)[1..] == FoldAll(cs[1..]);
    }
  }

  /** Two sweeps keep the truth value on every row, errors included, unless a constant FALSE is overlooked. */
  lemma {:induction false} SettleMeans(cs: seq<Expr>, row: Row)
    requires AllConditions(cs) && cs != [] && !Overlooked(cs)
    ensures EvalTruth(Settle(cs), row) == EvalConjuncts(AND, cs, row)
  {
    if |cs| == 1 {
      assert cs == [cs[0]];
      FoldMeans(cs[0], row);
      SingleConjunct(AND, cs[0], row);
    } else {
      var fs := FoldAll(cs);
      var rest := DropNeutral(AND, fs);
      FoldAllMeans(cs, row);
      NeutralDropped(AND, fs, row);
      FirstSurvivorIs(cs);
      if |rest| == 1 {
        assert rest == [rest[0]];
        SingleConjunct(AND, rest[0], row);
      }
    }
  }

  /** Otherwise the first column condition is all that is left of the predicate. */
  lemma {:induction false} SettleOverlooked(cs: seq<Expr>)
    requires AllConditions(cs) && Overlooked(cs)
    ensures Settle(cs) == FirstColumnCondition(cs)
  {
    FirstSurvivorIs(cs);
  }

  /** What is left is FALSE exactly if some condition is constantly false and none before it mentions a column. */
  lemma {:induction false} SettlesFalseExactly(cs: seq<Expr>)
    requires AllConditions(cs) && cs != []
    ensures Settle(cs) == ValueExpr(Bool(false)) <==> SomeConstantFalse(cs) && !Overlooked(cs)
  {
    FirstSurvivorIs(cs);
    FoldConditions(cs);
    if Overlooked(cs) {
      SettleOverlooked(cs);
      FirstColumnIsColumn(cs);
    } else if |cs| == 1 {
      assert cs == [cs[0]];
    } else if SomeConstantFalse(cs) {
      assert HasDeciding(AND, FoldAll(cs));
    } else {
      DropNeutralFolded(FoldAll(cs));
    }
  }

  lemma {:induction false} FirstColumnIsColumn(cs: seq<Expr>)
    requires AllConditions(cs) && Overlooked(cs)
    ensures IsColumnCondition(FirstColumnCondition(cs))
  {
    if IsConstantTrue(cs[0]) { FirstColumnIsColumn(cs[1..]); }
  }

  // ---- streams -----------------------------------------------------------------------------

  /** Predicate lists that agree on every row filter alike. */
  lemma {:induction false} FilterAgree(s: Stream, a: seq<Expr>, b: seq<Expr>)
    requires forall row :: EvalConjuncts(AND, a, row) == EvalConjuncts(AND, b, row)
    ensures FilterStream(s, a) == FilterStream(s, b)
    decreases |s.rows|
  {
    if s.rows != [] { FilterAgree(Stream(s.rows[1..], s.end), a, b); }
  }

  lemma {:induction false} FilterNothing(s: Stream)
    ensures FilterStream(s, []) == s
    decreases |s.rows|
  {
    if s.rows != [] {
      FilterNothing(Stream(s.rows[1..], s.end));
      assert [s.rows[0]] + s.rows[1..] == s.rows;
    }
  }

  lemma {:induction false} FilterFalse(s: Stream)
    ensures FilterStream(s, [ValueExpr(Bool(false))]) == Stream([], s.end)
    decreases |s.rows|
  {
    if s.rows != [] { FilterFalse(Stream(s.rows[1..], s.end)); }
  }

  lemma {:induction false} FilterTrue(s: Stream)
    ensures FilterStream(s, [ValueExpr(Bool(true))]) == s
  {
    forall row ensures EvalConjuncts(AND, [ValueExpr(Bool(true))], row) == EvalConjuncts(AND, [], row) {
      SingleConjunct(AND, ValueExpr(Bool(true)), row);
    }
    FilterAgree(s, [ValueExpr(Bool(true))], []);
    FilterNothing(s);
  }

  lemma {:induction false} FilterConjunction(s: Stream, cs: seq<Expr>)
    ensures FilterStream(s, [Conjunction(AND, cs)]) == FilterStream(s, cs)
  {
    forall row ensures EvalConjuncts(AND, [Conjunction(AND, cs)], row) == EvalConjuncts(AND, cs, row) {
      SingleConjunct(AND, Conjunction(AND, cs), row);
    }
    FilterAgree(s, [Conjunction(AND, cs)], cs);
  }

  // ---- plans -------------------------------------------------------------------------------

  function BodyRows(body: seq<Plan>, db: Tables): Stream {
    if body == [] then EMPTY_STREAM else Rows(body[0], db)
  }

  /** Scans and joins of scans that hold no predicates: their streams always end normally. */
  predicate IsBare(p: Plan)
    decreases p
  {
    || (p.kind.TableGet? && p.kind.predicates == [])
    || (p.kind.Join? && |p.children| == 2 && IsBare(p.children[0]) && IsBare(p.children[1]))
  }

  lemma {:induction false} ProductEnd(l: Stream, r: Stream)
    requires l.end == RECORD_EOF && r.end == RECORD_EOF
    ensures ProductStream(l, r).end == RECORD_EOF
    decreases |l.rows|
  {
    if l.rows != [] { ProductEnd(Stream(l.rows[1..], l.end), r); }
  }

  lemma {:induction false} BareEnds(p: Plan, db: Tables)
    requires IsBare(p)
    ensures Rows(p, db).end == RECORD_EOF
    decreases p
  {
    if p.kind.TableGet? {
      FilterNothing(Stream(TableRows(db, p.kind.table), RECORD_EOF));
    } else {
      BareEnds(p.children[0], db);
      BareEnds(p.children[1], db);
      ProductEnd(Rows(p.children[0], db), Rows(p.children[1], db));
    }
  }

  lemma {:induction false} PredicateRows(e: Expr, input: seq<Plan>, db: Tables)
    ensures Rows(PredicateOn(e, input), db) == FilterStream(BodyRows(input, db), [e])
  {
    assert FirstChild(PredicateOn(e, input), db) == BodyRows(input, db);
  }

  /** What the run leaves below the operators filters the input by the settled predicate. */
  lemma {:induction false} FinalBodyMeans(s: Expr, input: seq<Plan>, db: Tables)
    requires IsSettled(s) && IsGeneratedInput(input) && (input != [] ==> IsBare(input[0]))
    ensures BodyRows(FinalBody(s, input), db) == FilterStream(BodyRows(input, db), [s])
  {
    var all := BodyRows(input, db);
    if s.ValueExpr? {
      FilterFalse(all);
      FilterTrue(all);
      if input != [] { BareEnds(input[0], db); }
    } else if IsScan(input) {
      var table := Stream(TableRows(db, input[0].kind.table), RECORD_EOF);
      FilterNothing(table);
      assert all == table;
      if s.Conjunction? { FilterConjunction(all, s.children); }
    } else {
      PredicateRows(s, input, db);
    }
  }

  /** Operators above the predicate see only its rows. */
  lemma {:induction false} BuildCongruent(us: seq<Upper>, a: seq<Plan>, b: seq<Plan>, db: Tables)
    requires AllUppers(us) && BodyRows(a, db) == BodyRows(b, db)
    ensures Rows(Build(us, a), db) == Rows(Build(us, b), db)
    decreases |us|
  {
    if |us| > 1 { BuildCongruent(us[1..], a, b, db); }
    assert FirstChild(Build(us, a), db) == FirstChild(Build(us, b), db);
  }

  ghost predicate IsGenerated(us: seq<Upper>, cs: seq<Expr>, input: seq<Plan>) {
    && AllUppers(us) && cs != [] && AllConditions(cs) && IsGeneratedInput(input)
    && (input != [] ==> IsBare(input[0]))
  }

  /** The rows that reach the operators above, before and after optimization. */
  lemma {:induction false} OptimizedBody(us: seq<Upper>, cs: seq<Expr>, input: seq<Plan>, db: Tables)
    requires IsGenerated(us, cs, input)
    ensures BodyRows([PredicateOn(Conjunction(AND, cs), input)], db) == FilterStream(BodyRows(input, db), cs)
    ensures BodyRows(FinalBody(Settle(cs), input), db) ==
            FilterStream(BodyRows(input, db), if Overlooked(cs) then [FirstColumnCondition(cs)] else cs)
  {
    var all, s := BodyRows(input, db), Settle(cs);
    FilterConjunction(all, cs);
    PredicateRows(Conjunction(AND, cs), input, db);
    SettleIsSettled(cs);
    FinalBodyMeans(s, input, db);
    if Overlooked(cs) {
      SettleOverlooked(cs);
    } else {
      forall row ensures EvalConjuncts(AND, [s], row) == EvalConjuncts(AND, cs, row) {
        SettleMeans(cs, row);
        SingleConjunct(AND, s, row);
      }
      FilterAgree(all, [s], cs);
    }
  }

  /**
   * The optimizer keeps the stream of every generated plan, on every database, errors included, unless its WHERE
   * clause overlooks a constant FALSE.
   */
  lemma {:induction false} OptimizePreserves(us: seq<Upper>, cs: seq<Expr>, input: seq<Plan>, db: Tables)
    requires IsGenerated(us, cs, input) && !Overlooked(cs)
    ensures var p := Build(us, [PredicateOn(Conjunction(AND, cs), input)]);
            Optimized(p).Ok? && Rows(Optimized(p).value, db) == Rows(p, db)
  {
    GeneratedRun(us, cs, input);
    OptimizedBody(us, cs, input, db);
    BuildCongruent(us, [PredicateOn(Conjunction(AND, cs), input)], FinalBody(Settle(cs), input), db);
  }

  predicate AllRowsEvaluate(rows: seq<Row>, cs: seq<Expr>) {
    forall i :: 0 <= i < |rows| ==> AllEvaluate(cs, rows[i])
  }

  /** No row satisfies the condition. */
  predicate NoneSatisfies(rows: seq<Row>, c: Expr) {
    forall i :: 0 <= i < |rows| ==> EvalTruth(c, rows[i]) != Ok(true)
  }

  lemma {:induction false} FilterEmptyIff(s: Stream, c: Expr)
    requires forall i :: 0 <= i < |s.rows| ==> Eval(c, s.rows[i]).Ok?
    ensures FilterStream(s, [c]) == Stream([], s.end) <==> NoneSatisfies(s.rows, c)
    decreases |s.rows|
  {
    if s.rows != [] {
      var rest := Stream(s.rows[1..], s.end);
      SingleConjunct(AND, c, s.rows[0]);
      FilterEmptyIff(rest, c);
      assert NoneSatisfies(s.rows, c) == (EvalTruth(c, s.rows[0]) != Ok(true) && NoneSatisfies(rest.rows, c)) by {
        assert forall i :: 0 <= i < |rest.rows| ==> rest.rows[i] == s.rows[i + 1];
        assert forall i :: 1 <= i < |s.rows| ==> s.rows[i] == rest.rows[i - 1];
      }
    }
  }

  lemma {:induction false} FilterDecided(s: Stream, cs: seq<Expr>)
    requires AllConditions(cs) && SomeConstantFalse(cs) && AllRowsEvaluate(s.rows, cs)
    ensures FilterStream(s, cs) == Stream([], s.end)
    decreases |s.rows|
  {
    if s.rows != [] {
      var rest := Stream(s.rows[1..], s.end);
      assert AllEvaluate(cs, s.rows[0]);
      assert forall i :: 0 <= i < |rest.rows| ==> rest.rows[i] == s.rows[i + 1];
      FoldAllMeans(cs, s.rows[0]);
      FirstSurvivorIs(cs);
      FoldedEvaluate(cs, s.rows[0]);
      DecidingDecides(AND, FoldAll(cs), s.rows[0]);
      FilterDecided(rest, cs);
    }
  }

  lemma {:induction false} FoldedEvaluate(cs: seq<Expr>, row: Row)
    requires AllConditions(cs) && AllEvaluate(cs, row)
    ensures AllEvaluate(FoldAll(cs), row)
  {
    forall i | 0 <= i < |cs| ensures Eval(FoldAll(cs)[i], row).Ok? {
      FoldMeans(cs[i], row);
    }
  }

  lemma {:induction false} FirstColumnMember(cs: seq<Expr>) returns (i: nat)
    requires Overlooked(cs)
    ensures i < |cs| && cs[i] == FirstColumnCondition(cs)
  {
    if IsConstantTrue(cs[0]) {
      i := FirstColumnMember(cs[1..]);
      i := i + 1;
    } else {
      i := 0;
    }
  }

  lemma {:induction false} OverlookedHasFalse(cs: seq<Expr>)
    requires Overlooked(cs)
    ensures SomeConstantFalse(cs)
  {
    if IsConstantTrue(cs[0]) { OverlookedHasFalse(cs[1..]); }
  }

  /**
   * Exactly when the rows below the upper operators survive optimization, on a database where the conditions can be
   * evaluated: no constant FALSE is overlooked, or no input row satisfies the condition that is kept in its place.
   */
  lemma {:induction false} OptimizeExact(us: seq<Upper>, cs: seq<Expr>, input: seq<Plan>, db: Tables)
    requires IsGenerated(us, cs, input) && AllRowsEvaluate(BodyRows(input, db).rows, cs)
    ensures var all := BodyRows(input, db);
            BodyRows(FinalBody(Settle(cs), input), db) == BodyRows([PredicateOn(Conjunction(AND, cs), input)], db)
            <==> (!Overlooked(cs) || NoneSatisfies(all.rows, FirstColumnCondition(cs)))
  {
    var all := BodyRows(input, db);
    OptimizedBody(us, cs, input, db);
    if Overlooked(cs) {
      OverlookedHasFalse(cs);
      FilterDecided(all, cs);
      var k := FirstColumnMember(cs);
      assert forall i :: 0 <= i < |all.rows| ==> AllEvaluate(cs, all.rows[i]) ==> Eval(cs[k], all.rows[i]).Ok?;
      FilterEmptyIff(all, FirstColumnCondition(cs));
    }
  }

  // ---- SELECT and DELETE -------------------------------------------------------------------

  /** Query expressions as the grammar allows them: no comparison and no conjunction. */
  predicate IsPlain(e: Expr)
    decreases e
  {
    match e
    case Cast(c, _) => IsPlain(c)
    case Comparison(_, _, _) => false
    case Conjunction(_, _) => false
    case _ => true
  }

  lemma {:induction false} PlainStable(e: Expr)
    requires IsPlain(e)
    ensures RewriteExpr(e) == (e, false)
    decreases e
  {
    if e.Cast? { PlainStable(e.child); }
  }

  lemma {:induction false} PlainListStable(es: seq<Expr>)
    requires forall i :: 0 <= i < |es| ==> IsPlain(es[i])
    ensures RewriteExprs(es) == (es, false)
  {
    if es != [] {
      PlainStable(es[0]);
      PlainListStable(es[1..]);
      assert [es[0]] + es[1..] == es;
    }
  }

  lemma {:induction false} UnitsAreConditions(units: seq<FilterUnit>)
    requires forall u <- units :: Comparable(u)
    ensures AllConditions(UnitExprs(units))
  {
    forall i | 0 <= i < |units| ensures IsCondition(UnitExprs(units)[i]) {
      assert units[i] in units;
    }
  }

  lemma {:induction false} JoinTreeGenerated(tables: seq<string>)
    ensures IsGeneratedInput(JoinTree(tables))
    ensures tables != [] ==> IsBare(JoinTree(tables)[0])
  {
    if tables != [] { JoinTreeGenerated(tables[..|tables| - 1]); }
  }

  /** A SELECT whose conditions the generator accepts, with query expressions as the grammar allows them. */
  predicate IsSelect(s: SelectStmt) {
    && (forall u <- s.units :: Comparable(u))
    && (forall i :: 0 <= i < |s.queryExpressions| ==> IsPlain(s.queryExpressions[i]))
  }

  function SelectPlan(s: SelectStmt): Plan {
    Build(SelectUppers(s), FilterOperator(s.units, JoinTree(s.tables)))
  }

  function DeletePlan(table: string, units: seq<FilterUnit>): Plan {
    Build([Upper(Delete(table), [])], FilterOperator(units, JoinTree([table])))
  }

  lemma {:induction false} SelectIsGenerated(s: SelectStmt)
    requires IsSelect(s)
    ensures AllUppers(SelectUppers(s))
    ensures s.units != [] ==> IsGenerated(SelectUppers(s), UnitExprs(s.units), JoinTree(s.tables))
  {
    PlainListStable(s.queryExpressions);
    UnitsAreConditions(s.units);
    JoinTreeGenerated(s.tables);
  }

  /** Every SELECT is optimized without error, without discarding table predicates, and keeps its rows. */
  lemma {:induction false} SelectPreserved(s: SelectStmt, db: Tables)
    requires IsSelect(s) && !Overlooked(UnitExprs(s.units))
    ensures Optimized(SelectPlan(s)).Ok? && !RunOverwrites(SelectPlan(s))
    ensures Rows(Optimized(SelectPlan(s)).value, db) == Rows(SelectPlan(s), db)
  {
    SelectIsGenerated(s);
    JoinTreeGenerated(s.tables);
    if s.units == [] {
      UnconditionalRun(SelectUppers(s), JoinTree(s.tables));
    } else {
      GeneratedRun(SelectUppers(s), UnitExprs(s.units), JoinTree(s.tables));
      OptimizePreserves(SelectUppers(s), UnitExprs(s.units), JoinTree(s.tables), db);
    }
  }

  /** Every DELETE likewise removes the same rows. */
  lemma {:induction false} DeletePreserved(table: string, units: seq<FilterUnit>, db: Tables)
    requires (forall u <- units :: Comparable(u)) && !Overlooked(UnitExprs(units))
    ensures Optimized(DeletePlan(table, units)).Ok? && !RunOverwrites(DeletePlan(table, units))
    ensures Optimized(DeletePlan(table, units)).value.kind.Delete?
    ensures Deletes(Optimized(DeletePlan(table, units)).value, db) == Deletes(DeletePlan(table, units), db)
  {
    var us := [Upper(Delete(table), [])];
    UnitsAreConditions(units);
    JoinTreeGenerated([table]);
    if units == [] {
      UnconditionalRun(us, JoinTree([table]));
    } else {
      GeneratedRun(us, UnitExprs(units), JoinTree([table]));
      OptimizedBody(us, UnitExprs(units), JoinTree([table]), db);
      assert FirstChild(DeletePlan(table, units), db) == BodyRows(FilterOperator(units, JoinTree([table])), db);
    }
  }

  predicate IsQueryUpper(u: Upper) {
    u.kind.Projection? || u.kind.GroupBy?
  }

  /** Through projections and groupings, a query shows nothing exactly if nothing reaches them. */
  lemma {:induction false} UppersEmptyIff(us: seq<Upper>, body: seq<Plan>, db: Tables)
    requires us != [] && forall i :: 0 <= i < |us| ==> IsQueryUpper(us[i])
    ensures Rows(Build(us, body), db) == EMPTY_STREAM <==> BodyRows(body, db) == EMPTY_STREAM
    decreases |us|
  {
    var p := Build(us, body);
    if |us| > 1 {
      UppersEmptyIff(us[1..], body, db);
    }
    assert IsQueryUpper(us[0]);
    match p.kind {
      case Projection => ProjectEmptyIff(FirstChild(p, db), p.expressions);
      case GroupBy(keys, sums) => GroupEmptyIff(FirstChild(p, db), keys, sums);
    }
  }

  /** The constant FALSE below the upper operators was lost, and some row gets through in its place. */
  predicate LetsRowsThrough(cs: seq<Expr>, rows: seq<Row>) {
    Overlooked(cs) && !NoneSatisfies(rows, FirstColumnCondition(cs))
  }

  /** With an overlooked FALSE nothing should reach the upper operators; what does reach them ends normally. */
  lemma {:induction false} OverlookedBody(us: seq<Upper>, cs: seq<Expr>, input: seq<Plan>, db: Tables)
    requires IsGenerated(us, cs, input) && AllRowsEvaluate(BodyRows(input, db).rows, cs) && Overlooked(cs)
    ensures BodyRows([PredicateOn(Conjunction(AND, cs), input)], db) == EMPTY_STREAM
    ensures BodyRows(FinalBody(Settle(cs), input), db) == EMPTY_STREAM <==>
            BodyRows(FinalBody(Settle(cs), input), db).rows == []
  {
    var all := BodyRows(input, db);
    if input != [] {
      BareEnds(input[0], db);
    }
    OptimizedBody(us, cs, input, db);
    OverlookedHasFalse(cs);
    FilterDecided(all, cs);
    var k := FirstColumnMember(cs);
    assert forall i :: 0 <= i < |all.rows| ==> AllEvaluate(cs, all.rows[i]) ==> Eval(cs[k], all.rows[i]).Ok?;
    FilterEnds(all, FirstColumnCondition(cs));
  }

  lemma {:induction false} FilterEnds(s: Stream, c: Expr)
    requires forall i :: 0 <= i < |s.rows| ==> Eval(c, s.rows[i]).Ok?
    ensures FilterStream(s, [c]).end == s.end
    decreases |s.rows|
  {
    if s.rows != [] {
      SingleConjunct(AND, c, s.rows[0]);
      FilterEnds(Stream(s.rows[1..], s.end), c);
    }
  }

  /**
   * A SELECT, with or without grouping, shows the same rows, order and end code after optimization if and only if no
   * constant FALSE is overlooked, or no row satisfies the condition kept in its place.
   */
  lemma {:induction false} SelectExact(s: SelectStmt, db: Tables)
    requires IsSelect(s) && AllRowsEvaluate(BodyRows(JoinTree(s.tables), db).rows, UnitExprs(s.units))
    ensures Optimized(SelectPlan(s)).Ok?
    ensures Rows(Optimized(SelectPlan(s)).value, db) == Rows(SelectPlan(s), db) <==>
            !LetsRowsThrough(UnitExprs(s.units), BodyRows(JoinTree(s.tables), db).rows)
  {
    var us, cs, input := SelectUppers(s), UnitExprs(s.units), JoinTree(s.tables);
    if Overlooked(cs) {
      SelectIsGenerated(s);
      GeneratedRun(us, cs, input);
      OptimizeExact(us, cs, input, db);
      OverlookedBody(us, cs, input, db);
      UppersEmptyIff(us, FinalBody(Settle(cs), input), db);
      UppersEmptyIff(us, [PredicateOn(Conjunction(AND, cs), input)], db);
    } else {
      SelectPreserved(s, db);
    }
  }

  /** With an overlooked FALSE the statement denotes no row. */
  lemma {:induction false} OverlookedSelectsNothing(s: SelectStmt, db: Tables)
    requires IsSelect(s) && AllRowsEvaluate(BodyRows(JoinTree(s.tables), db).rows, UnitExprs(s.units))
    requires Overlooked(UnitExprs(s.units))
    ensures Rows(SelectPlan(s), db) == EMPTY_STREAM
  {
    var us, cs, input := SelectUppers(s), UnitExprs(s.units), JoinTree(s.tables);
    SelectIsGenerated(s);
    OverlookedBody(us, cs, input, db);
    UppersEmptyIff(us, [PredicateOn(Conjunction(AND, cs), input)], db);
  }

  lemma {:induction false} OverlookedDeletesNothing(table: string, units: seq<FilterUnit>, db: Tables)
    requires (forall u <- units :: Comparable(u)) && Overlooked(UnitExprs(units))
    requires AllRowsEvaluate(TableRows(db, table), UnitExprs(units))
    ensures Deletes(DeletePlan(table, units), db) == []
  {
    var us, cs, input := [Upper(Delete(table), [])], UnitExprs(units), JoinTree([table]);
    UnitsAreConditions(units);
    JoinTreeGenerated([table]);
    SingleTable(table, db);
    OverlookedBody(us, cs, input, db);
    assert FirstChild(DeletePlan(table, units), db) == BodyRows(FilterOperator(units, input), db);
  }

  lemma {:induction false} SingleTable(table: string, db: Tables)
    ensures BodyRows(JoinTree([table]), db) == Stream(TableRows(db, table), RECORD_EOF)
  {
    assert [table][..0] == [] && JoinTree([]) == [];
    assert JoinTree([table]) == [TableGetOperator(table)];
    FilterNothing(Stream(TableRows(db, table), RECORD_EOF));
  }

  /** A DELETE removes the same rows under exactly the same condition. */
  lemma {:induction false} DeleteExact(table: string, units: seq<FilterUnit>, db: Tables)
    requires forall u <- units :: Comparable(u)
    requires AllRowsEvaluate(TableRows(db, table), UnitExprs(units))
    ensures Optimized(DeletePlan(table, units)).Ok? && Optimized(DeletePlan(table, units)).value.kind.Delete?
    ensures Deletes(Optimized(DeletePlan(table, units)).value, db) == Deletes(DeletePlan(table, units), db) <==>
            !LetsRowsThrough(UnitExprs(units), TableRows(db, table))
  {
    var us, cs, input := [Upper(Delete(table), [])], UnitExprs(units), JoinTree([table]);
    if Overlooked(cs) {
      UnitsAreConditions(units);
      JoinTreeGenerated([table]);
      SingleTable(table, db);
      GeneratedRun(us, cs, input);
      OptimizeExact(us, cs, input, db);
      OverlookedBody(us, cs, input, db);
      assert FirstChild(DeletePlan(table, units), db) == BodyRows(FilterOperator(units, input), db);
    } else {
      DeletePreserved(table, units, db);
    }
  }

  /** `SELECT f FROM t WHERE t.f = 1 AND 1 = 2`, on a table that holds the row f = 1. */
  const EXAMPLE := SelectStmt(["t"], [EXAMPLE_UNIT, EXAMPLE_FALSE], [Field("t", "f", Ints)], [], [])
  const EXAMPLE_UNIT: FilterUnit := FilterUnitRaw(EqualTo, Attr("t", "f", Ints), Const(Int(1)))
  const EXAMPLE_FALSE: FilterUnit := FilterUnitRaw(EqualTo, Const(Int(1)), Const(Int(2)))
  const EXAMPLE_ROW: Row := [Cell("t", "f", Int(1))]
  const EXAMPLE_DB: Tables := map["t" := [EXAMPLE_ROW]]

  lemma {:induction false} ExampleConditions()
    ensures IsSelect(EXAMPLE)
    ensures var cs := [UnitExpr(EXAMPLE_UNIT), UnitExpr(EXAMPLE_FALSE)];
            UnitExprs(EXAMPLE.units) == cs && Overlooked(cs) && FirstColumnCondition(cs) == cs[0]
    ensures EvalTruth(UnitExpr(EXAMPLE_UNIT), EXAMPLE_ROW) == Ok(true)
    ensures EvalTruth(UnitExpr(EXAMPLE_FALSE), EXAMPLE_ROW) == Ok(false)
  {
    var cs := [UnitExpr(EXAMPLE_UNIT), UnitExpr(EXAMPLE_FALSE)];
    assert UnitExprs(EXAMPLE.units) == cs;
    assert IsConstantFalse(cs[1]) && cs[1..] == [cs[1]];
    assert FindCell(EXAMPLE_ROW, "t", "f") == Ok(Int(1));
    assert Eval(cs[0].left, EXAMPLE_ROW) == Ok(Int(1)) && Eval(cs[0].right, EXAMPLE_ROW) == Ok(Int(1));
  }

  lemma {:induction false} FilterOne(row: Row, cs: seq<Expr>, b: bool)
    requires EvalConjuncts(AND, cs, row) == Ok(b)
    ensures FilterStream(Stream([row], RECORD_EOF), cs) == Stream(if b then [row] else [], RECORD_EOF)
  {
    assert [row][1..] == [];
    assert FilterStream(Stream([row][1..], RECORD_EOF), cs) == EMPTY_STREAM;
  }

  lemma {:induction false} ProjectOne(e: Expr, row: Row, v: Value)
    requires Eval(e, row) == Ok(v)
    ensures ProjectStream(Stream([row], RECORD_EOF), [e]) == Stream([[Cell("", "", v)]], RECORD_EOF)
  {
    assert [e][1..] == [] && [row][1..] == [];
    assert ProjectRow([e][1..], row) == Ok([]);
    assert [Cell("", "", v)] + [] == [Cell("", "", v)];
    assert ProjectRow([e], row) == Ok([Cell("", "", v)]);
    assert ProjectStream(Stream([row][1..], RECORD_EOF), [e]) == EMPTY_STREAM;
  }

  /** That query has no rows, yet after optimization it returns one. */
  lemma {:induction false} OverlookedExample()
    ensures Optimized(SelectPlan(EXAMPLE)).Ok?
    ensures Rows(SelectPlan(EXAMPLE), EXAMPLE_DB) == EMPTY_STREAM
    ensures Rows(Optimized(SelectPlan(EXAMPLE)).value, EXAMPLE_DB) == Stream([[Cell("", "", Int(1))]], RECORD_EOF)
  {
    var us, cs, input := SelectUppers(EXAMPLE), UnitExprs(EXAMPLE.units), JoinTree(EXAMPLE.tables);
    var table := Stream([EXAMPLE_ROW], RECORD_EOF);
    ExampleConditions();
    SelectIsGenerated(EXAMPLE);
    GeneratedRun(us, cs, input);
    OptimizedBody(us, cs, input, EXAMPLE_DB);
    assert input == [TableGetOperator("t")];
    FilterNothing(table);
    assert BodyRows(input, EXAMPLE_DB) == table;
    SingleConjunct(AND, cs[0], EXAMPLE_ROW);
    FilterOne(EXAMPLE_ROW, [cs[0]], true);
    SingleConjunct(AND, cs[1], EXAMPLE_ROW);
    assert cs[1..] == [cs[1]];
    FilterOne(EXAMPLE_ROW, cs, false);
    ProjectOne(Field("t", "f", Ints), EXAMPLE_ROW, Int(1));
    var before, after := FilterOperator(EXAMPLE.units, input), FinalBody(Settle(cs), input);
    assert us == [Upper(Projection, EXAMPLE.queryExpressions)];
    assert FirstChild(Build(us, before), EXAMPLE_DB) == EMPTY_STREAM;
    assert FirstChild(Build(us, after), EXAMPLE_DB) == table;
  }

  // ---- the shape on exit -------------------------------------------------------------------

  /** Some predicate operator sits directly above a table scan. */
  predicate PredicateOverScan(p: Plan)
    decreases p, 1
  {
    || (p.kind.Predicate? && exists i :: 0 <= i < |p.children| && p.children[i].kind.TableGet?)
    || AnyPredicateOverScan(p.children)
  }

  predicate AnyPredicateOverScan(ps: seq<Plan>)
    decreases ps, 0
  {
    ps != [] && (PredicateOverScan(ps[0]) || AnyPredicateOverScan(ps[1..]))
  }

  lemma {:induction false} OneHasNone(p: Plan)
    ensures AnyPredicateOverScan([p]) == PredicateOverScan(p)
  {
    assert [p][1..] == [];
  }

  lemma {:induction false} InnerHasNone(p: Plan)
    requires IsInner(p)
    ensures !PredicateOverScan(p)
    decreases p
  {
    if p.kind.Join? {
      InnerHasNone(p.children[0]);
      InnerHasNone(p.children[1]);
      OneHasNone(p.children[1]);
      assert p.children[1..] == [p.children[1]];
    }
  }

  lemma {:induction false} BuildHasNone(us: seq<Upper>, body: seq<Plan>)
    requires AllUppers(us) && |body| <= 1 && (body != [] ==> !PredicateOverScan(body[0]))
    ensures !PredicateOverScan(Build(us, body))
    decreases |us|
  {
    if |us| == 1 {
      if body != [] {
        OneHasNone(body[0]);
        assert body == [body[0]];
      }
    } else {
      BuildHasNone(us[1..], body);
      OneHasNone(Build(us[1..], body));
    }
  }

  /** On exit from the loop no predicate operator is left directly above a scan. */
  lemma {:induction false} NoPredicateOverScanOnExit(us: seq<Upper>, cs: seq<Expr>, input: seq<Plan>)
    requires AllUppers(us) && cs != [] && AllConditions(cs) && IsGeneratedInput(input)
    ensures var p := Build(us, [PredicateOn(Conjunction(AND, cs), input)]);
            Optimized(p).Ok? && !PredicateOverScan(Optimized(p).value)
  {
    var s := Settle(cs);
    GeneratedRun(us, cs, input);
    var body := FinalBody(s, input);
    if input != [] {
      InnerHasNone(input[0]);
      OneHasNone(input[0]);
      assert input == [input[0]];
    }
    if !s.ValueExpr? {
      if IsScan(input) { InnerHasNone(body[0]); }
      assert !PredicateOverScan(body[0]);
    }
    BuildHasNone(us, body);
  }
}
