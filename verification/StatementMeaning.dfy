/** Which rows a SELECT shows and a DELETE removes, said without plans, and without evaluating any condition. */
module StatementMeaning {
  import opened Common
  import opened Expressions
  import opened Streams
  import opened LogicalPlan
  import opened GeneratedPlans
  import opened QueryMeaning
  import opened PhysicalPlan
  import opened JoinOrder

  /** What every statement here is: a join of some tables under conditions the generator accepts. */
  predicate IsQuery(tables: seq<string>, units: seq<FilterUnit>) {
    tables != [] && forall u <- units :: Comparable(u)
  }

  predicate IsUngrouped(s: SelectStmt) {
    IsSelect(s) && s.tables != [] && s.groupBy == [] && s.aggregates == []
  }

  // ---- the rows that satisfy them ------------------------------------------------------------

  predicate IsIncreasing(s: seq<nat>) {
    forall i, j :: 0 <= i < j < |s| ==> s[i] < s[j]
  }

  /** In order, the places of exactly the rows that satisfy the conditions. */
  ghost predicate ArePlaces(places: seq<nat>, rows: seq<Row>, units: seq<FilterUnit>) {
    IsIncreasing(places) && forall i: nat :: i in places <==> i < |rows| && Satisfies(rows[i], units)
  }

  /** The rows at some places. */
  predicate AreRowsAt(out: seq<Row>, rows: seq<Row>, places: seq<nat>) {
    |out| == |places| && forall k :: 0 <= k < |out| ==> places[k] < |rows| && out[k] == rows[places[k]]
  }

  /** All the rows that satisfy the conditions, in order. */
  ghost predicate AreSelected(out: seq<Row>, rows: seq<Row>, units: seq<FilterUnit>) {
    exists places :: ArePlaces(places, rows, units) && AreRowsAt(out, rows, places)
  }

  function OneOn(places: seq<nat>): (r: seq<nat>)
    ensures |r| == |places| && forall k :: 0 <= k < |r| ==> r[k] == places[k] + 1
  {
    seq(|places|, k requires 0 <= k < |places| => places[k] + 1)
  }

  lemma {:induction false} PlacesBehind(places: seq<nat>, rows: seq<Row>, units: seq<FilterUnit>)
    requires rows != [] && ArePlaces(places, rows[1..], units)
    ensures ArePlaces((if Satisfies(rows[0], units) then [0] else []) + OneOn(places), rows, units)
  {
    var all := (if Satisfies(rows[0], units) then [0] else []) + OneOn(places);
    forall i: nat ensures i in all <==> i < |rows| && Satisfies(rows[i], units) {
      if i > 0 && i in all {
        var k :| 0 <= k < |places| && OneOn(places)[k] == i;
        assert places[k] in places && places[k] == i - 1;
      }
      if i > 0 && i - 1 in places {
        var k :| 0 <= k < |places| && places[k] == i - 1;
        assert OneOn(places)[k] == i && OneOn(places)[k] in OneOn(places);
      }
      if 0 < i < |rows| { assert rows[1..][i - 1] == rows[i]; }
    }
  }

  lemma {:induction false} RowsBehind(out: seq<Row>, rows: seq<Row>, places: seq<nat>)
    requires rows != [] && AreRowsAt(out, rows[1..], places)
    ensures AreRowsAt(out, rows, [] + OneOn(places)) && AreRowsAt([rows[0]] + out, rows, [0] + OneOn(places))
  {
    var all := [rows[0]] + out;
    forall k | 0 <= k < |all| ensures ([0] + OneOn(places))[k] < |rows| && all[k] == rows[([0] + OneOn(places))[k]] {
      if k > 0 { assert out[k - 1] == rows[1..][places[k - 1]]; }
    }
  }

  /** What the filter does with the first row. */
  lemma {:induction false} FilterFirst(s: Stream, units: seq<FilterUnit>)
    requires s.rows != [] && EvalConjuncts(AND, UnitExprs(units), s.rows[0]).Ok?
    ensures var rest := FilterStream(Stream(s.rows[1..], s.end), UnitExprs(units));
      FilterStream(s, UnitExprs(units)) == if Satisfies(s.rows[0], units) then Cons(s.rows[0], rest) else rest
  {
    UnitsMean(units, s.rows[0]);
  }

  /** Filtering keeps exactly the rows that satisfy the conditions. */
  lemma {:induction false} FilterMeans(s: Stream, units: seq<FilterUnit>) returns (places: seq<nat>)
    requires RunsThrough(s.rows, UnitExprs(units))
    ensures ArePlaces(places, s.rows, units)
    ensures AreRowsAt(FilterStream(s, UnitExprs(units)).rows, s.rows, places)
    ensures FilterStream(s, UnitExprs(units)).end == s.end
    decreases |s.rows|
  {
    places := [];
    if s.rows != [] {
      var rest := Stream(s.rows[1..], s.end);
      var behind := FilterMeans(rest, units);
      PlacesBehind(behind, s.rows, units);
      FilterFirst(s, units);
      RowsBehind(FilterStream(rest, UnitExprs(units)).rows, s.rows, behind);
      places := (if Satisfies(s.rows[0], units) then [0] else []) + OneOn(behind);
    }
  }

  // ---- DELETE --------------------------------------------------------------------------------

  lemma {:induction false} EvaluatedRunsThrough(rows: seq<Row>, cs: seq<Expr>)
    requires AllRowsEvaluate(rows, cs)
    ensures RunsThrough(rows, cs)
  {
    forall i | 0 <= i < |rows| ensures EvalConjuncts(AND, cs, rows[i]).Ok? {
      assert AllEvaluate(cs, rows[i]);
      ConjunctsEvaluate(cs, rows[i]);
    }
  }

  lemma {:induction false} ConjunctsEvaluate(cs: seq<Expr>, row: Row)
    requires AllEvaluate(cs, row)
    ensures EvalConjuncts(AND, cs, row).Ok?
  {
    if cs != [] { ConjunctsEvaluate(cs[1..], row); }
  }

  /** The predicate operator over some input, or the bare input when there is no condition. */
  lemma {:induction false} FilteredRows(units: seq<FilterUnit>, input: seq<Plan>, db: Tables)
    ensures BodyRows(FilterOperator(units, input), db) == FilterStream(BodyRows(input, db), UnitExprs(units))
  {
    if units == [] {
      FilterNothing(BodyRows(input, db));
    } else {
      PredicateRows(Conjunction(AND, UnitExprs(units)), input, db);
      FilterConjunction(BodyRows(input, db), UnitExprs(units));
    }
  }

  /** A DELETE removes exactly the rows of the table that satisfy its conditions. */
  lemma {:induction false} DeleteDenotes(table: string, units: seq<FilterUnit>, db: Tables)
    requires AllRowsEvaluate(TableRows(db, table), UnitExprs(units))
    ensures AreSelected(Deletes(DeletePlan(table, units), db), TableRows(db, table), units)
  {
    SingleTable(table, db);
    FilteredRows(units, JoinTree([table]), db);
    EvaluatedRunsThrough(TableRows(db, table), UnitExprs(units));
    var places := FilterMeans(Stream(TableRows(db, table), RECORD_EOF), units);
    assert FirstChild(DeletePlan(table, units), db) == BodyRows(FilterOperator(units, JoinTree([table])), db);
  }

  // ---- SELECT --------------------------------------------------------------------------------

  /** In the order of the join, the combinations of rows that satisfy the conditions, and all of them. */
  ghost predicate ArePicks(picks: seq<seq<nat>>, s: SelectStmt, db: Tables) {
    var sizes := Sizes(s.tables, db);
    && (forall k :: 0 <= k < |picks| ==>
          AreIndices(sizes, picks[k]) && Satisfies(Combination(s.tables, db, picks[k]), s.units))
    && (forall i, k :: 0 <= i < k < |picks| ==> Rank(sizes, picks[i]) < Rank(sizes, picks[k]))
    && (forall indices: seq<nat> :: AreIndices(sizes, indices) && Satisfies(Combination(s.tables, db, indices), s.units) ==>
          indices in picks)
  }

  /** What an ungrouped SELECT asks for. */
  ghost predicate IsAnswer(rows: seq<Row>, s: SelectStmt, db: Tables) {
    exists picks :: ArePicks(picks, s, db) && AreShown(rows, picks, s, db)
  }

  ghost predicate AreShown(rows: seq<Row>, picks: seq<seq<nat>>, s: SelectStmt, db: Tables)
    requires ArePicks(picks, s, db)
  {
    && |rows| == |picks|
    && forall k :: 0 <= k < |rows| ==> Shows(rows[k], s.queryExpressions, Combination(s.tables, db, picks[k]))
  }

  lemma {:induction false} SelectIs(s: SelectStmt, db: Tables)
    requires IsUngrouped(s)
    ensures var all := BodyRows(JoinTree(s.tables), db);
      Rows(SelectPlan(s), db) == ProjectStream(FilterStream(all, UnitExprs(s.units)), s.queryExpressions)
  {
    FilteredRows(s.units, JoinTree(s.tables), db);
    assert SelectUppers(s) == [Upper(Projection, s.queryExpressions)];
    assert FirstChild(SelectPlan(s), db) == BodyRows(FilterOperator(s.units, JoinTree(s.tables)), db);
  }

  lemma {:induction false} ProjectShows(s: Stream, exprs: seq<Expr>)
    requires AllProject(s.rows, exprs)
    ensures var out := ProjectStream(s, exprs);
      && |out.rows| == |s.rows| && out.end == s.end
      && forall k :: 0 <= k < |s.rows| ==> Shows(out.rows[k], exprs, s.rows[k])
    decreases |s.rows|
  {
    if s.rows != [] {
      ProjectRowExact(exprs, s.rows[0]);
      ProjectShows(Stream(s.rows[1..], s.end), exprs);
    }
  }

  lemma {:induction false} RoundBehind(x: nat, y: nat, size: nat)
    ensures x < y ==> x * size + size <= y * size
  {
    if x + 1 < y {
      RoundBehind(x, y - 1, size);
      assert y * size == (y - 1) * size + size;
    } else if x + 1 == y {
      assert y * size == x * size + size;
    }
  }

  lemma {:induction false} DigitsUnique(x: nat, a: nat, y: nat, b: nat, size: nat)
    requires x * size + a == y * size + b && a < size && b < size
    ensures x == y && a == b
  {
    RoundBehind(x, y, size);
    RoundBehind(y, x, size);
  }

  /** Different combinations stand at different places. */
  lemma {:induction false} RankInjective(sizes: seq<nat>, a: seq<nat>, b: seq<nat>)
    requires AreIndices(sizes, a) && AreIndices(sizes, b) && Rank(sizes, a) == Rank(sizes, b)
    ensures a == b
    decreases |sizes|
  {
    if sizes != [] {
      var n := |sizes| - 1;
      DigitsUnique(Rank(sizes[..n], a[..n]), a[n], Rank(sizes[..n], b[..n]), b[n], sizes[n]);
      RankInjective(sizes[..n], a[..n], b[..n]);
      assert a == a[..n] + [a[n]] && b == b[..n] + [b[n]];
    }
  }

  lemma {:induction false} PicksAt(sizes: seq<nat>, places: seq<nat>) returns (picks: seq<seq<nat>>)
    requires forall k :: 0 <= k < |places| ==> places[k] < Product(sizes)
    ensures |picks| == |places|
    ensures forall k :: 0 <= k < |picks| ==> AreIndices(sizes, picks[k]) && Rank(sizes, picks[k]) == places[k]
  {
    picks := [];
    if places != [] {
      var n := |places| - 1;
      picks := PicksAt(sizes, places[..n]);
      var last := EveryRankIsTaken(sizes, places[n]);
      picks := picks + [last];
    }
  }

  /** The places of the satisfying rows of the join are the ranks of the satisfying combinations. */
  lemma {:induction false} PlacesArePicks(s: SelectStmt, db: Tables, places: seq<nat>) returns (picks: seq<seq<nat>>)
    requires s.tables != [] && ArePlaces(places, BodyRows(JoinTree(s.tables), db).rows, s.units)
    ensures ArePicks(picks, s, db) && |picks| == |places|
    ensures var rows := BodyRows(JoinTree(s.tables), db).rows;
      forall k :: 0 <= k < |places| ==> places[k] < |rows| && rows[places[k]] == Combination(s.tables, db, picks[k])
  {
    var rows, sizes := BodyRows(JoinTree(s.tables), db).rows, Sizes(s.tables, db);
    JoinSize(s.tables, db);
    assert forall k :: 0 <= k < |places| ==> places[k] in places;
    picks := PicksAt(sizes, places);
    forall k | 0 <= k < |places| ensures rows[places[k]] == Combination(s.tables, db, picks[k]) {
      JoinTreeAt(s.tables, db, picks[k]);
    }
    forall indices: seq<nat> | AreIndices(sizes, indices) && Satisfies(Combination(s.tables, db, indices), s.units)
      ensures indices in picks
    {
      JoinTreeAt(s.tables, db, indices);
      assert Rank(sizes, indices) in places;
      var k :| 0 <= k < |places| && places[k] == Rank(sizes, indices);
      RankInjective(sizes, indices, picks[k]);
    }
  }

  /** An ungrouped SELECT stands for exactly what it asks for. */
  lemma {:induction false} SelectDenotes(s: SelectStmt, db: Tables)
    requires IsUngrouped(s) && AllRowsEvaluate(BodyRows(JoinTree(s.tables), db).rows, UnitExprs(s.units))
    requires AllProject(BodyRows(JoinTree(s.tables), db).rows, s.queryExpressions)
    ensures IsAnswer(Rows(SelectPlan(s), db).rows, s, db) && Rows(SelectPlan(s), db).end == RECORD_EOF
  {
    var all := BodyRows(JoinTree(s.tables), db);
    SelectIs(s, db);
    JoinTreeRows(s.tables, db);
    EvaluatedRunsThrough(all.rows, UnitExprs(s.units));
    var places := FilterMeans(all, s.units);
    var picks := PlacesArePicks(s, db, places);
    var kept := FilterStream(all, UnitExprs(s.units));
    ProjectShows(kept, s.queryExpressions);
    assert AreShown(Rows(SelectPlan(s), db).rows, picks, s, db);
  }

  // ---- there is one answer -------------------------------------------------------------------

  ghost predicate SameNumbers(a: seq<nat>, b: seq<nat>) {
    forall i: nat :: i in a <==> i in b
  }

  lemma {:induction false} IncreasingEqual(a: seq<nat>, b: seq<nat>)
    requires IsIncreasing(a) && IsIncreasing(b) && SameNumbers(a, b)
    ensures a == b
  {
    SomeNumber(a);
    SomeNumber(b);
    if a != [] && b != [] {
      var m, n := |a| - 1, |b| - 1;
      LastOfBoth(a, b);
      IncreasingEqual(a[..m], b[..n]);
      assert a == a[..m] + [a[m]] && b == b[..n] + [b[n]];
    }
  }

  lemma {:induction false} SomeNumber(a: seq<nat>)
    ensures a != [] ==> exists i: nat :: i in a
  {
    if a != [] { assert a[0] in a; }
  }

  lemma {:induction false} LastOfBoth(a: seq<nat>, b: seq<nat>)
    requires IsIncreasing(a) && IsIncreasing(b) && SameNumbers(a, b) && a != [] && b != []
    ensures a[|a| - 1] == b[|b| - 1] && SameNumbers(a[..|a| - 1], b[..|b| - 1])
  {
    var m, n := |a| - 1, |b| - 1;
    assert a[m] in a && b[n] in b;
    assert a == a[..m] + [a[m]] && b == b[..n] + [b[n]];
    forall i: nat ensures i in a[..m] <==> i in b[..n] {
      assert i in a[..m] <==> i in a && i != a[m];
      assert i in b[..n] <==> i in b && i != b[n];
    }
  }

  function Ranks(picks: seq<seq<nat>>, sizes: seq<nat>): (r: seq<nat>)
    requires forall k :: 0 <= k < |picks| ==> AreIndices(sizes, picks[k])
    ensures |r| == |picks| && forall k :: 0 <= k < |r| ==> AreIndices(sizes, picks[k]) && r[k] == Rank(sizes, picks[k])
  {
    seq(|picks|, k requires 0 <= k < |picks| => assert AreIndices(sizes, picks[k]); Rank(sizes, picks[k]))
  }

  lemma {:induction false} RanksWithin(a: seq<seq<nat>>, b: seq<seq<nat>>, s: SelectStmt, db: Tables, rank: nat)
    requires ArePicks(a, s, db) && ArePicks(b, s, db) && rank in Ranks(a, Sizes(s.tables, db))
    ensures rank in Ranks(b, Sizes(s.tables, db))
  {
    var k :| 0 <= k < |a| && Ranks(a, Sizes(s.tables, db))[k] == rank;
    assert a[k] in b;
    var i :| 0 <= i < |b| && b[i] == a[k];
    assert Ranks(b, Sizes(s.tables, db))[i] == rank;
  }

  lemma {:induction false} PicksAreUnique(a: seq<seq<nat>>, b: seq<seq<nat>>, s: SelectStmt, db: Tables)
    requires ArePicks(a, s, db) && ArePicks(b, s, db)
    ensures a == b
  {
    var ra, rb := Ranks(a, Sizes(s.tables, db)), Ranks(b, Sizes(s.tables, db));
    forall rank: nat ensures rank in ra <==> rank in rb {
      if rank in ra { RanksWithin(a, b, s, db, rank); }
      if rank in rb { RanksWithin(b, a, s, db, rank); }
    }
    IncreasingEqual(ra, rb);
    forall k | 0 <= k < |a| ensures a[k] == b[k] {
      RankInjective(Sizes(s.tables, db), a[k], b[k]);
    }
  }

  /** What a SELECT asks for leaves nothing open. */
  lemma {:induction false} AnswerIsUnique(a: seq<Row>, b: seq<Row>, s: SelectStmt, db: Tables)
    requires IsAnswer(a, s, db) && IsAnswer(b, s, db)
    ensures a == b
  {
    var p :| ArePicks(p, s, db) && AreShown(a, p, s, db);
    var q :| ArePicks(q, s, db) && AreShown(b, q, s, db);
    PicksAreUnique(p, q, s, db);
    forall k | 0 <= k < |a| ensures a[k] == b[k] {
      assert Shows(a[k], s.queryExpressions, Combination(s.tables, db, p[k]));
      assert Shows(b[k], s.queryExpressions, Combination(s.tables, db, p[k]));
    }
  }

  /** Nor does what a DELETE asks for. */
  lemma {:induction false} SelectedAreUnique(a: seq<Row>, b: seq<Row>, rows: seq<Row>, units: seq<FilterUnit>)
    requires AreSelected(a, rows, units) && AreSelected(b, rows, units)
    ensures a == b
  {
    var p :| ArePlaces(p, rows, units) && AreRowsAt(a, rows, p);
    var q :| ArePlaces(q, rows, units) && AreRowsAt(b, rows, q);
    assert SameNumbers(p, q);
    IncreasingEqual(p, q);
  }
}
