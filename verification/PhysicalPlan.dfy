/** Physical plans, how a logical plan is compiled to one, and the rows each one yields. */
module PhysicalPlan {
  import opened Common
  import opened Expressions
  import opened Streams
  import opened LogicalPlan

  /** `Project` and `Collect` (the input of a delete) may have lost their child. */
  datatype Physical =
    | TableScan(table: string, predicates: seq<Expr>)
    | IndexScan(table: string, field: string, value: Value, predicates: seq<Expr>)
    | Filter(expression: Expr, child: Physical)
    | Project(expressions: seq<Expr>, input: seq<Physical>)
    | NestedLoopJoin(left: Physical, right: Physical)
    | Collect(target: string, input: seq<Physical>)

  // ---- storage, as the executor sees it ----------------------------------------------------

  /** A record an index leads to; some are not visible to the running transaction. */
  datatype Entry = Entry(row: Row, visible: bool)

  /** Tables as their visible rows, and the entries of each index in index order. */
  datatype Database = Database(tables: Tables, indexes: map<(string, string), seq<Entry>>)

  predicate EqualValues(a: Value, b: Value) {
    Compare(a, b) == Some(0) || Compare(b, a) == Some(0)
  }

  predicate Matches(row: Row, table: string, field: string, value: Value) {
    var cell := FindCell(row, table, field);
    cell.Ok? && EqualValues(cell.value, value)
  }

  /** The range scan of an index from `value` to `value`: exactly the entries whose field equals it. */
  function Lookup(entries: seq<Entry>, table: string, field: string, value: Value): seq<Entry> {
    if entries == [] then []
    else (if Matches(entries[0].row, table, field, value) then [entries[0]] else []) +
         Lookup(entries[1..], table, field, value)
  }

  function IndexEntries(db: Database, table: string, field: string, value: Value): seq<Entry> {
    if (table, field) in db.indexes then Lookup(db.indexes[(table, field)], table, field, value) else []
  }

  /** An index scan filters a record before it asks whether the record is visible. */
  function IndexStream(entries: seq<Entry>, preds: seq<Expr>): Stream {
    if entries == [] then EMPTY_STREAM
    else match EvalConjuncts(AND, preds, entries[0].row)
      case Err(rc) => Stream([], rc)
      case Ok(keep) =>
        var rest := IndexStream(entries[1..], preds);
        if keep && entries[0].visible then Cons(entries[0].row, rest) else rest
  }

  /** The stream a physical plan yields. */
  function Yields(p: Physical, db: Database): Stream
    decreases p
  {
    match p
    case TableScan(t, preds) => FilterStream(Stream(TableRows(db.tables, t), RECORD_EOF), preds)
    case IndexScan(t, f, v, preds) => IndexStream(IndexEntries(db, t, f, v), preds)
    case Filter(e, child) => FilterStream(Yields(child, db), [e])
    case Project(exprs, input) => if input == [] then EMPTY_STREAM else ProjectStream(Yields(input[0], db), exprs)
    case NestedLoopJoin(l, r) => ProductStream(Yields(l, db), Yields(r, db))
    case Collect(_, _) => EMPTY_STREAM
  }

  /** The records a delete gathers while it is opened. */
  function Collected(p: Physical, db: Database): seq<Row>
    requires p.Collect?
  {
    if p.input == [] then [] else Yields(p.input[0], db).rows
  }

  // ---- compilation -------------------------------------------------------------------------

  type Catalog = set<(string, string)>

  /** The column and constant of an equality between them. */
  function EqualityOf(e: Expr): Option<(string, Value)> {
    match e
    case Comparison(EqualTo, Field(_, f, _), ValueExpr(v)) => Some((f, v))
    case Comparison(EqualTo, ValueExpr(v), Field(_, f, _)) => Some((f, v))
    case _ => None
  }

  /** The first equality on an indexed column of this table. */
  function ChooseIndex(table: string, preds: seq<Expr>, catalog: Catalog): Option<(string, Value)> {
    if preds == [] then None
    else
      var eq := EqualityOf(preds[0]);
      if eq.Some? && (table, eq.value.0) in catalog then eq else ChooseIndex(table, preds[1..], catalog)
  }

  function CompileScan(table: string, preds: seq<Expr>, catalog: Catalog): Physical {
    match ChooseIndex(table, preds, catalog)
    case Some((f, v)) => IndexScan(table, f, v, preds)
    case None => TableScan(table, preds)
  }

  /** The choice as it runs: the loop keeps the last column constant it saw until an index is found. */
  method CreateScan(table: string, predicates: seq<Expr>, catalog: Catalog) returns (oper: Physical)
    ensures oper == CompileScan(table, predicates, catalog)
  {
    var index: Option<string> := None;
    var valueExpr: Option<Value> := None;
    var i := 0;
    while i < |predicates| && index.None?
      invariant 0 <= i <= |predicates|
      invariant index.None? ==> ChooseIndex(table, predicates, catalog) == ChooseIndex(table, predicates[i..], catalog)
      invariant index.Some? ==>
                  valueExpr.Some? && ChooseIndex(table, predicates, catalog) == Some((index.value, valueExpr.value))
    {
      var e := predicates[i];
      assert predicates[i..][0] == e && predicates[i..][1..] == predicates[i + 1..];
      if e.Comparison? && e.comp.EqualTo? && (e.left.ValueExpr? || e.right.ValueExpr?) {
        var field: Option<string> := None;
        if e.left.Field? {
          field, valueExpr := Some(e.left.field), Some(e.right.value);
        } else if e.right.Field? {
          field, valueExpr := Some(e.right.field), Some(e.left.value);
        }
        if field.Some? && (table, field.value) in catalog {
          index := field;
        }
      }
      i := i + 1;
    }
    if index.Some? {
      return IndexScan(table, index.value, valueExpr.value, predicates);
    }
    return TableScan(table, predicates);
  }

  /** PhysicalPlanGenerator::create. UNDEFINED: an ASSERT on the shape of the plan fails. */
  function Compile(p: Plan, catalog: Catalog): Result<Physical>
    decreases p
  {
    match p.kind
    case TableGet(t, preds) => Ok(CompileScan(t, preds, catalog))
    case Predicate =>
      if |p.children| != 1 || |p.expressions| != 1 || p.expressions[0].ValueType() != Booleans then Err(UNDEFINED)
      else
        var child :- Compile(p.children[0], catalog);
        Ok(Filter(p.expressions[0], child))
    case Projection =>
      if p.children == [] then Ok(Project(p.expressions, []))
      else
        var child :- Compile(p.children[0], catalog);
        Ok(Project(p.expressions, [child]))
    case Join =>
      if |p.children| != 2 then Err(INTERNAL)
      else
        var l :- Compile(p.children[0], catalog);
        var r :- Compile(p.children[1], catalog);
        Ok(NestedLoopJoin(l, r))
    case Delete(t) =>
      if p.children == [] then Ok(Collect(t, []))
      else
        var child :- Compile(p.children[0], catalog);
        Ok(Collect(t, [child]))
    case GroupBy(_, _) =>
      // The grouping operators are not part of a physical plan here; HashGroupBy models the hashing one.
      if |p.children| != 1 then Err(UNDEFINED)
      else
        var child :- Compile(p.children[0], catalog);
        Err(UNIMPLEMENTED)
  }

  // ---- order does not matter ---------------------------------------------------------------

  function Flat(f: Row -> seq<Row>, s: seq<Row>): seq<Row> {
    if s == [] then [] else f(s[0]) + Flat(f, s[1..])
  }

  lemma {:induction false} FlatSplit(f: Row -> seq<Row>, a: seq<Row>, b: seq<Row>)
    ensures Flat(f, a + b) == Flat(f, a) + Flat(f, b)
  {
    if a == [] {
      assert a + b == b;
    } else {
      assert (a + b)[1..] == a[1..] + b;
      FlatSplit(f, a[1..], b);
    }
  }

  lemma {:induction false} FlatRemove(g: Row -> seq<Row>, b: seq<Row>, i: nat)
    requires i < |b|
    ensures multiset(b) == multiset(b[..i] + b[i + 1..]) + multiset{b[i]}
    ensures multiset(Flat(g, b)) == multiset(Flat(g, b[..i] + b[i + 1..])) + multiset(g(b[i]))
  {
    assert b == b[..i] + ([b[i]] + b[i + 1..]);
    FlatSplit(g, b[..i], [b[i]] + b[i + 1..]);
    FlatSplit(g, b[..i], b[i + 1..]);
    assert ([b[i]] + b[i + 1..])[1..] == b[i + 1..];
  }

  /** The head of one sequence, found and removed in a permutation of it. */
  lemma {:induction false} RemoveHead(a: seq<Row>, b: seq<Row>) returns (i: nat)
    requires a != [] && multiset(a) == multiset(b)
    ensures i < |b| && b[i] == a[0] && multiset(a[1..]) == multiset(b[..i] + b[i + 1..])
  {
    assert a == [a[0]] + a[1..];
    assert a[0] in multiset(b);
    i :| 0 <= i < |b| && b[i] == a[0];
    assert b == b[..i] + ([b[i]] + b[i + 1..]);
    assert multiset(b[..i] + b[i + 1..]) == multiset(b) - multiset{b[i]};
    assert multiset(a[1..]) == multiset(a) - multiset{a[0]};
  }

  /** Mapping rows to bags of rows depends on neither the order of the input nor the order inside the bags. */
  lemma {:induction false} FlatPermutation(f: Row -> seq<Row>, g: Row -> seq<Row>, a: seq<Row>, b: seq<Row>)
    requires multiset(a) == multiset(b)
    requires forall x :: multiset(f(x)) == multiset(g(x))
    ensures multiset(Flat(f, a)) == multiset(Flat(g, b))
  {
    if a == [] {
      assert |multiset(b)| == 0;
    } else {
      var i := RemoveHead(a, b);
      FlatRemove(g, b, i);
      FlatPermutation(f, g, a[1..], b[..i] + b[i + 1..]);
    }
  }

  function KeepIf(preds: seq<Expr>): Row -> seq<Row> {
    row => if EvalConjuncts(AND, preds, row) == Ok(true) then [row] else []
  }

  function Projected(exprs: seq<Expr>): Row -> seq<Row> {
    row => match ProjectRow(exprs, row) case Ok(out) => [out] case Err(_) => []
  }

  function Paired(rights: seq<Row>): Row -> seq<Row> {
    l => PairWith(l, rights)
  }

  function PairedWith(left: Row): Row -> seq<Row> {
    r => [left + r]
  }

  lemma {:induction false} FilterIsFlat(s: Stream, preds: seq<Expr>)
    requires RunsThrough(s.rows, preds)
    ensures FilterStream(s, preds) == Stream(Flat(KeepIf(preds), s.rows), s.end)
    decreases |s.rows|
  {
    if s.rows != [] { FilterIsFlat(Stream(s.rows[1..], s.end), preds); }
  }

  lemma {:induction false} FilterRanThrough(s: Stream, preds: seq<Expr>)
    requires FilterStream(s, preds).end == RECORD_EOF
    ensures RunsThrough(s.rows, preds) && s.end == RECORD_EOF
    decreases |s.rows|
  {
    if s.rows != [] {
      if EvalConjuncts(AND, preds, s.rows[0]).Err? { EvalConjunctsErrorCode(AND, preds, s.rows[0]); }
      FilterRanThrough(Stream(s.rows[1..], s.end), preds);
    }
  }

  predicate AllProject(rows: seq<Row>, exprs: seq<Expr>) {
    forall i :: 0 <= i < |rows| ==> ProjectRow(exprs, rows[i]).Ok?
  }

  lemma {:induction false} ProjectIsFlat(s: Stream, exprs: seq<Expr>)
    requires AllProject(s.rows, exprs)
    ensures ProjectStream(s, exprs) == Stream(Flat(Projected(exprs), s.rows), s.end)
    decreases |s.rows|
  {
    if s.rows != [] { ProjectIsFlat(Stream(s.rows[1..], s.end), exprs); }
  }

  lemma {:induction false} ProjectRanThrough(s: Stream, exprs: seq<Expr>)
    requires ProjectStream(s, exprs).end == RECORD_EOF
    ensures AllProject(s.rows, exprs) && s.end == RECORD_EOF
    decreases |s.rows|
  {
    if s.rows != [] {
      if ProjectRow(exprs, s.rows[0]).Err? { ProjectErrorCode(exprs, s.rows[0]); }
      ProjectRanThrough(Stream(s.rows[1..], s.end), exprs);
    }
  }

  lemma {:induction false} PairIsFlat(l: Row, rights: seq<Row>)
    ensures PairWith(l, rights) == Flat(PairedWith(l), rights)
  {
    if rights != [] { PairIsFlat(l, rights[1..]); }
  }

  lemma {:induction false} FlatEmpty(s: seq<Row>)
    ensures Flat(Paired([]), s) == []
  {
    if s != [] { FlatEmpty(s[1..]); }
  }

  lemma {:induction false} ProductIsFlat(l: Stream, r: Stream)
    requires l.end == RECORD_EOF && r.end == RECORD_EOF
    ensures ProductStream(l, r) == Stream(Flat(Paired(r.rows), l.rows), RECORD_EOF)
    decreases |l.rows|
  {
    if l.rows != [] {
      if r.rows == [] { FlatEmpty(l.rows); }
      ProductIsFlat(Stream(l.rows[1..], l.end), r);
    }
  }

  // ---- the index sees the same rows --------------------------------------------------------

  function VisibleRows(entries: seq<Entry>): seq<Row> {
    if entries == [] then []
    else (if entries[0].visible then [entries[0].row] else []) + VisibleRows(entries[1..])
  }

  function EntryRows(entries: seq<Entry>): (rows: seq<Row>)
    ensures |rows| == |entries| && forall i :: 0 <= i < |rows| ==> rows[i] == entries[i].row
  {
    seq(|entries|, i requires 0 <= i < |entries| => entries[i].row)
  }

  /** Every cell of a row of table `t` is labelled `t`. */
  predicate OwnCells(row: Row, t: string) {
    forall i :: 0 <= i < |row| ==> row[i].table == t
  }

  predicate AllOwnCells(rows: seq<Row>, t: string) {
    forall i :: 0 <= i < |rows| ==> OwnCells(rows[i], t)
  }

  /** Each index of a table leads to every visible row of it, and to nothing of another table. */
  predicate IsIndexed(db: Database) {
    forall key :: key in db.indexes ==>
      && multiset(VisibleRows(db.indexes[key])) == multiset(TableRows(db.tables, key.0))
      && AllOwnCells(EntryRows(db.indexes[key]), key.0)
  }

  lemma {:induction false} ForeignColumn(row: Row, t: string, t': string, f: string)
    requires OwnCells(row, t) && t' != t
    ensures FindCell(row, t', f).Err?
  {
    if row != [] { ForeignColumn(row[1..], t, t', f); }
  }

  /** A row that passes the chosen equality has the looked-up value in the indexed column. */
  lemma {:induction false} PassingRowMatches(row: Row, t: string, preds: seq<Expr>, catalog: Catalog)
    requires OwnCells(row, t) && EvalConjuncts(AND, preds, row) == Ok(true)
    requires ChooseIndex(t, preds, catalog).Some?
    ensures var (f, v) := ChooseIndex(t, preds, catalog).value; Matches(row, t, f, v)
  {
    var eq := EqualityOf(preds[0]);
    if eq.Some? && (t, eq.value.0) in catalog {
      var e := preds[0];
      var column := if e.left.Field? then e.left else e.right;
      assert Eval(e, row).Ok? && Eval(e, row).value == Bool(true);
      assert Eval(e.left, row).Ok? && Eval(e.right, row).Ok?;
      if column.table != t { ForeignColumn(row, t, column.table, column.field); }
    } else {
      PassingRowMatches(row, t, preds[1..], catalog);
    }
  }

  lemma {:induction false} LookupPasses(entries: seq<Entry>, t: string, preds: seq<Expr>, catalog: Catalog)
    requires ChooseIndex(t, preds, catalog).Some?
    requires AllOwnCells(EntryRows(entries), t) && RunsThrough(EntryRows(entries), preds)
    ensures var (f, v) := ChooseIndex(t, preds, catalog).value;
            IndexStream(Lookup(entries, t, f, v), preds) ==
            Stream(Flat(KeepIf(preds), VisibleRows(entries)), RECORD_EOF)
  {
    if entries != [] {
      var (f, v) := ChooseIndex(t, preds, catalog).value;
      var e, rest := entries[0], entries[1..];
      assert forall i :: 0 <= i < |rest| ==> EntryRows(rest)[i] == EntryRows(entries)[i + 1];
      assert EntryRows(entries)[0] == e.row;
      LookupPasses(rest, t, preds, catalog);
      LookupOne(e, rest, t, f, v, preds);
      if EvalConjuncts(AND, preds, e.row) == Ok(true) { PassingRowMatches(e.row, t, preds, catalog); }
      assert [e] + rest == entries;
    }
  }

  /** One entry: what it adds to the scan, and to the visible rows that pass. */
  lemma {:induction false} LookupOne(e: Entry, rest: seq<Entry>, t: string, f: string, v: Value, preds: seq<Expr>)
    requires EvalConjuncts(AND, preds, e.row).Ok?
    ensures !Matches(e.row, t, f, v) ==> Lookup([e] + rest, t, f, v) == Lookup(rest, t, f, v)
    ensures var keep := EvalConjuncts(AND, preds, e.row).value;
            && (Matches(e.row, t, f, v) ==>
                  IndexStream(Lookup([e] + rest, t, f, v), preds) ==
                  var s := IndexStream(Lookup(rest, t, f, v), preds);
                  if keep && e.visible then Cons(e.row, s) else s)
            && Flat(KeepIf(preds), VisibleRows([e] + rest)) ==
               (if keep && e.visible then [e.row] else []) + Flat(KeepIf(preds), VisibleRows(rest))
  {
    assert ([e] + rest)[1..] == rest;
    var found := Lookup(rest, t, f, v);
    if Matches(e.row, t, f, v) {
      assert ([e] + found)[1..] == found;
      assert Lookup([e] + rest, t, f, v) == [e] + found;
    }
    var vs := VisibleRows(rest);
    if e.visible {
      assert ([e.row] + vs)[1..] == vs;
      assert VisibleRows([e] + rest) == [e.row] + vs;
    } else {
      assert VisibleRows([e] + rest) == vs;
    }
  }

  // ---- compiled plans ----------------------------------------------------------------------

  predicate UsesIndex(p: Physical)
    decreases p
  {
    match p
    case TableScan(_, _) => false
    case IndexScan(_, _, _, _) => true
    case Filter(_, child) => UsesIndex(child)
    case Project(_, input) => input != [] && UsesIndex(input[0])
    case NestedLoopJoin(l, r) => UsesIndex(l) || UsesIndex(r)
    case Collect(_, _) => false
  }

  /** Where no index is picked, a compiled plan yields exactly the stream of the logical plan, errors included. */
  lemma {:induction false} CompiledExact(p: Plan, db: Database, q: Physical)
    requires Compile(p, db.indexes.Keys) == Ok(q) && !UsesIndex(q)
    ensures Yields(q, db) == Rows(p, db.tables)
    decreases p
  {
    match p.kind
    case TableGet(t, preds) =>
    case Join =>
      CompiledExact(p.children[0], db, q.left);
      CompiledExact(p.children[1], db, q.right);
    case Predicate =>
      CompiledExact(p.children[0], db, q.child);
      assert p.expressions == [p.expressions[0]];
      assert FirstChild(p, db.tables) == Rows(p.children[0], db.tables);
    case Projection =>
      if p.children != [] {
        CompiledExact(p.children[0], db, q.input[0]);
        assert FirstChild(p, db.tables) == Rows(p.children[0], db.tables);
      }
    case Delete(_) =>
  }

  /** No operator of the plan meets an error, not even on the entries of an index it might read. */
  predicate IsSmooth(p: Plan, db: Database)
    decreases p
  {
    && Rows(p, db.tables).end == RECORD_EOF
    && (forall i :: 0 <= i < |p.children| ==> IsSmooth(p.children[i], db))
    && (p.kind.TableGet? ==>
          forall key :: key in db.indexes && key.0 == p.kind.table ==>
            RunsThrough(EntryRows(db.indexes[key]), p.kind.predicates))
  }

  predicate SameRows(a: Stream, b: Stream) {
    a.end == b.end == RECORD_EOF && multiset(a.rows) == multiset(b.rows)
  }

  lemma {:induction false} ChosenIsIndexed(t: string, preds: seq<Expr>, catalog: Catalog)
    requires ChooseIndex(t, preds, catalog).Some?
    ensures (t, ChooseIndex(t, preds, catalog).value.0) in catalog
  {
    var eq := EqualityOf(preds[0]);
    if !(eq.Some? && (t, eq.value.0) in catalog) { ChosenIsIndexed(t, preds[1..], catalog); }
  }

  lemma {:induction false} CompiledScan(t: string, preds: seq<Expr>, db: Database)
    requires IsIndexed(db)
    requires FilterStream(Stream(TableRows(db.tables, t), RECORD_EOF), preds).end == RECORD_EOF
    requires forall key :: key in db.indexes && key.0 == t ==> RunsThrough(EntryRows(db.indexes[key]), preds)
    ensures SameRows(Yields(CompileScan(t, preds, db.indexes.Keys), db),
                     FilterStream(Stream(TableRows(db.tables, t), RECORD_EOF), preds))
  {
    var all := Stream(TableRows(db.tables, t), RECORD_EOF);
    FilterRanThrough(all, preds);
    FilterIsFlat(all, preds);
    if ChooseIndex(t, preds, db.indexes.Keys).Some? {
      var (f, v) := ChooseIndex(t, preds, db.indexes.Keys).value;
      ChosenIsIndexed(t, preds, db.indexes.Keys);
      var entries := db.indexes[(t, f)];
      LookupPasses(entries, t, preds, db.indexes.Keys);
      FlatPermutation(KeepIf(preds), KeepIf(preds), VisibleRows(entries), all.rows);
    }
  }

  lemma {:induction false} RunsThroughPermuted(a: seq<Row>, b: seq<Row>, preds: seq<Expr>)
    requires multiset(a) == multiset(b) && RunsThrough(a, preds)
    ensures RunsThrough(b, preds)
  {
    forall i | 0 <= i < |b| ensures EvalConjuncts(AND, preds, b[i]).Ok? {
      assert b[i] in multiset(b);
      assert b[i] in multiset(a);
    }
  }

  lemma {:induction false} FilterSameRows(a: Stream, b: Stream, preds: seq<Expr>)
    requires SameRows(a, b) && FilterStream(b, preds).end == RECORD_EOF
    ensures SameRows(FilterStream(a, preds), FilterStream(b, preds))
  {
    FilterRanThrough(b, preds);
    RunsThroughPermuted(b.rows, a.rows, preds);
    FilterIsFlat(a, preds);
    FilterIsFlat(b, preds);
    FlatPermutation(KeepIf(preds), KeepIf(preds), a.rows, b.rows);
  }

  lemma {:induction false} ProjectSameRows(a: Stream, b: Stream, exprs: seq<Expr>)
    requires SameRows(a, b) && ProjectStream(b, exprs).end == RECORD_EOF
    ensures SameRows(ProjectStream(a, exprs), ProjectStream(b, exprs))
  {
    ProjectRanThrough(b, exprs);
    forall i | 0 <= i < |a.rows| ensures ProjectRow(exprs, a.rows[i]).Ok? {
      assert a.rows[i] in multiset(a.rows);
      assert a.rows[i] in multiset(b.rows);
    }
    ProjectIsFlat(a, exprs);
    ProjectIsFlat(b, exprs);
    FlatPermutation(Projected(exprs), Projected(exprs), a.rows, b.rows);
  }

  lemma {:induction false} ProductSameRows(a: Stream, b: Stream, c: Stream, d: Stream)
    requires SameRows(a, b) && SameRows(c, d)
    ensures SameRows(ProductStream(a, c), ProductStream(b, d))
  {
    ProductIsFlat(a, c);
    ProductIsFlat(b, d);
    forall l ensures multiset(Paired(c.rows)(l)) == multiset(Paired(d.rows)(l)) {
      PairIsFlat(l, c.rows);
      PairIsFlat(l, d.rows);
      FlatPermutation(PairedWith(l), PairedWith(l), c.rows, d.rows);
    }
    FlatPermutation(Paired(c.rows), Paired(d.rows), a.rows, b.rows);
  }

  /**
   * A compiled plan yields the rows of the logical plan, each as often, whichever indexes are picked: on every database
   * whose indexes lead to the rows of their tables, and on which the plan meets no error.
   */
  lemma {:induction false} CompiledYields(p: Plan, db: Database, q: Physical)
    requires IsIndexed(db) && IsSmooth(p, db) && Compile(p, db.indexes.Keys) == Ok(q)
    ensures SameRows(Yields(q, db), Rows(p, db.tables))
    decreases p
  {
    match p.kind
    case TableGet(t, preds) => CompiledScan(t, preds, db);
    case Join =>
      CompiledYields(p.children[0], db, q.left);
      CompiledYields(p.children[1], db, q.right);
      ProductSameRows(Yields(q.left, db), Rows(p.children[0], db.tables),
                      Yields(q.right, db), Rows(p.children[1], db.tables));
    case Predicate =>
      CompiledYields(p.children[0], db, q.child);
      assert p.expressions == [p.expressions[0]];
      assert FirstChild(p, db.tables) == Rows(p.children[0], db.tables);
      FilterSameRows(Yields(q.child, db), Rows(p.children[0], db.tables), p.expressions);
    case Projection =>
      if p.children != [] {
        CompiledYields(p.children[0], db, q.input[0]);
        assert FirstChild(p, db.tables) == Rows(p.children[0], db.tables);
        ProjectSameRows(Yields(q.input[0], db), Rows(p.children[0], db.tables), p.expressions);
      }
    case Delete(_) =>
  }

  /** A compiled delete gathers exactly the rows the logical delete removes. */
  lemma {:induction false} CompiledDeletes(p: Plan, db: Database, q: Physical)
    requires p.kind.Delete? && IsIndexed(db) && IsSmooth(p, db) && Compile(p, db.indexes.Keys) == Ok(q)
    ensures q.Collect? && multiset(Collected(q, db)) == multiset(Deletes(p, db.tables))
  {
    if p.children != [] { CompiledYields(p.children[0], db, q.input[0]); }
  }
}
