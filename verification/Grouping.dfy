/** Hash grouping with SUM: the groups a sequence of rows falls into. */
module Grouping {
  import opened Common
  import opened Expressions
  import opened Streams

  /** A group: its key values, the first row that had them, and one running sum per aggregate. */
  datatype Group = Group(key: seq<Value>, first: Row, sums: seq<Value>)

  function EvalAll(exprs: seq<Expr>, row: Row): (r: Result<seq<Value>>)
    ensures r.Ok? ==> |r.value| == |exprs|
  {
    if exprs == [] then Ok([])
    else
      var v :- Eval(exprs[0], row);
      var rest :- EvalAll(exprs[1..], row);
      Ok([v] + rest)
  }

  /** Tuple::compare; grouping only asks whether it is 0. */
  function CompareKeys(a: seq<Value>, b: seq<Value>): Option<int> {
    if |a| < |b| then Some(-1)
    else if |a| > |b| then Some(1)
    else if a == [] then Some(0)
    else match Compare(a[0], b[0])
      case None => None
      case Some(c) => if c != 0 then Some(c) else CompareKeys(a[1..], b[1..])
  }

  /** The first group whose key compares equal, or the number of groups when there is none. */
  function FindGroup(groups: seq<Group>, key: seq<Value>): (r: Result<nat>)
    ensures r.Ok? ==> r.value <= |groups|
  {
    if groups == [] then Ok(0)
    else match CompareKeys(key, groups[0].key)
      case None => Err(UNDEFINED)
      case Some(0) => Ok(0)
      case _ =>
        var i :- FindGroup(groups[1..], key);
        Ok(i + 1)
  }

  /** Adding one value to a running sum. A type without addition leaves the sum as it is. */
  function Accumulate(sum: Value, v: Value): Result<Value> {
    if sum.Undef? then Ok(v)
    else match (sum, v)
      case (Int(a), Int(b)) => IntResult(b + a)
      case (Float(a), Float(b)) => Ok(Float(b + a))
      case _ => if sum.Type() == v.Type() then Ok(sum) else Err(UNDEFINED)
  }

  /** One row added to every running sum of its group. */
  function AccumulateRow(sums: seq<Value>, exprs: seq<Expr>, row: Row): (r: Result<seq<Value>>)
    requires |sums| == |exprs|
    ensures r.Ok? ==> |r.value| == |exprs|
  {
    if sums == [] then Ok([])
    else
      var v :- Eval(exprs[0], row);
      var s :- Accumulate(sums[0], v);
      var rest :- AccumulateRow(sums[1..], exprs[1..], row);
      Ok([s] + rest)
  }

  /** Every expression has a value, and these are the values. */
  lemma {:induction false} EvalAllExact(exprs: seq<Expr>, row: Row)
    ensures EvalAll(exprs, row).Ok? <==> forall j :: 0 <= j < |exprs| ==> Eval(exprs[j], row).Ok?
    ensures EvalAll(exprs, row).Ok? ==>
      forall j :: 0 <= j < |exprs| ==> EvalAll(exprs, row).value[j] == Eval(exprs[j], row).value
  {
    if exprs != [] {
      EvalAllExact(exprs[1..], row);
      assert forall j :: 1 <= j < |exprs| ==> exprs[j] == exprs[1..][j - 1];
      assert forall j :: 0 <= j < |exprs[1..]| ==> exprs[1..][j] == exprs[j + 1];
    }
  }

  /** Every value joins its own running sum. */
  lemma {:induction false} AccumulateRowExact(sums: seq<Value>, exprs: seq<Expr>, row: Row)
    requires |sums| == |exprs| && forall j :: 0 <= j < |exprs| ==> Eval(exprs[j], row).Ok?
    ensures AccumulateRow(sums, exprs, row).Ok? <==>
      forall j :: 0 <= j < |sums| ==> Accumulate(sums[j], Eval(exprs[j], row).value).Ok?
    ensures AccumulateRow(sums, exprs, row).Ok? ==>
      forall j :: 0 <= j < |sums| ==>
        Accumulate(sums[j], Eval(exprs[j], row).value) == Ok(AccumulateRow(sums, exprs, row).value[j])
  {
    if exprs != [] {
      assert forall j :: 0 <= j < |exprs[1..]| ==> exprs[1..][j] == exprs[j + 1] && sums[1..][j] == sums[j + 1];
      assert forall j :: 1 <= j < |exprs| ==> exprs[j] == exprs[1..][j - 1] && sums[j] == sums[1..][j - 1];
      AccumulateRowExact(sums[1..], exprs[1..], row);
    }
  }

  predicate Shaped(groups: seq<Group>, exprs: seq<Expr>) {
    forall i :: 0 <= i < |groups| ==> |groups[i].sums| == |exprs|
  }

  function Undefs(n: nat): (r: seq<Value>)
    ensures |r| == n && forall i :: 0 <= i < n ==> r[i] == Undef
  {
    seq(n, i => Undef)
  }

  /** One input row: its group is found or created at the end, then its values are accumulated there. */
  function AddRow(groups: seq<Group>, keys: seq<Expr>, exprs: seq<Expr>, row: Row): (r: Result<seq<Group>>)
    requires Shaped(groups, exprs)
    ensures r.Ok? ==> Shaped(r.value, exprs)
  {
    var key :- EvalAll(keys, row);
    var i :- FindGroup(groups, key);
    var found := if i < |groups| then groups else groups + [Group(key, row, Undefs(|exprs|))];
    var sums :- AccumulateRow(found[i].sums, exprs, row);
    Ok(found[i := found[i].(sums := sums)])
  }

  function GroupRows(rows: seq<Row>, keys: seq<Expr>, exprs: seq<Expr>): (r: Result<seq<Group>>)
    ensures r.Ok? ==> Shaped(r.value, exprs)
  {
    if rows == [] then Ok([])
    else
      var groups :- GroupRows(rows[..|rows| - 1], keys, exprs);
      AddRow(groups, keys, exprs, rows[|rows| - 1])
  }

  function SumCells(sums: seq<Value>): Row {
    seq(|sums|, i requires 0 <= i < |sums| => Cell("", "", sums[i]))
  }

  /** A group's output: its first row followed by its sums. */
  function GroupRow(g: Group): Row {
    g.first + SumCells(g.sums)
  }

  /** Groups are built when the operator is opened, so any failure leaves no rows at all. */
  function GroupStream(s: Stream, keys: seq<Expr>, exprs: seq<Expr>): Stream {
    match GroupRows(s.rows, keys, exprs)
    case Err(rc) => Stream([], rc)
    case Ok(groups) =>
      if s.end != RECORD_EOF then Stream([], s.end)
      else Stream(seq(|groups|, i requires 0 <= i < |groups| => GroupRow(groups[i])), RECORD_EOF)
  }

  // ---- failures are told apart from the end of the input -------------------------------------

  lemma {:induction false} EvalAllFails(exprs: seq<Expr>, row: Row)
    requires EvalAll(exprs, row).Err?
    ensures EvalAll(exprs, row).rc !in {SUCCESS, RECORD_EOF}
  {
    if Eval(exprs[0], row).Err? {
      EvalErrorCode(exprs[0], row);
    } else {
      EvalAllFails(exprs[1..], row);
    }
  }

  lemma {:induction false} AccumulateFails(sums: seq<Value>, exprs: seq<Expr>, row: Row)
    requires |sums| == |exprs| && AccumulateRow(sums, exprs, row).Err?
    ensures AccumulateRow(sums, exprs, row).rc !in {SUCCESS, RECORD_EOF}
  {
    if Eval(exprs[0], row).Err? {
      EvalErrorCode(exprs[0], row);
    } else if Accumulate(sums[0], Eval(exprs[0], row).value).Ok? {
      AccumulateFails(sums[1..], exprs[1..], row);
    }
  }

  lemma {:induction false} FindGroupFails(groups: seq<Group>, key: seq<Value>)
    requires FindGroup(groups, key).Err?
    ensures FindGroup(groups, key).rc !in {SUCCESS, RECORD_EOF}
  {
    if CompareKeys(key, groups[0].key).Some? {
      FindGroupFails(groups[1..], key);
    }
  }

  lemma {:induction false} AddRowFails(groups: seq<Group>, keys: seq<Expr>, exprs: seq<Expr>, row: Row)
    requires Shaped(groups, exprs)
    ensures AddRow(groups, keys, exprs, row).Err? ==> AddRow(groups, keys, exprs, row).rc !in {SUCCESS, RECORD_EOF}
  {
    var key := EvalAll(keys, row);
    if key.Err? {
      EvalAllFails(keys, row);
    } else if FindGroup(groups, key.value).Err? {
      FindGroupFails(groups, key.value);
    } else {
      var i := FindGroup(groups, key.value).value;
      var found := if i < |groups| then groups else groups + [Group(key.value, row, Undefs(|exprs|))];
      if AccumulateRow(found[i].sums, exprs, row).Err? {
        AccumulateFails(found[i].sums, exprs, row);
      }
    }
  }

  lemma {:induction false} GroupRowsErrorCode(rows: seq<Row>, keys: seq<Expr>, exprs: seq<Expr>)
    requires GroupRows(rows, keys, exprs).Err?
    ensures GroupRows(rows, keys, exprs).rc !in {SUCCESS, RECORD_EOF}
    decreases |rows|
  {
    var before := GroupRows(rows[..|rows| - 1], keys, exprs);
    if before.Err? {
      GroupRowsErrorCode(rows[..|rows| - 1], keys, exprs);
    } else {
      AddRowFails(before.value, keys, exprs, rows[|rows| - 1]);
    }
  }

  /** There are groups exactly if there are rows. */
  lemma {:induction false} GroupsForRows(rows: seq<Row>, keys: seq<Expr>, exprs: seq<Expr>)
    requires GroupRows(rows, keys, exprs).Ok?
    ensures GroupRows(rows, keys, exprs).value == [] <==> rows == []
  {
  }

  lemma {:induction false} GroupEmptyIff(s: Stream, keys: seq<Expr>, exprs: seq<Expr>)
    ensures GroupStream(s, keys, exprs) == EMPTY_STREAM <==> s == EMPTY_STREAM
  {
    if GroupRows(s.rows, keys, exprs).Err? {
      GroupRowsErrorCode(s.rows, keys, exprs);
    } else {
      GroupsForRows(s.rows, keys, exprs);
    }
  }
}
