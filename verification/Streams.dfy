/** Streams of rows, and what filtering, projecting and pairing do to them. */
module Streams {
  import opened Common
  import opened Expressions

  /** What draining an operator shows: the rows, in order, then the code that ended the stream. */
  datatype Stream = Stream(rows: seq<Row>, end: RC)

  const EMPTY_STREAM := Stream([], RECORD_EOF)

  function Cons(row: Row, s: Stream): Stream {
    Stream([row] + s.rows, s.end)
  }

  /** Rows on which every predicate holds; the first failing evaluation ends the stream. */
  function FilterStream(s: Stream, preds: seq<Expr>): Stream
    decreases |s.rows|
  {
    if s.rows == [] then s
    else
      var rest := Stream(s.rows[1..], s.end);
      match EvalConjuncts(AND, preds, s.rows[0])
      case Err(rc) => Stream([], rc)
      case Ok(true) => Cons(s.rows[0], FilterStream(rest, preds))
      case Ok(false) => FilterStream(rest, preds)
  }

  /** No evaluation fails on the rows, so nothing stops the filter early. */
  predicate RunsThrough(rows: seq<Row>, preds: seq<Expr>) {
    forall i :: 0 <= i < |rows| ==> EvalConjuncts(AND, preds, rows[i]).Ok?
  }

  /** One row per input row, its cells the values of the query expressions (column headings are not modelled). */
  function ProjectRow(exprs: seq<Expr>, row: Row): Result<Row> {
    if exprs == [] then Ok([])
    else
      var v :- Eval(exprs[0], row);
      var rest :- ProjectRow(exprs[1..], row);
      Ok([Cell("", "", v)] + rest)
  }

  function ProjectStream(s: Stream, exprs: seq<Expr>): Stream
    decreases |s.rows|
  {
    if s.rows == [] then s
    else match ProjectRow(exprs, s.rows[0])
      case Err(rc) => Stream([], rc)
      case Ok(out) => Cons(out, ProjectStream(Stream(s.rows[1..], s.end), exprs))
  }

  function PairWith(left: Row, rights: seq<Row>): (out: seq<Row>)
    ensures |out| == |rights|
    ensures forall i :: 0 <= i < |out| ==> out[i] == left + rights[i]
  {
    if rights == [] then [] else [left + rights[0]] + PairWith(left, rights[1..])
  }

  /** Left-major pairs. An error or an empty round on the right ends the product in its first round. */
  function ProductStream(l: Stream, r: Stream): Stream
    decreases |l.rows|
  {
    if l.rows == [] then l
    else
      var round := PairWith(l.rows[0], r.rows);
      if r.end != RECORD_EOF || r.rows == [] then Stream(round, r.end)
      else
        var rest := ProductStream(Stream(l.rows[1..], l.end), r);
        Stream(round + rest.rows, rest.end)
  }

  /** One cell for each query expression, with its value. */
  predicate Shows(out: Row, exprs: seq<Expr>, row: Row) {
    && |out| == |exprs|
    && forall j :: 0 <= j < |out| ==> Eval(exprs[j], row).Ok? && out[j] == Cell("", "", Eval(exprs[j], row).value)
  }

  /** Expression i is the first that has no value on the row. */
  predicate FailsFirst(exprs: seq<Expr>, row: Row, i: nat) {
    i < |exprs| && Eval(exprs[i], row).Err? && forall j :: 0 <= j < i ==> Eval(exprs[j], row).Ok?
  }

  /** Cell i of the output is the value of expression i; without one, the first that fails gives the code. */
  lemma {:induction false} ProjectRowExact(exprs: seq<Expr>, row: Row)
    ensures ProjectRow(exprs, row).Ok? <==> forall i :: 0 <= i < |exprs| ==> Eval(exprs[i], row).Ok?
    ensures ProjectRow(exprs, row).Ok? ==> Shows(ProjectRow(exprs, row).value, exprs, row)
    ensures forall i: nat :: FailsFirst(exprs, row, i) ==> ProjectRow(exprs, row) == Err(Eval(exprs[i], row).rc)
  {
    if exprs != [] {
      ProjectRowExact(exprs[1..], row);
      assert forall i :: 1 <= i < |exprs| ==> exprs[i] == exprs[1..][i - 1];
      assert forall i :: 0 <= i < |exprs[1..]| ==> exprs[1..][i] == exprs[i + 1];
      forall i: nat | FailsFirst(exprs, row, i) ensures ProjectRow(exprs, row) == Err(Eval(exprs[i], row).rc) {
        if i > 0 { assert FailsFirst(exprs[1..], row, i - 1); }
      }
    }
  }

  lemma {:induction false} ProjectErrorCode(exprs: seq<Expr>, row: Row)
    requires ProjectRow(exprs, row).Err?
    ensures ProjectRow(exprs, row).rc != SUCCESS && ProjectRow(exprs, row).rc != RECORD_EOF
  {
    if Eval(exprs[0], row).Err? { EvalErrorCode(exprs[0], row); } else { ProjectErrorCode(exprs[1..], row); }
  }

  /** Projecting shows nothing, and no error, exactly for an input without rows and without error. */
  lemma {:induction false} ProjectEmptyIff(s: Stream, exprs: seq<Expr>)
    ensures ProjectStream(s, exprs) == EMPTY_STREAM <==> s == EMPTY_STREAM
  {
    if s.rows != [] && ProjectRow(exprs, s.rows[0]).Err? {
      ProjectErrorCode(exprs, s.rows[0]);
    }
  }
}
