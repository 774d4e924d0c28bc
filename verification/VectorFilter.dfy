/** Column-at-a-time comparison: eight lanes at once with a scalar tail. */
module VectorCompare {
  import opened Expressions

  const SIMD_WIDTH := 8

  /** What a comparison means for two integers. */
  predicate Test(op: CompOp, l: int32, r: int32)
    requires !op.NoOp?
  {
    match op
    case EqualTo => l == r
    case NotEqual => l != r
    case LessThan => l < r
    case LessEqual => l <= r
    case GreatThan => l > r
    case GreatEqual => l >= r
  }

  // The instructions: all bits of a lane set, or none.

  function CmpEq(l: int32, r: int32): bv32 {
    if l == r then 0xffff_ffff else 0
  }

  function CmpGt(l: int32, r: int32): bv32 {
    if l > r then 0xffff_ffff else 0
  }

  /** What each operator makes of the two instructions there are, in one lane. */
  function Lane(op: CompOp, l: int32, r: int32): bv32
    requires !op.NoOp?
  {
    match op
    case EqualTo => CmpEq(l, r)
    case NotEqual => 0xffff_ffff ^ CmpEq(l, r)
    case LessThan => CmpGt(r, l)
    case LessEqual => CmpGt(r, l) | CmpEq(l, r)
    case GreatThan => CmpGt(l, r)
    case GreatEqual => CmpGt(l, r) | CmpEq(l, r)
  }

  lemma {:induction false} LaneExact(op: CompOp, l: int32, r: int32)
    requires !op.NoOp?
    ensures Lane(op, l, r) != 0 <==> Test(op, l, r)
  {
    MaskFacts();
    if l == r {
      assert CmpEq(l, r) == 0xffff_ffff && CmpGt(l, r) == 0 && CmpGt(r, l) == 0;
    } else if l > r {
      assert CmpEq(l, r) == 0 && CmpGt(l, r) == 0xffff_ffff && CmpGt(r, l) == 0;
    } else {
      assert CmpEq(l, r) == 0 && CmpGt(l, r) == 0 && CmpGt(r, l) == 0xffff_ffff;
    }
  }

  lemma {:induction false} MaskFacts()
    ensures 0xffff_ffff as bv32 ^ 0xffff_ffff == 0 && 0xffff_ffff as bv32 ^ 0 == 0xffff_ffff
    ensures 0 as bv32 | 0xffff_ffff == 0xffff_ffff && 0xffff_ffff as bv32 | 0 == 0xffff_ffff && 0 as bv32 | 0 == 0
  {
  }

  /** A column of integers; a constant one holds a single value for every row. */
  datatype Column = Column(isConstant: bool, data: seq<int32>)

  predicate HasRows(c: Column, n: int) {
    n <= |c.data| || (c.isConstant && |c.data| > 0)
  }

  function ValueAt(c: Column, i: nat): int32
    requires HasRows(c, i + 1)
  {
    c.data[if c.isConstant then 0 else i]
  }

  function Bit(b: bool): bv8 {
    if b then 1 else 0
  }

  /** A vector register: the eight values from row i on. */
  function Load(c: Column, i: nat): (r: seq<int32>)
    requires HasRows(c, i + SIMD_WIDTH)
    ensures |r| == SIMD_WIDTH && forall j :: 0 <= j < SIMD_WIDTH ==> r[j] == ValueAt(c, i + j)
  {
    if c.isConstant then seq(SIMD_WIDTH, _ => c.data[0]) else c.data[i..i + SIMD_WIDTH]
  }

  /** Row i's new selection. */
  predicate IsMasked(now: bv8, was: bv8, left: Column, right: Column, op: CompOp, i: nat)
    requires HasRows(left, i + 1) && HasRows(right, i + 1) && !op.NoOp?
  {
    now == was & Bit(Test(op, ValueAt(left, i), ValueAt(right, i)))
  }

  /** The scalar loop, from row start on. */
  method CompareScalar(left: Column, right: Column, start: nat, n: nat, result: array<bv8>, op: CompOp)
    requires !op.NoOp? && start <= n <= result.Length && HasRows(left, n) && HasRows(right, n)
    modifies result
    ensures forall i :: start <= i < n ==> IsMasked(result[i], old(result[i]), left, right, op, i)
    ensures forall i :: (0 <= i < start || n <= i < result.Length) ==> result[i] == old(result[i])
  {
    for i := start to n
      invariant forall k :: start <= k < i ==> IsMasked(result[k], old(result[k]), left, right, op, k)
      invariant forall k :: (0 <= k < start || i <= k < result.Length) ==> result[k] == old(result[k])
    {
      result[i] := result[i] & (if Test(op, ValueAt(left, i), ValueAt(right, i)) then 1 else 0);
    }
  }

  /** One round of the vector loop. */
  method CompareLanes(left: Column, right: Column, i: nat, result: array<bv8>, op: CompOp)
    requires !op.NoOp? && i + SIMD_WIDTH <= result.Length && HasRows(left, i + SIMD_WIDTH) && HasRows(right, i + SIMD_WIDTH)
    modifies result
    ensures forall k :: i <= k < i + SIMD_WIDTH ==> IsMasked(result[k], old(result[k]), left, right, op, k)
    ensures forall k :: (0 <= k < i || i + SIMD_WIDTH <= k < result.Length) ==> result[k] == old(result[k])
  {
    var leftValue, rightValue := Load(left, i), Load(right, i);
    var lanes := seq(SIMD_WIDTH, j requires 0 <= j < SIMD_WIDTH => Lane(op, leftValue[j], rightValue[j]));
    for j := 0 to SIMD_WIDTH
      invariant forall k :: i <= k < i + j ==> IsMasked(result[k], old(result[k]), left, right, op, k)
      invariant forall k :: (0 <= k < i || i + j <= k < result.Length) ==> result[k] == old(result[k])
    {
      LaneExact(op, leftValue[j], rightValue[j]);
      result[i + j] := result[i + j] & (if lanes[j] != 0 then 1 else 0);
    }
  }

  /** The vector loop with its tail computes what the scalar loop computes, for every length. */
  method CompareVector(left: Column, right: Column, n: nat, result: array<bv8>, op: CompOp)
    requires !op.NoOp? && n <= result.Length && HasRows(left, n) && HasRows(right, n)
    modifies result
    ensures forall i :: 0 <= i < n ==> IsMasked(result[i], old(result[i]), left, right, op, i)
    ensures forall i :: n <= i < result.Length ==> result[i] == old(result[i])
  {
    var i := 0;
    while i <= n - SIMD_WIDTH
      invariant 0 <= i <= n
      invariant forall k :: 0 <= k < i ==> IsMasked(result[k], old(result[k]), left, right, op, k)
      invariant forall k :: i <= k < result.Length ==> result[k] == old(result[k])
    {
      CompareLanes(left, right, i, result, op);
      i := i + SIMD_WIDTH;
    }
    CompareScalar(left, right, i, n, result, op);
  }

  /** compare_result: an operator that is none of the six changes nothing. */
  method CompareResult(left: Column, right: Column, n: nat, result: array<bv8>, op: CompOp, simd: bool)
    requires n <= result.Length && HasRows(left, n) && HasRows(right, n)
    modifies result
    ensures op.NoOp? ==> result[..] == old(result[..])
    ensures !op.NoOp? ==> forall i :: 0 <= i < n ==> IsMasked(result[i], old(result[i]), left, right, op, i)
    ensures forall i :: n <= i < result.Length ==> result[i] == old(result[i])
  {
    if op.NoOp? {
    } else if simd {
      CompareVector(left, right, n, result, op);
    } else {
      CompareScalar(left, right, 0, n, result, op);
    }
  }
}

/** The vectorised table scan: chunks of columns, a selection vector, and the rows that stay selected. */
module VectorScan {
  import opened Common
  import opened Expressions
  import opened Streams
  import opened VectorCompare

  datatype Heading = Heading(table: string, field: string, attrType: AttrType)

  /** Columns of equal length. */
  datatype Chunk = Chunk(columns: seq<seq<Value>>, rows: nat)

  predicate IsChunkOf(schema: seq<Heading>, chunk: Chunk) {
    && |chunk.columns| == |schema|
    && (forall c :: 0 <= c < |schema| ==> |chunk.columns[c]| == chunk.rows)
    && (forall c, i :: 0 <= c < |schema| && 0 <= i < chunk.rows ==> chunk.columns[c][i].Type() == schema[c].attrType)
  }

  /** Row i, as the tuple scan sees it. */
  function RowAt(schema: seq<Heading>, chunk: Chunk, i: nat): (row: Row)
    requires IsChunkOf(schema, chunk) && i < chunk.rows
    ensures |row| == |schema|
  {
    seq(|schema|, c requires 0 <= c < |schema| => Cell(schema[c].table, schema[c].field, chunk.columns[c][i]))
  }

  function RowsOf(schema: seq<Heading>, chunk: Chunk): (rows: seq<Row>)
    requires IsChunkOf(schema, chunk)
    ensures |rows| == chunk.rows
  {
    seq(chunk.rows, i requires 0 <= i < chunk.rows => RowAt(schema, chunk, i))
  }

  /** The column of a field; the number of columns if there is none. */
  function FieldId(schema: seq<Heading>, table: string, field: string): (r: nat)
    ensures r <= |schema|
  {
    if schema == [] then 0
    else if schema[0].table == table && schema[0].field == field then 0
    else 1 + FieldId(schema[1..], table, field)
  }

  /** An integer column of the table, or an integer constant. */
  predicate IsIntSide(schema: seq<Heading>, e: Expr) {
    match e
    case Field(t, f, _) => var id := FieldId(schema, t, f); id < |schema| && schema[id].attrType == Ints
    case ValueExpr(v) => v.Int?
    case _ => false
  }

  /** An integer comparison with at least one side that is not a constant. */
  predicate IsIntComparison(schema: seq<Heading>, p: Expr) {
    && p.Comparison? && !p.comp.NoOp?
    && IsIntSide(schema, p.left) && IsIntSide(schema, p.right)
    && (p.left.Field? || p.right.Field?)
  }

  function IntsOf(values: seq<Value>): (r: seq<int32>)
    requires forall i :: 0 <= i < |values| ==> values[i].Int?
    ensures |r| == |values|
  {
    seq(|values|, i requires 0 <= i < |values| => values[i].i)
  }

  /** get_column. */
  function GetColumn(schema: seq<Heading>, chunk: Chunk, e: Expr): (c: Column)
    requires IsChunkOf(schema, chunk) && IsIntSide(schema, e)
    ensures HasRows(c, chunk.rows) && c.isConstant == e.ValueExpr?
  {
    match e
    case Field(t, f, _) =>
      var id := FieldId(schema, t, f);
      assert forall i :: 0 <= i < chunk.rows ==> chunk.columns[id][i].Type() == Ints;
      Column(false, IntsOf(chunk.columns[id]))
    case ValueExpr(v) => Column(true, [v.i])
  }

  lemma {:induction false} FindCellById(schema: seq<Heading>, row: Row, table: string, field: string)
    requires |row| == |schema| && FieldId(schema, table, field) < |schema|
    requires forall c :: 0 <= c < |schema| ==> row[c].table == schema[c].table && row[c].field == schema[c].field
    ensures FindCell(row, table, field) == Ok(row[FieldId(schema, table, field)].value)
  {
    if !(schema[0].table == table && schema[0].field == field) {
      FindCellById(schema[1..], row[1..], table, field);
    }
  }

  /** A side's column holds, row by row, the side's value on the row. */
  lemma {:induction false} ColumnHoldsValues(schema: seq<Heading>, chunk: Chunk, e: Expr, i: nat)
    requires IsChunkOf(schema, chunk) && IsIntSide(schema, e) && i < chunk.rows
    ensures Eval(e, RowAt(schema, chunk, i)) == Ok(Int(ValueAt(GetColumn(schema, chunk, e), i)))
  {
    if e.Field? {
      FindCellById(schema, RowAt(schema, chunk, i), e.table, e.field);
    }
  }

  /** What the selection vector is masked with is what the tuple scan would have found on the row. */
  lemma {:induction false} TestIsEval(schema: seq<Heading>, chunk: Chunk, p: Expr, i: nat)
    requires IsChunkOf(schema, chunk) && IsIntComparison(schema, p) && i < chunk.rows
    ensures var l, r := GetColumn(schema, chunk, p.left), GetColumn(schema, chunk, p.right);
      Eval(p, RowAt(schema, chunk, i)) == Ok(Bool(Test(p.comp, ValueAt(l, i), ValueAt(r, i))))
  {
    ColumnHoldsValues(schema, chunk, p.left, i);
    ColumnHoldsValues(schema, chunk, p.right, i);
  }

  /** The tuple scan's verdict on a row. */
  predicate Passes(preds: seq<Expr>, row: Row) {
    EvalConjuncts(AND, preds, row) == Ok(true)
  }

  predicate AreIntComparisons(schema: seq<Heading>, preds: seq<Expr>) {
    forall k :: 0 <= k < |preds| ==> IsIntComparison(schema, preds[k])
  }

  /** One predicate more. */
  lemma {:induction false} PassesNext(schema: seq<Heading>, chunk: Chunk, preds: seq<Expr>, k: nat, i: nat)
    requires IsChunkOf(schema, chunk) && AreIntComparisons(schema, preds) && k < |preds| && i < chunk.rows
    requires EvalConjuncts(AND, preds[..k], RowAt(schema, chunk, i)).Ok?
    ensures var l, r := GetColumn(schema, chunk, preds[k].left), GetColumn(schema, chunk, preds[k].right);
      var row := RowAt(schema, chunk, i);
      && EvalConjuncts(AND, preds[..k + 1], row).Ok?
      && Passes(preds[..k + 1], row) == (Passes(preds[..k], row) && Test(preds[k].comp, ValueAt(l, i), ValueAt(r, i)))
  {
    var row := RowAt(schema, chunk, i);
    assert preds[..k + 1] == preds[..k] + [preds[k]];
    EvalConjunctsAppend(AND, preds[..k], [preds[k]], row);
    TestIsEval(schema, chunk, preds[k], i);
    assert [preds[k]][1..] == [];
  }

  /** The selection vector after some predicates: a row is selected exactly if it passes them. */
  ghost predicate Selects(schema: seq<Heading>, chunk: Chunk, preds: seq<Expr>, select: seq<bv8>)
    requires IsChunkOf(schema, chunk)
  {
    && |select| == chunk.rows
    && forall i :: 0 <= i < chunk.rows ==>
         EvalConjuncts(AND, preds, RowAt(schema, chunk, i)).Ok? && select[i] == Bit(Passes(preds, RowAt(schema, chunk, i)))
  }

  /** eval for one predicate. */
  method EvalPredicate(schema: seq<Heading>, chunk: Chunk, preds: seq<Expr>, k: nat, select: array<bv8>, simd: bool)
    requires IsChunkOf(schema, chunk) && AreIntComparisons(schema, preds) && k < |preds|
    requires Selects(schema, chunk, preds[..k], select[..])
    modifies select
    ensures Selects(schema, chunk, preds[..k + 1], select[..])
  {
    var left := GetColumn(schema, chunk, preds[k].left);
    var right := GetColumn(schema, chunk, preds[k].right);
    CompareResult(left, right, chunk.rows, select, preds[k].comp, simd);
    forall i | 0 <= i < chunk.rows
      ensures EvalConjuncts(AND, preds[..k + 1], RowAt(schema, chunk, i)).Ok?
      ensures select[i] == Bit(Passes(preds[..k + 1], RowAt(schema, chunk, i)))
    {
      assert old(select[..])[i] == old(select[i]);
      PassesNext(schema, chunk, preds, k, i);
      assert IsMasked(select[i], old(select[i]), left, right, preds[k].comp, i);
    }
  }

  /** filter: all the predicates in turn. */
  method Filter(schema: seq<Heading>, chunk: Chunk, preds: seq<Expr>, select: array<bv8>, simd: bool)
    requires IsChunkOf(schema, chunk) && AreIntComparisons(schema, preds)
    requires select.Length == chunk.rows && forall i :: 0 <= i < chunk.rows ==> select[i] == 1
    modifies select
    ensures Selects(schema, chunk, preds, select[..])
  {
    for k := 0 to |preds|
      invariant Selects(schema, chunk, preds[..k], select[..])
    {
      EvalPredicate(schema, chunk, preds, k, select, simd);
    }
    assert preds[..|preds|] == preds;
  }

  // ---- the rows that stay --------------------------------------------------------------------

  /** What the tuple scan keeps of some rows. */
  function Kept(preds: seq<Expr>, rows: seq<Row>): seq<Row> {
    FilterStream(Stream(rows, RECORD_EOF), preds).rows
  }

  lemma {:induction false} FilterAppend(preds: seq<Expr>, a: seq<Row>, b: seq<Row>)
    requires RunsThrough(a, preds)
    ensures Kept(preds, a + b) == Kept(preds, a) + Kept(preds, b)
    ensures FilterStream(Stream(a + b, RECORD_EOF), preds).end == FilterStream(Stream(b, RECORD_EOF), preds).end
    decreases |a|
  {
    if a == [] {
      assert a + b == b;
    } else {
      assert EvalConjuncts(AND, preds, a[0]).Ok?;
      FilterAppend(preds, a[1..], b);
      assert (a + b)[1..] == a[1..] + b;
    }
  }

  lemma {:induction false} KeptOne(preds: seq<Expr>, row: Row)
    requires EvalConjuncts(AND, preds, row).Ok?
    ensures Kept(preds, [row]) == if Passes(preds, row) then [row] else []
  {
    var rest := Stream([row][1..], RECORD_EOF);
    assert rest.rows == [] && FilterStream(rest, preds) == rest;
  }

  lemma {:induction false} KeptNext(preds: seq<Expr>, rows: seq<Row>, i: nat)
    requires i < |rows| && RunsThrough(rows, preds)
    ensures Kept(preds, rows[..i + 1]) == if Passes(preds, rows[i]) then Kept(preds, rows[..i]) + [rows[i]] else Kept(preds, rows[..i])
  {
    assert rows[..i + 1] == rows[..i] + [rows[i]];
    FilterAppend(preds, rows[..i], [rows[i]]);
    KeptOne(preds, rows[i]);
  }

  /** Copies one row's values to the ends of the columns. */
  method AppendRow(schema: seq<Heading>, chunk: Chunk, i: nat, filtered: Chunk) returns (out: Chunk)
    requires IsChunkOf(schema, chunk) && IsChunkOf(schema, filtered) && i < chunk.rows
    ensures IsChunkOf(schema, out) && RowsOf(schema, out) == RowsOf(schema, filtered) + [RowAt(schema, chunk, i)]
  {
    var columns := filtered.columns;
    for j := 0 to |columns|
      invariant |columns| == |schema|
      invariant forall c :: 0 <= c < j ==> columns[c] == filtered.columns[c] + [chunk.columns[c][i]]
      invariant forall c :: j <= c < |columns| ==> columns[c] == filtered.columns[c]
    {
      columns := columns[j := columns[j] + [chunk.columns[j][i]]];
    }
    out := Chunk(columns, filtered.rows + 1);
    RowsAppend(schema, chunk, i, filtered, out);
  }

  lemma {:induction false} RowsAppend(schema: seq<Heading>, chunk: Chunk, i: nat, filtered: Chunk, out: Chunk)
    requires IsChunkOf(schema, chunk) && IsChunkOf(schema, filtered) && i < chunk.rows
    requires |out.columns| == |schema| && out.rows == filtered.rows + 1
    requires forall c :: 0 <= c < |schema| ==> out.columns[c] == filtered.columns[c] + [chunk.columns[c][i]]
    ensures IsChunkOf(schema, out) && RowsOf(schema, out) == RowsOf(schema, filtered) + [RowAt(schema, chunk, i)]
  {
    forall k | 0 <= k < filtered.rows ensures RowAt(schema, out, k) == RowAt(schema, filtered, k) {
    }
    assert RowAt(schema, out, filtered.rows) == RowAt(schema, chunk, i);
  }

  /** The next chunk of the vectorised scan holds exactly the rows the tuple scan keeps, in order. */
  method Next(schema: seq<Heading>, chunk: Chunk, preds: seq<Expr>, simd: bool) returns (out: Chunk)
    requires IsChunkOf(schema, chunk) && AreIntComparisons(schema, preds)
    ensures IsChunkOf(schema, out) && RowsOf(schema, out) == Kept(preds, RowsOf(schema, chunk))
    ensures RunsThrough(RowsOf(schema, chunk), preds)
  {
    var select := new bv8[chunk.rows](_ => 1);
    if preds == [] {
      KeptAll(RowsOf(schema, chunk));
      return chunk;
    }
    Filter(schema, chunk, preds, select, simd);
    ghost var rows := RowsOf(schema, chunk);
    assert RunsThrough(rows, preds);
    out := Chunk(seq(|schema|, _ => []), 0);
    for i := 0 to chunk.rows
      invariant IsChunkOf(schema, out) && RowsOf(schema, out) == Kept(preds, rows[..i])
      invariant Selects(schema, chunk, preds, select[..])
    {
      assert select[..][i] == select[i] && rows[i] == RowAt(schema, chunk, i);
      assert select[i] == Bit(Passes(preds, rows[i]));
      KeptNext(preds, rows, i);
      if select[i] == 0 {
        continue;
      }
      out := AppendRow(schema, chunk, i, out);
    }
    assert rows[..chunk.rows] == rows;
  }

  lemma {:induction false} KeptAll(rows: seq<Row>)
    ensures Kept([], rows) == rows && RunsThrough(rows, [])
    decreases |rows|
  {
    if rows != [] {
      KeptAll(rows[1..]);
    }
  }

  function AllRows(schema: seq<Heading>, chunks: seq<Chunk>): seq<Row>
    requires forall c :: 0 <= c < |chunks| ==> IsChunkOf(schema, chunks[c])
    decreases |chunks|
  {
    if chunks == [] then []
    else AllRows(schema, chunks[..|chunks| - 1]) + RowsOf(schema, chunks[|chunks| - 1])
  }

  /** The whole vectorised scan, however the table is cut into chunks, is the tuple scan. */
  method ScanAll(schema: seq<Heading>, chunks: seq<Chunk>, preds: seq<Expr>, simd: bool) returns (rows: seq<Row>)
    requires (forall c :: 0 <= c < |chunks| ==> IsChunkOf(schema, chunks[c])) && AreIntComparisons(schema, preds)
    ensures Stream(rows, RECORD_EOF) == FilterStream(Stream(AllRows(schema, chunks), RECORD_EOF), preds)
  {
    rows := [];
    for c := 0 to |chunks|
      invariant rows == Kept(preds, AllRows(schema, chunks[..c])) && RunsThrough(AllRows(schema, chunks[..c]), preds)
      invariant FilterStream(Stream(AllRows(schema, chunks[..c]), RECORD_EOF), preds).end == RECORD_EOF
    {
      assert chunks[..c + 1][..c] == chunks[..c];
      var out := Next(schema, chunks[c], preds, simd);
      FilterAppend(preds, AllRows(schema, chunks[..c]), RowsOf(schema, chunks[c]));
      NeverFailingEnds(preds, RowsOf(schema, chunks[c]));
      rows := rows + RowsOf(schema, out);
    }
    assert chunks[..|chunks|] == chunks;
  }

  lemma {:induction false} NeverFailingEnds(preds: seq<Expr>, rows: seq<Row>)
    requires RunsThrough(rows, preds)
    ensures FilterStream(Stream(rows, RECORD_EOF), preds).end == RECORD_EOF
    decreases |rows|
  {
    if rows != [] {
      assert EvalConjuncts(AND, preds, rows[0]).Ok?;
      NeverFailingEnds(preds, rows[1..]);
    }
  }
}
