/** Values, rows and expressions of the SQL layer, and what an expression evaluates to on a row. */
module Expressions {
  import opened Common

  type int32 = i: int | -0x8000_0000 <= i < 0x8000_0000

  const INT32_MAX: int32 := 0x7fff_ffff

  /** Tolerance of the floating point comparison. */
  const EPSILON: real := 0.000001

  datatype AttrType = Undefined | Chars | Ints | Floats | Booleans

  datatype Value = Undef | Str(s: string) | Int(i: int32) | Float(f: real) | Bool(b: bool) {
    function Type(): AttrType {
      match this
      case Undef => Undefined
      case Str(_) => Chars
      case Int(_) => Ints
      case Float(_) => Floats
      case Bool(_) => Booleans
    }

    /** A string is true whatever it spells: every path of the conversion ends in "not null". */
    predicate Truth() {
      match this
      case Undef => false
      case Str(_) => true
      case Int(i) => i != 0
      case Float(f) => f >= EPSILON || f <= -EPSILON
      case Bool(b) => b
    }
  }

  function CompareString(a: string, b: string): int {
    if a == [] && b == [] then 0
    else if a == [] then -1
    else if b == [] then 1
    else if a[0] < b[0] then -1
    else if a[0] > b[0] then 1
    else CompareString(a[1..], b[1..])
  }

  function CompareReal(a: real, b: real): int {
    if a - b > EPSILON then 1 else if a - b < -EPSILON then -1 else 0
  }

  function CompareInt(a: int, b: int): int {
    if a > b then 1 else if a < b then -1 else 0
  }

  /** Three-way comparison. None where the program asserts, or reads integer bytes as a float. */
  function Compare(left: Value, right: Value): Option<int> {
    match (left, right)
    case (Int(a), Int(b)) => Some(CompareInt(a, b))
    case (Float(a), Float(b)) => Some(CompareReal(a, b))
    case (Float(a), Int(b)) => Some(CompareReal(a, b as real))
    case (Str(a), Str(b)) => Some(CompareString(a, b))
    case (Bool(_), _) => Some(INT32_MAX)
    case (Undef, _) => Some(INT32_MAX)
    case _ => None
  }

  datatype CompOp = EqualTo | LessEqual | NotEqual | LessThan | GreatEqual | GreatThan | NoOp

  function CompareValue(op: CompOp, left: Value, right: Value): Result<bool> {
    match Compare(left, right)
    case None => Err(UNDEFINED)
    case Some(c) =>
      match op
      case EqualTo => Ok(c == 0)
      case LessEqual => Ok(c <= 0)
      case NotEqual => Ok(c != 0)
      case LessThan => Ok(c < 0)
      case GreatEqual => Ok(c >= 0)
      case GreatThan => Ok(c > 0)
      case NoOp => Err(INTERNAL)
  }

  /** One cell of a tuple: the table and column it belongs to, and its value. */
  datatype Cell = Cell(table: string, field: string, value: Value)

  /** A tuple. A joined tuple is the left cells followed by the right cells. */
  type Row = seq<Cell>

  /** The first matching cell: in a joined tuple the left side is searched before the right. */
  function FindCell(row: Row, table: string, field: string): Result<Value> {
    if row == [] then Err(NOTFOUND)
    else if row[0].table == table && row[0].field == field then Ok(row[0].value)
    else FindCell(row[1..], table, field)
  }

  datatype ConjunctionType = AND | OR

  datatype ArithmeticOp = ADD | SUB | MUL | DIV

  datatype Expr =
    | Field(table: string, field: string, fieldType: AttrType)
    | ValueExpr(value: Value)
    | Cast(child: Expr, castType: AttrType)
    | Comparison(comp: CompOp, left: Expr, right: Expr)
    | Conjunction(ctype: ConjunctionType, children: seq<Expr>)
    | Arithmetic(op: ArithmeticOp, left: Expr, right: Expr)
  {
    function ValueType(): AttrType {
      match this
      case Field(_, _, t) => t
      case ValueExpr(v) => v.Type()
      case Cast(_, t) => t
      case Comparison(_, _, _) => Booleans
      case Conjunction(_, _) => Booleans
      case Arithmetic(op, l, r) =>
        if l.ValueType() == Ints && r.ValueType() == Ints && !op.DIV? then Ints else Floats
    }
  }

  function CastValue(v: Value, to: AttrType): Result<Value> {
    if v.Type() == to then Ok(v)
    else if v.Str? then Err(UNIMPLEMENTED)
    else Err(UNSUPPORTED)
  }

  /** Division by (nearly) zero yields the largest float. */
  const FLOAT_MAX: real := 340282346638528859811704183484516925440.0

  function ToFloat(v: Value): Result<real> {
    match v
    case Int(i) => Ok(i as real)
    case Float(f) => Ok(f)
    case Bool(b) => Ok(if b then 1.0 else 0.0)
    case _ => Err(UNDEFINED)
  }

  function IntResult(i: int): Result<Value> {
    if -0x8000_0000 <= i < 0x8000_0000 then Ok(Int(i)) else Err(UNDEFINED)
  }

  function CalcInt(op: ArithmeticOp, l: Value, r: Value): Result<Value> {
    if !l.Int? || !r.Int? then Err(UNDEFINED)
    else match op
      case ADD => IntResult(l.i + r.i)
      case SUB => IntResult(l.i - r.i)
      case MUL => IntResult(l.i * r.i)
      case DIV => Err(UNSUPPORTED)
  }

  function Times(a: real, b: real): real {
    a * b
  }

  function CalcFloat(op: ArithmeticOp, l: Value, r: Value): Result<Value> {
    var a :- ToFloat(l);
    var b :- ToFloat(r);
    match op
    case ADD => Ok(Float(a + b))
    case SUB => Ok(Float(a - b))
    case MUL => Ok(Float(Times(a, b)))
    case DIV => Ok(Float(if -EPSILON < b < EPSILON then FLOAT_MAX else a / b))
  }

  /** get_value: the value of an expression on a row. */
  function Eval(e: Expr, row: Row): Result<Value>
    decreases e, 1
  {
    match e
    case Field(t, f, _) => FindCell(row, t, f)
    case ValueExpr(v) => Ok(v)
    case Cast(c, t) => var v :- Eval(c, row); CastValue(v, t)
    case Comparison(op, l, r) =>
      var lv :- Eval(l, row);
      var rv :- Eval(r, row);
      var b :- CompareValue(op, lv, rv);
      Ok(Bool(b))
    case Conjunction(t, cs) =>
      var b :- if cs == [] then Ok(true) else EvalConjuncts(t, cs, row);
      Ok(Bool(b))
    case Arithmetic(op, l, r) =>
      var lv :- Eval(l, row);
      var rv :- Eval(r, row);
      if e.ValueType() == Ints then CalcInt(op, lv, rv) else CalcFloat(op, lv, rv)
  }

  /** The short-circuit loop over the children of a non-empty conjunction. */
  function EvalConjuncts(t: ConjunctionType, cs: seq<Expr>, row: Row): Result<bool>
    decreases cs, 0
  {
    if cs == [] then Ok(t.AND?)
    else
      var v :- Eval(cs[0], row);
      if t.AND? && !v.Truth() then Ok(false)
      else if t.OR? && v.Truth() then Ok(true)
      else EvalConjuncts(t, cs[1..], row)
  }

  /** The truth value of an expression used as a predicate. */
  function EvalTruth(e: Expr, row: Row): Result<bool> {
    var v :- Eval(e, row);
    Ok(v.Truth())
  }

  lemma {:induction false} EvalConjunctsAppend(t: ConjunctionType, a: seq<Expr>, b: seq<Expr>, row: Row)
    ensures EvalConjuncts(t, a + b, row) ==
            match EvalConjuncts(t, a, row)
            case Err(rc) => Err(rc)
            case Ok(v) => if v == t.AND? then EvalConjuncts(t, b, row) else Ok(v)
  {
    if a == [] {
      assert a + b == b;
    } else {
      assert (a + b)[1..] == a[1..] + b;
      EvalConjunctsAppend(t, a[1..], b, row);
    }
  }

  /** Values of one type are always comparable, so only a NoOp comparison of constants can fail. */
  lemma {:induction false} SameTypeComparable(left: Value, right: Value)
    requires left.Type() == right.Type()
    ensures Compare(left, right).Some?
  {
  }

  /** A failed evaluation is told apart from success and from the end of a scan. */
  lemma {:induction false} EvalErrorCode(e: Expr, row: Row)
    requires Eval(e, row).Err?
    ensures Eval(e, row).rc != SUCCESS && Eval(e, row).rc != RECORD_EOF
    decreases e, 1
  {
    match e
    case Field(t, f, _) => FindCellErrorCode(row, t, f);
    case Cast(c, t) => if Eval(c, row).Err? { EvalErrorCode(c, row); }
    case Comparison(op, l, r) =>
      if Eval(l, row).Err? { EvalErrorCode(l, row); }
      else if Eval(r, row).Err? { EvalErrorCode(r, row); }
    case Conjunction(t, cs) => EvalConjunctsErrorCode(t, cs, row);
    case Arithmetic(op, l, r) =>
      if Eval(l, row).Err? { EvalErrorCode(l, row); }
      else if Eval(r, row).Err? { EvalErrorCode(r, row); }
    case _ =>
  }

  lemma {:induction false} FindCellErrorCode(row: Row, table: string, field: string)
    ensures FindCell(row, table, field).Err? ==> FindCell(row, table, field).rc == NOTFOUND
  {
    if row != [] { FindCellErrorCode(row[1..], table, field); }
  }

  lemma {:induction false} EvalConjunctsErrorCode(t: ConjunctionType, cs: seq<Expr>, row: Row)
    requires EvalConjuncts(t, cs, row).Err?
    ensures EvalConjuncts(t, cs, row).rc != SUCCESS && EvalConjuncts(t, cs, row).rc != RECORD_EOF
    decreases cs, 0
  {
    if Eval(cs[0], row).Err? { EvalErrorCode(cs[0], row); } else { EvalConjunctsErrorCode(t, cs[1..], row); }
  }
}
