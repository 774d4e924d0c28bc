/** What comparing, calculating and looking up values means, said without the functions that do it. */
module ValueMeaning {
  import opened Common
  import opened Numbers
  import opened Expressions
  import opened VectorCompare

  // ---- cells ---------------------------------------------------------------------------------

  predicate IsCellOf(c: Cell, table: string, field: string) {
    c.table == table && c.field == field
  }

  /** Cell i is the column's, and none before it is. */
  predicate IsFirstCell(row: Row, table: string, field: string, i: nat) {
    i < |row| && IsCellOf(row[i], table, field) && forall j :: 0 <= j < i ==> !IsCellOf(row[j], table, field)
  }

  /** The row has the value in the column: in its first cell, if a join gave it several. */
  ghost predicate HasValue(row: Row, table: string, field: string, v: Value) {
    exists i: nat :: IsFirstCell(row, table, field, i) && row[i].value == v
  }

  lemma {:induction false} FindCellExact(row: Row, table: string, field: string)
    ensures forall v :: FindCell(row, table, field) == Ok(v) <==> HasValue(row, table, field, v)
    ensures FindCell(row, table, field).Err? <==> forall i :: 0 <= i < |row| ==> !IsCellOf(row[i], table, field)
    ensures FindCell(row, table, field).Err? ==> FindCell(row, table, field).rc == NOTFOUND
  {
    if row != [] {
      if IsCellOf(row[0], table, field) {
        assert IsFirstCell(row, table, field, 0);
      } else {
        FindCellExact(row[1..], table, field);
        FirstCellBehind(row, table, field);
        assert forall i :: 0 <= i < |row[1..]| ==> row[1..][i] == row[i + 1];
        assert forall i :: 1 <= i < |row| ==> row[i] == row[1..][i - 1];
      }
    }
  }

  lemma {:induction false} FirstCellBehind(row: Row, table: string, field: string)
    requires row != [] && !IsCellOf(row[0], table, field)
    ensures forall v :: HasValue(row, table, field, v) <==> HasValue(row[1..], table, field, v)
  {
    forall v ensures HasValue(row, table, field, v) <==> HasValue(row[1..], table, field, v) {
      if HasValue(row, table, field, v) {
        var i: nat :| IsFirstCell(row, table, field, i) && row[i].value == v;
        assert IsFirstCell(row[1..], table, field, i - 1);
      }
      if HasValue(row[1..], table, field, v) {
        var i: nat :| IsFirstCell(row[1..], table, field, i) && row[1..][i].value == v;
        assert forall j :: 1 <= j < i + 1 ==> row[j] == row[1..][j - 1];
        assert IsFirstCell(row, table, field, i + 1);
      }
    }
  }

  // ---- orders --------------------------------------------------------------------------------

  /** The strings have their first i characters in common. */
  predicate AgreeUpTo(a: string, b: string, i: nat) {
    i <= |a| && i <= |b| && a[..i] == b[..i]
  }

  /** a is a proper prefix of b, or smaller at the first place where they differ. */
  ghost predicate ComesBefore(a: string, b: string) {
    exists i: nat :: AgreeUpTo(a, b, i) && i < |b| && (i == |a| || a[i] < b[i])
  }

  lemma {:induction false} ComesBeforeBehind(a: string, b: string)
    requires a != [] && b != [] && a[0] == b[0]
    ensures ComesBefore(a, b) <==> ComesBefore(a[1..], b[1..])
  {
    if ComesBefore(a, b) {
      var i: nat :| AgreeUpTo(a, b, i) && i < |b| && (i == |a| || a[i] < b[i]);
      assert i > 0;
      assert a[1..][..i - 1] == a[..i][1..] && b[1..][..i - 1] == b[..i][1..];
      assert AgreeUpTo(a[1..], b[1..], i - 1);
    }
    if ComesBefore(a[1..], b[1..]) {
      var i: nat :| AgreeUpTo(a[1..], b[1..], i) && i < |b[1..]| && (i == |a[1..]| || a[1..][i] < b[1..][i]);
      assert a[..i + 1] == [a[0]] + a[1..][..i] && b[..i + 1] == [b[0]] + b[1..][..i];
      assert AgreeUpTo(a, b, i + 1);
    }
  }

  lemma {:induction false} FirstDiffers(a: string, b: string)
    requires a == [] || b == [] || a[0] != b[0]
    ensures ComesBefore(a, b) <==> b != [] && (a == [] || a[0] < b[0])
  {
    if b != [] && (a == [] || a[0] < b[0]) {
      assert AgreeUpTo(a, b, 0);
    }
    if ComesBefore(a, b) {
      var i: nat :| AgreeUpTo(a, b, i) && i < |b| && (i == |a| || a[i] < b[i]);
      if i > 0 {
        assert a[..i][0] == b[..i][0];
      }
    }
  }

  /** The sign of the string comparison is the lexicographic order. */
  lemma {:induction false} CompareStringExact(a: string, b: string)
    ensures CompareString(a, b) < 0 <==> ComesBefore(a, b)
    ensures CompareString(a, b) > 0 <==> ComesBefore(b, a)
    ensures CompareString(a, b) == 0 <==> a == b
  {
    if a != [] && b != [] && a[0] == b[0] {
      CompareStringExact(a[1..], b[1..]);
      ComesBeforeBehind(a, b);
      ComesBeforeBehind(b, a);
      assert a == [a[0]] + a[1..] && b == [b[0]] + b[1..];
    } else {
      FirstDiffers(a, b);
      FirstDiffers(b, a);
    }
  }

  /** Real numbers count as equal within the tolerance. */
  predicate Near(a: real, b: real) {
    -EPSILON <= a - b <= EPSILON
  }

  predicate WellBelow(a: real, b: real) {
    a + EPSILON < b
  }

  lemma {:induction false} CompareRealExact(a: real, b: real)
    ensures CompareReal(a, b) < 0 <==> WellBelow(a, b)
    ensures CompareReal(a, b) > 0 <==> WellBelow(b, a)
    ensures CompareReal(a, b) == 0 <==> Near(a, b)
  {
  }

  // ---- relations -----------------------------------------------------------------------------

  /** An operator on what is before, equal or after. */
  predicate Ordered(op: CompOp, before: bool, equal: bool, after: bool)
    requires !op.NoOp?
  {
    match op
    case EqualTo => equal
    case NotEqual => before || after
    case LessThan => before
    case LessEqual => before || equal
    case GreatThan => after
    case GreatEqual => after || equal
  }

  /**
   * The values stand in the relation. Booleans and undefined values come after everything, also themselves; an integer
   * against a real, and a string against anything else, do not compare.
   */
  ghost predicate Related(op: CompOp, l: Value, r: Value)
    requires !op.NoOp?
  {
    match (l, r)
    case (Int(a), Int(b)) => Test(op, a, b)
    case (Str(a), Str(b)) => Ordered(op, ComesBefore(a, b), a == b, ComesBefore(b, a))
    case (Float(a), Float(b)) => Ordered(op, WellBelow(a, b), Near(a, b), WellBelow(b, a))
    case (Float(a), Int(b)) => Ordered(op, WellBelow(a, b as real), Near(a, b as real), WellBelow(b as real, a))
    case (Bool(_), _) => Ordered(op, false, false, true)
    case (Undef, _) => Ordered(op, false, false, true)
    case _ => false
  }

  lemma {:induction false} CompareIsRelated(op: CompOp, l: Value, r: Value)
    requires !op.NoOp?
    ensures CompareValue(op, l, r) == Ok(true) <==> Related(op, l, r)
    ensures Compare(l, r).Some? ==> CompareValue(op, l, r) == Ok(Related(op, l, r))
  {
    match (l, r)
    case (Str(a), Str(b)) => CompareStringExact(a, b);
    case (Float(a), Float(b)) => CompareRealExact(a, b);
    case (Float(a), Int(b)) => CompareRealExact(a, b as real);
    case _ =>
  }

  /** What a number has to equal for its truth value to be false. */
  function Zero(v: Value): Value {
    match v
    case Int(_) => Int(0)
    case Float(_) => Float(0.0)
    case _ => Bool(false)
  }

  /** A number is true exactly if it does not compare equal to zero, or lies at the very edge of the tolerance. */
  lemma {:induction false} TruthIsNonZero(v: Value)
    ensures v.Int? || v.Float? ==>
              (v.Truth() <==> CompareValue(NotEqual, v, Zero(v)) == Ok(true) || v == Float(EPSILON) || v == Float(-EPSILON))
    ensures v.Bool? ==> (v.Truth() <==> v != Zero(v))
    ensures v.Str? ==> v.Truth()
    ensures v.Undef? ==> !v.Truth()
  {
    if v.Float? { CompareRealExact(v.f, 0.0); }
  }

  // ---- conjunctions --------------------------------------------------------------------------

  /** An AND is true exactly if each conjunct is. */
  lemma {:induction false} AndIsAll(cs: seq<Expr>, row: Row)
    ensures EvalConjuncts(AND, cs, row) == Ok(true) <==> forall i :: 0 <= i < |cs| ==> EvalTruth(cs[i], row) == Ok(true)
  {
    if cs != [] {
      AndIsAll(cs[1..], row);
      assert forall i :: 0 <= i < |cs[1..]| ==> cs[1..][i] == cs[i + 1];
      assert forall i :: 1 <= i < |cs| ==> cs[i] == cs[1..][i - 1];
    }
  }

  /** Where all of them have values, an OR is true exactly if one of them is. */
  lemma {:induction false} OrIsSome(cs: seq<Expr>, row: Row)
    requires forall i :: 0 <= i < |cs| ==> Eval(cs[i], row).Ok?
    ensures EvalConjuncts(OR, cs, row) == Ok(exists i :: 0 <= i < |cs| && EvalTruth(cs[i], row) == Ok(true))
  {
    if cs != [] {
      assert forall i :: 0 <= i < |cs[1..]| ==> cs[1..][i] == cs[i + 1];
      OrIsSome(cs[1..], row);
      assert forall i :: 1 <= i < |cs| ==> cs[i] == cs[1..][i - 1];
      if EvalTruth(cs[0], row) == Ok(true) {
        assert EvalConjuncts(OR, cs, row) == Ok(true);
      } else if i :| 0 <= i < |cs[1..]| && EvalTruth(cs[1..][i], row) == Ok(true) {
        assert EvalTruth(cs[i + 1], row) == Ok(true);
      }
    }
  }

  // ---- arithmetic ----------------------------------------------------------------------------

  /** x is what the operator makes of integers a and b, in this order. */
  predicate IsIntResult(op: ArithmeticOp, a: int, b: int, x: int) {
    match op
    case ADD => x - b == a
    case SUB => x + b == a
    case MUL => x == a * b
    case DIV => false
  }

  /** On integer expressions: the exact number, or failure exactly if it leaves 32 bits. Division is never integer division. */
  lemma {:induction false} IntArithmetic(op: ArithmeticOp, l: Expr, r: Expr, row: Row, a: int32, b: int32, x: int)
    requires l.ValueType() == Ints && r.ValueType() == Ints && !op.DIV?
    requires Eval(l, row) == Ok(Int(a)) && Eval(r, row) == Ok(Int(b)) && IsIntResult(op, a, b, x)
    ensures Eval(Arithmetic(op, l, r), row) == if Fits32(x) then Ok(Int(x)) else Err(UNDEFINED)
  {
    assert Arithmetic(op, l, r).ValueType() == Ints;
  }

  /** The number a value stands for in a calculation with reals. */
  predicate IsNumber(v: Value, x: real) {
    match v
    case Int(i) => x == i as real
    case Float(f) => x == f
    case Bool(b) => x == if b then 1.0 else 0.0
    case _ => false
  }

  /** z is what the operator makes of real numbers x and y, in this order; a division by nearly nothing gives the largest float. */
  predicate IsRealResult(op: ArithmeticOp, x: real, y: real, z: real) {
    match op
    case ADD => z - y == x
    case SUB => z + y == x
    case MUL => z == x * y
    case DIV => if -EPSILON < y < EPSILON then z == FLOAT_MAX else z * y == x
  }

  lemma {:induction false} ProductIs(x: real, y: real, z: real)
    requires z == x * y
    ensures Times(x, y) == z
  {
  }

  lemma {:induction false} QuotientIs(x: real, y: real, z: real)
    requires y != 0.0 && z * y == x
    ensures x / y == z
  {
  }

  lemma {:induction false} RealArithmetic(op: ArithmeticOp, l: Expr, r: Expr, row: Row, x: real, y: real, z: real)
    requires op.DIV? || l.ValueType() != Ints || r.ValueType() != Ints
    requires Eval(l, row).Ok? && Eval(r, row).Ok?
    requires IsNumber(Eval(l, row).value, x) && IsNumber(Eval(r, row).value, y) && IsRealResult(op, x, y, z)
    ensures Eval(Arithmetic(op, l, r), row) == Ok(Float(z))
  {
    assert Arithmetic(op, l, r).ValueType() == Floats;
    var lv, rv := Eval(l, row).value, Eval(r, row).value;
    assert ToFloat(lv) == Ok(x) && ToFloat(rv) == Ok(y);
    CalcFloatExact(op, lv, rv, x, y, z);
  }

  lemma {:induction false} CalcFloatExact(op: ArithmeticOp, lv: Value, rv: Value, x: real, y: real, z: real)
    requires ToFloat(lv) == Ok(x) && ToFloat(rv) == Ok(y) && IsRealResult(op, x, y, z)
    ensures CalcFloat(op, lv, rv) == Ok(Float(z))
  {
    match op
    case ADD =>
    case SUB =>
    case MUL => ProductIs(x, y, z);
    case DIV => if !(-EPSILON < y < EPSILON) { QuotientIs(x, y, z); }
  }

  /** A cast gives its operand's value if that is of the type already, and nothing otherwise. */
  lemma {:induction false} CastExact(c: Expr, t: AttrType, row: Row, v: Value)
    ensures Eval(Cast(c, t), row) == Ok(v) <==> Eval(c, row) == Ok(v) && v.Type() == t
  {
  }

  /** A string or an undefined value in a calculation with reals fails. */
  lemma {:induction false} NoNumberFails(op: ArithmeticOp, l: Expr, r: Expr, row: Row)
    requires op.DIV? || l.ValueType() != Ints || r.ValueType() != Ints
    requires Eval(l, row).Ok? && Eval(r, row).Ok?
    ensures Eval(Arithmetic(op, l, r), row).Ok? <==>
            (exists x :: IsNumber(Eval(l, row).value, x)) && (exists y :: IsNumber(Eval(r, row).value, y))
  {
    var lv, rv := Eval(l, row).value, Eval(r, row).value;
    if ToFloat(lv).Ok? { assert IsNumber(lv, ToFloat(lv).value); }
    if ToFloat(rv).Ok? { assert IsNumber(rv, ToFloat(rv).value); }
    assert Arithmetic(op, l, r).ValueType() == Floats;
  }
}
