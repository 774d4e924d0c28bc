/** What grouping computes when keys are integers or strings and aggregated values are integers. */
module GroupSums {
  import opened Common
  import opened Expressions
  import opened ValueMeaning
  import opened Streams
  import opened Grouping

  type Key = seq<Value>

  // ---- keys --------------------------------------------------------------------------------

  predicate IsSameKind(a: Value, b: Value) {
    (a.Int? && b.Int?) || (a.Str? && b.Str?)
  }

  /** Two keys of the same columns, each an integer or a string column. */
  predicate AreSameKinds(a: Key, b: Key) {
    |a| == |b| && forall c :: 0 <= c < |a| ==> IsSameKind(a[c], b[c])
  }

  /** On such keys the comparison always answers, and with 0 exactly for equal keys. */
  lemma {:induction false} CompareKeysExact(a: Key, b: Key)
    requires AreSameKinds(a, b)
    ensures CompareKeys(a, b).Some? && (CompareKeys(a, b).value == 0 <==> a == b)
  {
    if a != [] {
      assert IsSameKind(a[0], b[0]);
      if a[0].Str? {
        CompareStringExact(a[0].s, b[0].s);
      }
      assert AreSameKinds(a[1..], b[1..]) by {
        forall c | 0 <= c < |a[1..]| ensures IsSameKind(a[1..][c], b[1..][c]) {
          assert IsSameKind(a[c + 1], b[c + 1]);
        }
      }
      CompareKeysExact(a[1..], b[1..]);
      assert a == [a[0]] + a[1..] && b == [b[0]] + b[1..];
    }
  }

  // ---- the reference -----------------------------------------------------------------------

  /** The different keys, in the order in which they first appear. */
  function DistinctKeys(ks: seq<Key>): seq<Key>
    decreases |ks|
  {
    if ks == [] then []
    else
      var before, last := DistinctKeys(ks[..|ks| - 1]), ks[|ks| - 1];
      if last in before then before else before + [last]
  }

  function FirstRow(rows: seq<Row>, ks: seq<Key>, key: Key): Option<Row>
    requires |rows| == |ks|
  {
    if ks == [] then None
    else if ks[0] == key then Some(rows[0])
    else FirstRow(rows[1..], ks[1..], key)
  }

  /** The sum of column j over the rows that have the key. */
  function KeySum(ks: seq<Key>, vs: seq<seq<real>>, key: Key, j: nat): real
    requires |ks| == |vs| && forall i :: 0 <= i < |vs| ==> j < |vs[i]|
    decreases |ks|
  {
    if ks == [] then 0.0
    else
      var n := |ks| - 1;
      KeySum(ks[..n], vs[..n], key, j) + (if ks[n] == key then vs[n][j] else 0.0)
  }

  /** The sum of column j over all rows. */
  function ColumnSum(vs: seq<seq<real>>, j: nat): real
    requires forall i :: 0 <= i < |vs| ==> j < |vs[i]|
    decreases |vs|
  {
    if vs == [] then 0.0 else ColumnSum(vs[..|vs| - 1], j) + vs[|vs| - 1][j]
  }

  lemma {:induction false} DistinctAreDistinct(ks: seq<Key>)
    ensures forall g, h :: 0 <= g < h < |DistinctKeys(ks)| ==> DistinctKeys(ks)[g] != DistinctKeys(ks)[h]
    ensures forall k :: k in DistinctKeys(ks) <==> k in ks
    decreases |ks|
  {
    if ks != [] {
      var before, last := ks[..|ks| - 1], ks[|ks| - 1];
      DistinctAreDistinct(before);
      assert ks == before + [last];
    }
  }

  // ---- conservation ------------------------------------------------------------------------

  /** The sums of all the listed keys. */
  function TotalOver(keys: seq<Key>, ks: seq<Key>, vs: seq<seq<real>>, j: nat): real
    requires |ks| == |vs| && forall i :: 0 <= i < |vs| ==> j < |vs[i]|
  {
    if keys == [] then 0.0 else KeySum(ks, vs, keys[0], j) + TotalOver(keys[1..], ks, vs, j)
  }

  lemma {:induction false} TotalAppend(keys: seq<Key>, key: Key, ks: seq<Key>, vs: seq<seq<real>>, j: nat)
    requires |ks| == |vs| && forall i :: 0 <= i < |vs| ==> j < |vs[i]|
    ensures TotalOver(keys + [key], ks, vs, j) == TotalOver(keys, ks, vs, j) + KeySum(ks, vs, key, j)
  {
    if keys != [] {
      TotalAppend(keys[1..], key, ks, vs, j);
      assert (keys + [key])[1..] == keys[1..] + [key];
    }
  }

  /** One more row adds its value to the total once if its key is listed once, not at all if it is not listed. */
  lemma {:induction false} TotalOneMore(keys: seq<Key>, ks: seq<Key>, vs: seq<seq<real>>, j: nat)
    requires |ks| == |vs| > 0 && forall i :: 0 <= i < |vs| ==> j < |vs[i]|
    requires forall g, h :: 0 <= g < h < |keys| ==> keys[g] != keys[h]
    ensures var n := |ks| - 1;
      TotalOver(keys, ks, vs, j) == TotalOver(keys, ks[..n], vs[..n], j) + if ks[n] in keys then vs[n][j] else 0.0
  {
    if keys != [] {
      TotalOneMore(keys[1..], ks, vs, j);
    }
  }

  lemma {:induction false} UnknownKeySum(ks: seq<Key>, vs: seq<seq<real>>, key: Key, j: nat)
    requires |ks| == |vs| && (forall i :: 0 <= i < |vs| ==> j < |vs[i]|) && key !in ks
    ensures KeySum(ks, vs, key, j) == 0.0
    decreases |ks|
  {
    if ks != [] {
      UnknownKeySum(ks[..|ks| - 1], vs[..|vs| - 1], key, j);
    }
  }

  /** The group sums add up to the sum over all the input. */
  lemma {:induction false} SumsAddUp(ks: seq<Key>, vs: seq<seq<real>>, j: nat)
    requires |ks| == |vs| && forall i :: 0 <= i < |vs| ==> j < |vs[i]|
    ensures TotalOver(DistinctKeys(ks), ks, vs, j) == ColumnSum(vs, j)
    decreases |ks|
  {
    if ks != [] {
      var n := |ks| - 1;
      SumsAddUp(ks[..n], vs[..n], j);
      DistinctAreDistinct(ks[..n]);
      var before := DistinctKeys(ks[..n]);
      TotalOneMore(before, ks, vs, j);
      if ks[n] !in before {
        TotalAppend(before, ks[n], ks, vs, j);
        UnknownKeySum(ks[..n], vs[..n], ks[n], j);
      }
    }
  }

  // ---- grouping computes the reference -------------------------------------------------------

  /** The value is of the kind, integer or float, and stands for the number. */
  predicate IsNumberOf(v: Value, kind: AttrType, x: real) {
    match v
    case Int(i) => kind == Ints && i as real == x
    case Float(f) => kind == Floats && f == x
    case _ => false
  }

  predicate AreNumbers(vs: seq<Value>, kinds: seq<AttrType>, xs: seq<real>) {
    |vs| == |kinds| == |xs| && forall j :: 0 <= j < |vs| ==> IsNumberOf(vs[j], kinds[j], xs[j])
  }

  /**
   * Row i has key ks[i] and numbers vs[i]; the keys are of the same integer or string columns, and each number is of its
   * column's kind.
   */
  ghost predicate IsTyped(
    rows: seq<Row>, keys: seq<Expr>, exprs: seq<Expr>, kinds: seq<AttrType>, ks: seq<Key>, vs: seq<seq<real>>)
  {
    && |ks| == |vs| == |rows| && |kinds| == |exprs|
    && (forall i :: 0 <= i < |rows| ==> EvalAll(keys, rows[i]) == Ok(ks[i]))
    && (forall i :: 0 <= i < |rows| ==> |vs[i]| == |kinds|)
    && (forall i :: 0 <= i < |rows| ==> EvalAll(exprs, rows[i]).Ok? && AreNumbers(EvalAll(exprs, rows[i]).value, kinds, vs[i]))
    && (forall i, k :: 0 <= i < |ks| && 0 <= k < |ks| ==> AreSameKinds(ks[i], ks[k]))
  }

  /** An integer sum has to fit 32 bits; a float sum always fits. */
  predicate Fits(kind: AttrType, x: real) {
    kind == Ints ==> -2147483648.0 <= x < 2147483648.0
  }

  /** The sum of a row's group up to that row fits its type. */
  predicate SumFits(kinds: seq<AttrType>, ks: seq<Key>, vs: seq<seq<real>>, n: nat, j: nat)
    requires n < |ks| == |vs| && j < |kinds| && forall i :: 0 <= i < |vs| ==> j < |vs[i]|
  {
    Fits(kinds[j], KeySum(ks[..n + 1], vs[..n + 1], ks[n], j))
  }

  /** No group's running sum ever overflows. */
  predicate NeverOverflows(ks: seq<Key>, vs: seq<seq<real>>, kinds: seq<AttrType>)
    requires |ks| == |vs| && forall i :: 0 <= i < |vs| ==> |vs[i]| == |kinds|
  {
    forall n, j :: 0 <= n < |ks| && 0 <= j < |kinds| ==> SumFits(kinds, ks, vs, n, j)
  }

  predicate IsSum(v: Value, kind: AttrType, sum: real) {
    if v.Undef? then sum == 0.0 else IsNumberOf(v, kind, sum)
  }

  /** A group holds the sums of its key. */
  predicate HoldsSums(g: Group, ks: seq<Key>, vs: seq<seq<real>>, kinds: seq<AttrType>)
    requires |ks| == |vs| && forall i :: 0 <= i < |vs| ==> |vs[i]| == |kinds|
  {
    |g.sums| == |kinds| && forall j :: 0 <= j < |kinds| ==> IsNumberOf(g.sums[j], kinds[j], KeySum(ks, vs, g.key, j))
  }

  /** The groups are the reference: keys in first-appearance order, each with its first row and its sums. */
  predicate AreGroupsOf(groups: seq<Group>, rows: seq<Row>, ks: seq<Key>, vs: seq<seq<real>>, kinds: seq<AttrType>)
    requires |ks| == |vs| == |rows| && forall i :: 0 <= i < |vs| ==> |vs[i]| == |kinds|
  {
    && |groups| == |DistinctKeys(ks)|
    && forall g :: 0 <= g < |groups| ==>
         && groups[g].key == DistinctKeys(ks)[g]
         && FirstRow(rows, ks, groups[g].key) == Some(groups[g].first)
         && HoldsSums(groups[g], ks, vs, kinds)
  }

  lemma {:induction false} AccumulateNumber(sum: Value, v: Value, kind: AttrType, acc: real, x: real)
    requires IsSum(sum, kind, acc) && IsNumberOf(v, kind, x)
    ensures Accumulate(sum, v).Ok? <==> Fits(kind, acc + x)
    ensures Accumulate(sum, v).Ok? ==> IsNumberOf(Accumulate(sum, v).value, kind, acc + x)
  {
    if sum.Int? { assert (v.i + sum.i) as real == acc + x; }
  }

  /** One row's values join running sums: possible exactly if every sum fits. */
  lemma {:induction false} AccumulateExact(
    sums: seq<Value>, exprs: seq<Expr>, row: Row, kinds: seq<AttrType>, acc: seq<real>, xs: seq<real>)
    requires |sums| == |exprs| == |acc| == |xs| == |kinds|
    requires EvalAll(exprs, row).Ok? && AreNumbers(EvalAll(exprs, row).value, kinds, xs)
    requires forall j :: 0 <= j < |acc| ==> IsSum(sums[j], kinds[j], acc[j])
    ensures AccumulateRow(sums, exprs, row).Ok? <==> forall j :: 0 <= j < |acc| ==> Fits(kinds[j], acc[j] + xs[j])
    ensures var r := AccumulateRow(sums, exprs, row);
      r.Ok? ==> forall j :: 0 <= j < |acc| ==> IsNumberOf(r.value[j], kinds[j], acc[j] + xs[j])
  {
    EvalAllExact(exprs, row);
    AccumulateRowExact(sums, exprs, row);
    forall j | 0 <= j < |acc|
      ensures Accumulate(sums[j], Eval(exprs[j], row).value).Ok? <==> Fits(kinds[j], acc[j] + xs[j])
      ensures var s := Accumulate(sums[j], Eval(exprs[j], row).value);
        s.Ok? ==> IsNumberOf(s.value, kinds[j], acc[j] + xs[j])
    {
      AccumulateNumber(sums[j], Eval(exprs[j], row).value, kinds[j], acc[j], xs[j]);
    }
  }

  /** Where a key is in a list of different keys. */
  function PositionOf(keys: seq<Key>, key: Key): (r: nat)
    ensures r <= |keys| && (r < |keys| <==> key in keys) && (r < |keys| ==> keys[r] == key)
  {
    if keys == [] then 0 else if keys[0] == key then 0 else 1 + PositionOf(keys[1..], key)
  }

  lemma {:induction false} FindGroupExact(groups: seq<Group>, keys: seq<Key>, key: Key)
    requires |groups| == |keys|
    requires forall g :: 0 <= g < |groups| ==> groups[g].key == keys[g] && AreSameKinds(key, keys[g])
    ensures FindGroup(groups, key) == Ok(PositionOf(keys, key))
  {
    if groups != [] {
      CompareKeysExact(key, keys[0]);
      FindGroupExact(groups[1..], keys[1..], key);
    }
  }

  lemma {:induction false} FirstRowAppend(rows: seq<Row>, ks: seq<Key>, row: Row, k: Key, key: Key)
    requires |rows| == |ks|
    ensures FirstRow(rows + [row], ks + [k], key) ==
            if key in ks then FirstRow(rows, ks, key) else if k == key then Some(row) else None
  {
    if ks == [] {
      assert (rows + [row])[1..] == [] && (ks + [k])[1..] == [];
    } else {
      FirstRowAppend(rows[1..], ks[1..], row, k, key);
      assert (rows + [row])[1..] == rows[1..] + [row] && (ks + [k])[1..] == ks[1..] + [k];
      assert ks == [ks[0]] + ks[1..];
    }
  }

  lemma {:induction false} TypedPrefix(rows: seq<Row>, keys: seq<Expr>, exprs: seq<Expr>, kinds: seq<AttrType>, ks: seq<Key>, vs: seq<seq<real>>)
    requires IsTyped(rows, keys, exprs, kinds, ks, vs) && rows != []
    ensures var n := |rows| - 1; IsTyped(rows[..n], keys, exprs, kinds, ks[..n], vs[..n])
  {
  }

  /** The running sums of the group a row joins, before that row. */
  ghost function SumsSoFar(ks: seq<Key>, vs: seq<seq<real>>, key: Key, width: nat): (r: seq<real>)
    requires |ks| == |vs| && forall i :: 0 <= i < |vs| ==> |vs[i]| == width
    ensures |r| == width && forall j :: 0 <= j < width ==> r[j] == KeySum(ks, vs, key, j)
  {
    seq(width, j requires 0 <= j < width => KeySum(ks, vs, key, j))
  }

  /** The groups with one added at the end if the key is new. */
  function WithGroupFor(groups: seq<Group>, p: nat, key: Key, row: Row, width: nat): (r: seq<Group>)
    requires p <= |groups|
    ensures p < |r|
  {
    if p < |groups| then groups else groups + [Group(key, row, Undefs(width))]
  }

  /** The group the last row joins holds its running sums. */
  lemma {:induction false} JoinedSums(
    groups: seq<Group>, rows: seq<Row>, ks: seq<Key>, vs: seq<seq<real>>, kinds: seq<AttrType>, key: Key, row: Row)
    requires |ks| == |vs| == |rows| && forall i :: 0 <= i < |vs| ==> |vs[i]| == |kinds|
    requires AreGroupsOf(groups, rows, ks, vs, kinds)
    ensures var p := PositionOf(DistinctKeys(ks), key);
      var sums := WithGroupFor(groups, p, key, row, |kinds|)[p].sums;
      && |sums| == |kinds|
      && forall j :: 0 <= j < |kinds| ==> IsSum(sums[j], kinds[j], SumsSoFar(ks, vs, key, |kinds|)[j])
  {
    var p := PositionOf(DistinctKeys(ks), key);
    DistinctAreDistinct(ks);
    if p < |groups| {
      assert HoldsSums(groups[p], ks, vs, kinds);
    } else {
      forall j | 0 <= j < |kinds| ensures KeySum(ks, vs, key, j) == 0.0 {
        UnknownKeySum(ks, vs, key, j);
      }
    }
  }

  /** Sums of keys other than the last row's do not change. */
  lemma {:induction false} OtherGroupStays(g: Group, ks: seq<Key>, vs: seq<seq<real>>, kinds: seq<AttrType>)
    requires |ks| == |vs| > 0 && forall i :: 0 <= i < |vs| ==> |vs[i]| == |kinds|
    requires g.key != ks[|ks| - 1] && HoldsSums(g, ks[..|ks| - 1], vs[..|ks| - 1], kinds)
    ensures HoldsSums(g, ks, vs, kinds)
  {
  }

  /** After the last row the groups are the reference for one row more. */
  lemma {:induction false} OneRowMore(
    groups: seq<Group>, rows: seq<Row>, ks: seq<Key>, vs: seq<seq<real>>, kinds: seq<AttrType>, sums: seq<Value>)
    requires |ks| == |vs| == |rows| > 0 && forall i :: 0 <= i < |vs| ==> |vs[i]| == |kinds|
    requires var n := |rows| - 1; AreGroupsOf(groups, rows[..n], ks[..n], vs[..n], kinds)
    requires |sums| == |kinds|
    requires forall j :: 0 <= j < |kinds| ==> IsNumberOf(sums[j], kinds[j], KeySum(ks, vs, ks[|ks| - 1], j))
    ensures var n := |rows| - 1;
      var p := PositionOf(DistinctKeys(ks[..n]), ks[n]);
      var found := WithGroupFor(groups, p, ks[n], rows[n], |kinds|);
      AreGroupsOf(found[p := found[p].(sums := sums)], rows, ks, vs, kinds)
  {
    var n := |rows| - 1;
    var before := DistinctKeys(ks[..n]);
    var p := PositionOf(before, ks[n]);
    var found := WithGroupFor(groups, p, ks[n], rows[n], |kinds|);
    var after := found[p := found[p].(sums := sums)];
    DistinctAreDistinct(ks[..n]);
    assert rows == rows[..n] + [rows[n]] && ks == ks[..n] + [ks[n]];
    forall g | 0 <= g < |after|
      ensures FirstRow(rows, ks, after[g].key) == Some(after[g].first) && HoldsSums(after[g], ks, vs, kinds)
    {
      FirstRowAppend(rows[..n], ks[..n], rows[n], ks[n], after[g].key);
      if g < |groups| {
        assert before[g] in before;
      }
      if g != p {
        assert after[g] == groups[g];
        OtherGroupStays(groups[g], ks, vs, kinds);
      }
    }
  }

  lemma {:induction false} LastRowFinds(
    groups: seq<Group>, rows: seq<Row>, keys: seq<Expr>, exprs: seq<Expr>, kinds: seq<AttrType>, ks: seq<Key>, vs: seq<seq<real>>)
    requires rows != [] && IsTyped(rows, keys, exprs, kinds, ks, vs)
    requires var n := |rows| - 1; AreGroupsOf(groups, rows[..n], ks[..n], vs[..n], kinds)
    ensures var n := |rows| - 1;
      EvalAll(keys, rows[n]) == Ok(ks[n]) && FindGroup(groups, ks[n]) == Ok(PositionOf(DistinctKeys(ks[..n]), ks[n]))
  {
    var n := |rows| - 1;
    var before := DistinctKeys(ks[..n]);
    DistinctAreDistinct(ks[..n]);
    forall g | 0 <= g < |groups| ensures groups[g].key == before[g] && AreSameKinds(ks[n], before[g]) {
      assert before[g] in ks[..n];
    }
    FindGroupExact(groups, before, ks[n]);
  }

  lemma {:induction false} LastSumFits(ks: seq<Key>, vs: seq<seq<real>>, kinds: seq<AttrType>)
    requires |ks| == |vs| > 0 && forall i :: 0 <= i < |vs| ==> |vs[i]| == |kinds|
    ensures var n := |ks| - 1;
      var acc := SumsSoFar(ks[..n], vs[..n], ks[n], |kinds|);
      forall j :: 0 <= j < |kinds| ==>
        KeySum(ks, vs, ks[n], j) == acc[j] + vs[n][j] && SumFits(kinds, ks, vs, n, j) == Fits(kinds[j], acc[j] + vs[n][j])
  {
    assert ks[..|ks|] == ks && vs[..|ks|] == vs;
  }

  lemma {:induction false} AddRowTo(groups: seq<Group>, keys: seq<Expr>, exprs: seq<Expr>, row: Row, key: Key, p: nat)
    requires Shaped(groups, exprs) && EvalAll(keys, row) == Ok(key) && FindGroup(groups, key) == Ok(p)
    ensures p <= |groups|
    ensures var found := WithGroupFor(groups, p, key, row, |exprs|);
      && |found[p].sums| == |exprs|
      && AddRow(groups, keys, exprs, row) ==
         match AccumulateRow(found[p].sums, exprs, row)
         case Err(e) => Err(e)
         case Ok(sums) => Ok(found[p := found[p].(sums := sums)])
  {
  }

  lemma {:induction false} AddRowExact(
    groups: seq<Group>, rows: seq<Row>, keys: seq<Expr>, exprs: seq<Expr>, kinds: seq<AttrType>, ks: seq<Key>, vs: seq<seq<real>>)
    requires rows != [] && IsTyped(rows, keys, exprs, kinds, ks, vs) && Shaped(groups, exprs)
    requires var n := |rows| - 1; AreGroupsOf(groups, rows[..n], ks[..n], vs[..n], kinds)
    ensures var n := |rows| - 1;
      AddRow(groups, keys, exprs, rows[n]).Ok? <==> forall j :: 0 <= j < |exprs| ==> SumFits(kinds, ks, vs, n, j)
    ensures var r := AddRow(groups, keys, exprs, rows[|rows| - 1]);
      r.Ok? ==> AreGroupsOf(r.value, rows, ks, vs, kinds)
  {
    var n := |rows| - 1;
    var key := ks[n];
    var before := DistinctKeys(ks[..n]);
    var p := PositionOf(before, key);
    LastRowFinds(groups, rows, keys, exprs, kinds, ks, vs);
    AddRowTo(groups, keys, exprs, rows[n], key, p);
    var found := WithGroupFor(groups, p, key, rows[n], |kinds|);
    var acc := SumsSoFar(ks[..n], vs[..n], key, |kinds|);
    JoinedSums(groups, rows[..n], ks[..n], vs[..n], kinds, key, rows[n]);
    AccumulateExact(found[p].sums, exprs, rows[n], kinds, acc, vs[n]);
    LastSumFits(ks, vs, kinds);
    var r := AccumulateRow(found[p].sums, exprs, rows[n]);
    if r.Ok? {
      OneRowMore(groups, rows, ks, vs, kinds, r.value);
    }
  }

  /**
   * Grouping succeeds exactly if no group's running sum overflows, and then there is one group for each
   * different key, in first-appearance order, with the first row that has the key and the sums over
   * exactly the rows that have it.
   */
  lemma {:induction false} GroupRowsExact(rows: seq<Row>, keys: seq<Expr>, exprs: seq<Expr>, kinds: seq<AttrType>, ks: seq<Key>, vs: seq<seq<real>>)
    requires IsTyped(rows, keys, exprs, kinds, ks, vs)
    ensures GroupRows(rows, keys, exprs).Ok? <==> NeverOverflows(ks, vs, kinds)
    ensures GroupRows(rows, keys, exprs).Ok? ==>
      AreGroupsOf(GroupRows(rows, keys, exprs).value, rows, ks, vs, kinds)
    decreases |rows|
  {
    if rows != [] {
      var n := |rows| - 1;
      TypedPrefix(rows, keys, exprs, kinds, ks, vs);
      GroupRowsExact(rows[..n], keys, exprs, kinds, ks[..n], vs[..n]);
      OverflowPrefix(ks, vs, kinds);
      var before := GroupRows(rows[..n], keys, exprs);
      if before.Ok? {
        AddRowExact(before.value, rows, keys, exprs, kinds, ks, vs);
      }
    }
  }

  lemma {:induction false} OverflowPrefix(ks: seq<Key>, vs: seq<seq<real>>, kinds: seq<AttrType>)
    requires |ks| == |vs| > 0 && forall i :: 0 <= i < |vs| ==> |vs[i]| == |kinds|
    ensures var n := |ks| - 1;
      NeverOverflows(ks, vs, kinds) <==>
      NeverOverflows(ks[..n], vs[..n], kinds) && forall j :: 0 <= j < |kinds| ==> SumFits(kinds, ks, vs, n, j)
  {
    var last := |ks| - 1;
    forall n, j | 0 <= n < last && 0 <= j < |kinds| ensures SumFits(kinds, ks[..last], vs[..last], n, j) == SumFits(kinds, ks, vs, n, j) {
      assert ks[..last][..n + 1] == ks[..n + 1] && vs[..last][..n + 1] == vs[..n + 1];
    }
  }

  // ---- what the operator hands out -----------------------------------------------------------

  /** Row i is the first that has the key. */
  predicate IsFirstWith(ks: seq<Key>, key: Key, i: nat) {
    i < |ks| && ks[i] == key && key !in ks[..i]
  }

  /** The first row that has the key, followed by the key's sums. */
  ghost predicate IsTupleOf(
    out: Row, key: Key, rows: seq<Row>, kinds: seq<AttrType>, ks: seq<Key>, vs: seq<seq<real>>)
    requires |ks| == |vs| == |rows| && forall i :: 0 <= i < |vs| ==> |vs[i]| == |kinds|
  {
    exists i: nat :: IsFirstWith(ks, key, i)
      && |out| == |rows[i]| + |kinds| && out[..|rows[i]|] == rows[i]
      && forall j :: 0 <= j < |kinds| ==> IsNumberOf(out[|rows[i]| + j].value, kinds[j], KeySum(ks, vs, key, j))
  }

  /** One tuple for each different key, in first-appearance order. */
  ghost predicate AreTuplesOf(
    outs: seq<Row>, rows: seq<Row>, kinds: seq<AttrType>, ks: seq<Key>, vs: seq<seq<real>>)
    requires |ks| == |vs| == |rows| && forall i :: 0 <= i < |vs| ==> |vs[i]| == |kinds|
  {
    && |outs| == |DistinctKeys(ks)|
    && forall g :: 0 <= g < |outs| ==> IsTupleOf(outs[g], DistinctKeys(ks)[g], rows, kinds, ks, vs)
  }

  lemma {:induction false} FirstRowIs(rows: seq<Row>, ks: seq<Key>, key: Key) returns (i: nat)
    requires |rows| == |ks| && FirstRow(rows, ks, key).Some?
    ensures IsFirstWith(ks, key, i) && rows[i] == FirstRow(rows, ks, key).value
  {
    if ks[0] == key {
      i := 0;
    } else {
      i := FirstRowIs(rows[1..], ks[1..], key);
      assert ks[..i + 1] == [ks[0]] + ks[1..][..i];
      i := i + 1;
    }
  }

  lemma {:induction false} TupleExact(
    g: Group, rows: seq<Row>, kinds: seq<AttrType>, ks: seq<Key>, vs: seq<seq<real>>)
    requires |ks| == |vs| == |rows| && forall i :: 0 <= i < |vs| ==> |vs[i]| == |kinds|
    requires FirstRow(rows, ks, g.key) == Some(g.first) && HoldsSums(g, ks, vs, kinds)
    ensures IsTupleOf(GroupRow(g), g.key, rows, kinds, ks, vs)
  {
    var i := FirstRowIs(rows, ks, g.key);
    var out := GroupRow(g);
    assert out[..|rows[i]|] == rows[i];
    forall j | 0 <= j < |kinds| ensures IsNumberOf(out[|rows[i]| + j].value, kinds[j], KeySum(ks, vs, g.key, j)) {
      assert out[|rows[i]| + j] == SumCells(g.sums)[j];
    }
  }

  /** What grouping a complete input shows: its tuples, or a failure and no row if and only if some integer sum overflows. */
  lemma {:induction false} GroupStreamExact(
    s: Stream, keys: seq<Expr>, exprs: seq<Expr>, kinds: seq<AttrType>, ks: seq<Key>, vs: seq<seq<real>>)
    requires IsTyped(s.rows, keys, exprs, kinds, ks, vs) && s.end == RECORD_EOF
    ensures var out := GroupStream(s, keys, exprs);
      if NeverOverflows(ks, vs, kinds) then out.end == RECORD_EOF && AreTuplesOf(out.rows, s.rows, kinds, ks, vs)
      else out.rows == [] && out.end != RECORD_EOF
  {
    GroupRowsExact(s.rows, keys, exprs, kinds, ks, vs);
    var r := GroupRows(s.rows, keys, exprs);
    if r.Err? {
      GroupRowsErrorCode(s.rows, keys, exprs);
    } else {
      forall g | 0 <= g < |r.value|
        ensures IsTupleOf(GroupStream(s, keys, exprs).rows[g], DistinctKeys(ks)[g], s.rows, kinds, ks, vs)
      {
        TupleExact(r.value[g], s.rows, kinds, ks, vs);
      }
    }
  }
}
