/** The hash group-by operator: everything is grouped when it is opened, then the groups are handed out. */
module HashGroupBy {
  import opened Common
  import opened Expressions
  import opened Streams
  import opened Grouping
  import opened GroupSums

  class GroupOperator {
    const keys: seq<Expr>
    const exprs: seq<Expr>
    var groups: seq<Group>
    var current: nat
    var firstEmitted: bool

    predicate Valid()
      reads this
    {
      Shaped(groups, exprs) && current <= |groups|
    }

    constructor (keys: seq<Expr>, exprs: seq<Expr>)
      ensures Valid() && groups == [] && this.keys == keys && this.exprs == exprs
    {
      this.keys, this.exprs := keys, exprs;
      groups, current, firstEmitted := [], 0, false;
    }

    /** The first group whose key compares equal; a new one at the end if there is none. */
    method FindGroupOf(row: Row) returns (rc: RC, found: nat)
      requires Shaped(groups, exprs)
      modifies this`groups
      ensures Shaped(groups, exprs)
      ensures match EvalAll(keys, row)
        case Err(e) => rc == e
        case Ok(key) =>
          match FindGroup(old(groups), key)
          case Err(e) => rc == e
          case Ok(i) =>
            && rc == SUCCESS && found == i
            && groups == if i < |old(groups)| then old(groups) else old(groups) + [Group(key, row, Undefs(|exprs|))]
      ensures rc == SUCCESS ==> found < |groups|
    {
      var evaluated := EvalAll(keys, row);
      found := 0;
      if evaluated.Err? {
        EvalAllFails(keys, row);
        return evaluated.rc, 0;
      }
      var key := evaluated.value;
      while found < |groups|
        invariant 0 <= found <= |groups| && groups == old(groups)
        invariant FindGroup(groups, key) ==
                  match FindGroup(groups[found..], key) case Err(e) => Err(e) case Ok(i) => Ok(i + found)
      {
        assert groups[found..][1..] == groups[found + 1..];
        var compared := CompareKeys(key, groups[found].key);
        if compared.None? {
          return UNDEFINED, found;
        }
        if compared.value == 0 {
          return SUCCESS, found;
        }
        found := found + 1;
      }
      groups := groups + [Group(key, row, Undefs(|exprs|))];
      return SUCCESS, found;
    }

    /** Adds the row's values to the running sums of its group, one aggregate after the other. */
    method Aggregate(at: nat, row: Row) returns (rc: RC)
      requires Shaped(groups, exprs) && at < |groups|
      modifies this`groups
      ensures Shaped(groups, exprs)
      ensures match AccumulateRow(old(groups)[at].sums, exprs, row)
        case Err(e) => rc == e
        case Ok(sums) => rc == SUCCESS && groups == old(groups)[at := old(groups)[at].(sums := sums)]
    {
      ghost var start := groups[at].sums;
      var sums := groups[at].sums;
      var i := 0;
      assert start[0..] == start && exprs[0..] == exprs && sums[..0] == [];
      BehindNothing(AccumulateRow(start, exprs, row));
      while i < |exprs|
        invariant 0 <= i <= |exprs| == |sums| == |start| && groups == old(groups) && sums[i..] == start[i..]
        invariant AccumulateRow(start, exprs, row) == Behind(sums[..i], AccumulateRow(start[i..], exprs[i..], row))
      {
        AccumulateNext(sums[..i], start[i..], exprs[i..], row);
        assert exprs[i..][1..] == exprs[i + 1..] && start[i..][1..] == start[i + 1..];
        var value := Eval(exprs[i], row);
        if value.Err? {
          return value.rc;
        }
        var sum := Accumulate(sums[i], value.value);
        if sum.Err? {
          return sum.rc;
        }
        assert sums[i := sum.value][..i + 1] == sums[..i] + [sum.value];
        sums := sums[i := sum.value];
        i := i + 1;
      }
      assert sums[..i] + [] == sums;
      groups := groups[at := groups[at].(sums := sums)];
      return SUCCESS;
    }

    /** Groups all of the child's rows. A failure on the way is reported at once. */
    method Open(child: Stream) returns (rc: RC)
      requires Valid() && groups == [] && child.end != SUCCESS
      modifies this
      ensures Valid()
      ensures match GroupRows(child.rows, keys, exprs)
        case Err(e) => rc == e
        case Ok(gs) =>
          if child.end != RECORD_EOF then rc == child.end
          else rc == SUCCESS && groups == gs && current == 0 && !firstEmitted
    {
      current, firstEmitted := 0, false;
      for i := 0 to |child.rows|
        invariant Shaped(groups, exprs) && current == 0 && !firstEmitted && GroupRows(child.rows[..i], keys, exprs) == Ok(groups)
      {
        GroupRowsStep(child.rows, i, keys, exprs);
        rc := AddChildRow(child.rows[i]);
        if rc != SUCCESS {
          GroupRowsFails(child.rows, i + 1, keys, exprs);
          return;
        }
      }
      assert child.rows[..|child.rows|] == child.rows;
      if child.end != RECORD_EOF {
        return child.end;
      }
      return SUCCESS;
    }

    /** One round of open's loop. */
    method AddChildRow(row: Row) returns (rc: RC)
      requires Shaped(groups, exprs)
      modifies this`groups
      ensures Shaped(groups, exprs)
      ensures match AddRow(old(groups), keys, exprs, row)
        case Err(e) => rc == e != SUCCESS
        case Ok(gs) => rc == SUCCESS && groups == gs
    {
      AddRowFails(groups, keys, exprs, row);
      var found;
      rc, found := FindGroupOf(row);
      if rc != SUCCESS {
        return;
      }
      rc := Aggregate(found, row);
    }

    /** What is still to be handed out. */
    ghost function Remaining(): seq<Group>
      requires Valid()
      reads this
    {
      if firstEmitted && current < |groups| then groups[current + 1..] else groups[current..]
    }

    /** Moves to the next group, if there is one. */
    method Next() returns (rc: RC)
      requires Valid()
      modifies this`current, this`firstEmitted
      ensures Valid()
      ensures rc == if old(Remaining()) == [] then RECORD_EOF else SUCCESS
      ensures rc == SUCCESS ==> firstEmitted && current < |groups| && groups[current] == old(Remaining())[0]
      ensures rc == SUCCESS ==> current == old(current) + if old(firstEmitted) then 1 else 0
      ensures Remaining() == if old(Remaining()) == [] then [] else old(Remaining())[1..]
    {
      if current == |groups| {
        return RECORD_EOF;
      }
      if firstEmitted {
        current := current + 1;
      } else {
        firstEmitted := true;
      }
      if current == |groups| {
        return RECORD_EOF;
      }
      return SUCCESS;
    }

    /** The current group's first row followed by its sums. */
    method CurrentTuple() returns (row: Option<Row>)
      requires Valid()
      ensures row == if current < |groups| then Some(GroupRow(groups[current])) else None
    {
      if current != |groups| {
        return Some(GroupRow(groups[current]));
      }
      return None;
    }

    /**
     * Opening and draining gives exactly the stream the operator stands for. On typed rows that is one tuple for each
     * different key, its first row followed by its sums; or no tuple, if and only if some integer sum overflows.
     */
    method Drain(child: Stream) returns (result: Stream)
      requires Valid() && groups == [] && child.end != SUCCESS
      modifies this
      ensures result == GroupStream(child, keys, exprs)
      ensures forall kinds, ks, vs :: IsTyped(child.rows, keys, exprs, kinds, ks, vs) && child.end == RECORD_EOF ==>
        if NeverOverflows(ks, vs, kinds) then result.end == RECORD_EOF && AreTuplesOf(result.rows, child.rows, kinds, ks, vs)
        else result.rows == [] && result.end != RECORD_EOF
    {
      forall kinds, ks, vs | IsTyped(child.rows, keys, exprs, kinds, ks, vs) && child.end == RECORD_EOF
        ensures var out := GroupStream(child, keys, exprs);
          if NeverOverflows(ks, vs, kinds) then out.end == RECORD_EOF && AreTuplesOf(out.rows, child.rows, kinds, ks, vs)
          else out.rows == [] && out.end != RECORD_EOF
      {
        GroupStreamExact(child, keys, exprs, kinds, ks, vs);
      }
      var rc := Open(child);
      if GroupRows(child.rows, keys, exprs).Err? {
        GroupRowsErrorCode(child.rows, keys, exprs);
      }
      if rc != SUCCESS {
        return Stream([], rc);
      }
      var rows;
      rows, rc := Collect();
      return Stream(rows, rc);
    }

    /** next until the end, from the first group on. */
    method Collect() returns (rows: seq<Row>, rc: RC)
      requires Valid() && current == 0 && !firstEmitted
      modifies this`current, this`firstEmitted
      ensures rc == RECORD_EOF
      ensures |rows| == |groups| && forall i :: 0 <= i < |rows| ==> rows[i] == GroupRow(groups[i])
    {
      rows := [];
      rc := Next();
      while rc == SUCCESS
        invariant Valid() && (rc == SUCCESS || rc == RECORD_EOF)
        invariant rc == SUCCESS ==> firstEmitted && current == |rows| < |groups|
        invariant rc == RECORD_EOF ==> |rows| == |groups|
        invariant |rows| <= |groups| && forall i :: 0 <= i < |rows| ==> rows[i] == GroupRow(groups[i])
        decreases |groups| - |rows|
      {
        var row := CurrentTuple();
        rows := rows + [row.value];
        rc := Next();
      }
    }
  }

  /** Sums computed before the others. */
  function Behind(done: seq<Value>, r: Result<seq<Value>>): Result<seq<Value>> {
    match r case Err(e) => Err(e) case Ok(rest) => Ok(done + rest)
  }

  lemma {:induction false} AccumulateNext(done: seq<Value>, sums: seq<Value>, exprs: seq<Expr>, row: Row)
    requires |sums| == |exprs| > 0
    ensures match Eval(exprs[0], row)
      case Err(e) => AccumulateRow(sums, exprs, row) == Err(e)
      case Ok(v) =>
        match Accumulate(sums[0], v)
        case Err(e) => AccumulateRow(sums, exprs, row) == Err(e)
        case Ok(s) =>
          Behind(done, AccumulateRow(sums, exprs, row)) == Behind(done + [s], AccumulateRow(sums[1..], exprs[1..], row))
  {
    var r := AccumulateRow(sums, exprs, row);
    if r.Ok? {
      assert done + r.value == done + [r.value[0]] + r.value[1..];
    }
  }

  lemma {:induction false} BehindNothing(r: Result<seq<Value>>)
    ensures Behind([], r) == r
  {
    if r.Ok? {
      assert [] + r.value == r.value;
    }
  }

  lemma {:induction false} GroupRowsStep(rows: seq<Row>, i: nat, keys: seq<Expr>, exprs: seq<Expr>)
    requires i < |rows| && GroupRows(rows[..i], keys, exprs).Ok?
    ensures GroupRows(rows[..i + 1], keys, exprs) == AddRow(GroupRows(rows[..i], keys, exprs).value, keys, exprs, rows[i])
  {
    assert rows[..i + 1][..i] == rows[..i];
  }

  /** A failure on a prefix is the failure of the whole, and never reads as success. */
  lemma {:induction false} GroupRowsFails(rows: seq<Row>, n: nat, keys: seq<Expr>, exprs: seq<Expr>)
    requires n <= |rows| && GroupRows(rows[..n], keys, exprs).Err?
    ensures GroupRows(rows, keys, exprs) == GroupRows(rows[..n], keys, exprs)
    decreases |rows|
  {
    if n < |rows| {
      assert rows[..|rows| - 1][..n] == rows[..n];
      GroupRowsFails(rows[..|rows| - 1], n, keys, exprs);
    } else {
      assert rows[..n] == rows;
    }
  }
}
