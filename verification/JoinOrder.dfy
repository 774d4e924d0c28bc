/** The rows of a left-deep tree of joins: every combination of rows, each at the place its indices say. */
module JoinOrder {
  import opened Common
  import opened Expressions
  import opened Streams
  import opened LogicalPlan
  import opened GeneratedPlans
  import opened QueryMeaning

  // ---- the order of a product --------------------------------------------------------------

  function RoundStart(i: nat, n: nat): nat {
    if i == 0 then 0 else n + RoundStart(i - 1, n)
  }

  lemma {:induction false} RoundStartIs(i: nat, n: nat)
    ensures RoundStart(i, n) == i * n
  {
    if i > 0 {
      RoundStartIs(i - 1, n);
      assert i * n == n + (i - 1) * n;
    }
  }

  lemma {:induction false} ProductAtRound(l: Stream, r: Stream, i: nat, j: nat)
    requires l.end == RECORD_EOF && r.end == RECORD_EOF && i < |l.rows| && j < |r.rows|
    ensures |ProductStream(l, r).rows| == RoundStart(|l.rows|, |r.rows|)
    ensures RoundStart(i, |r.rows|) + j < |ProductStream(l, r).rows|
    ensures ProductStream(l, r).rows[RoundStart(i, |r.rows|) + j] == l.rows[i] + r.rows[j]
    decreases |l.rows|
  {
    var rest := Stream(l.rows[1..], l.end);
    var round, tail := PairWith(l.rows[0], r.rows), ProductStream(rest, r).rows;
    assert ProductStream(l, r).rows == round + tail;
    if |l.rows| > 1 {
      ProductAtRound(rest, r, if i == 0 then 0 else i - 1, j);
    }
  }

  /** Pairing two complete streams puts left row i with right row j at position i * |right| + j. */
  lemma {:induction false} ProductAt(l: Stream, r: Stream, i: nat, j: nat)
    requires l.end == RECORD_EOF && r.end == RECORD_EOF && i < |l.rows| && j < |r.rows|
    ensures |ProductStream(l, r).rows| == |l.rows| * |r.rows|
    ensures i * |r.rows| + j < |ProductStream(l, r).rows|
    ensures ProductStream(l, r).rows[i * |r.rows| + j] == l.rows[i] + r.rows[j]
  {
    ProductAtRound(l, r, i, j);
    RoundStartIs(i, |r.rows|);
    RoundStartIs(|l.rows|, |r.rows|);
  }

  // ---- joins of tables ----------------------------------------------------------------------

  function Sizes(tables: seq<string>, db: Tables): (r: seq<nat>)
    ensures |r| == |tables|
  {
    seq(|tables|, k requires 0 <= k < |tables| => |TableRows(db, tables[k])|)
  }

  function Product(sizes: seq<nat>): nat
    decreases |sizes|
  {
    if sizes == [] then 1 else Product(sizes[..|sizes| - 1]) * sizes[|sizes| - 1]
  }

  predicate AreIndices(sizes: seq<nat>, indices: seq<nat>) {
    |indices| == |sizes| && forall k :: 0 <= k < |sizes| ==> indices[k] < sizes[k]
  }

  /** The place of a combination: the indices read as digits, the last table's varying fastest. */
  function Rank(sizes: seq<nat>, indices: seq<nat>): nat
    requires |indices| == |sizes|
    decreases |sizes|
  {
    if sizes == [] then 0
    else
      var n := |sizes| - 1;
      Rank(sizes[..n], indices[..n]) * sizes[n] + indices[n]
  }

  /** One row from each table, side by side. */
  function Combination(tables: seq<string>, db: Tables, indices: seq<nat>): Row
    requires AreIndices(Sizes(tables, db), indices)
    decreases |tables|
  {
    if tables == [] then []
    else
      var n := |tables| - 1;
      assert Sizes(tables, db)[n] == |TableRows(db, tables[n])|;
      assert Sizes(tables[..n], db) == Sizes(tables, db)[..n];
      Combination(tables[..n], db, indices[..n]) + TableRows(db, tables[n])[indices[n]]
  }

  lemma {:induction false} ScanRows(table: string, db: Tables)
    ensures Rows(TableGetOperator(table), db) == Stream(TableRows(db, table), RECORD_EOF)
  {
    FilterNothing(Stream(TableRows(db, table), RECORD_EOF));
  }

  /** The last table is joined on the right of all the others. */
  lemma {:induction false} JoinTreeRows(tables: seq<string>, db: Tables)
    requires tables != []
    ensures var n := |tables| - 1;
      var last := Stream(TableRows(db, tables[n]), RECORD_EOF);
      BodyRows(JoinTree(tables), db) ==
        if n == 0 then last else ProductStream(BodyRows(JoinTree(tables[..n]), db), last)
    ensures BodyRows(JoinTree(tables), db).end == RECORD_EOF
  {
    ScanRows(tables[|tables| - 1], db);
    JoinTreeGenerated(tables);
    BareEnds(JoinTree(tables)[0], db);
  }

  /** Joining one more table, n > 0, or starting with the first. */
  lemma {:induction false} JoinOneMore(tables: seq<string>, db: Tables, i: nat, j: nat)
    requires |tables| > 1 && j < |TableRows(db, tables[|tables| - 1])|
    requires i < |BodyRows(JoinTree(tables[..|tables| - 1]), db).rows|
    ensures var n := |tables| - 1;
      var size := |TableRows(db, tables[n])|;
      var before, rows := BodyRows(JoinTree(tables[..n]), db).rows, BodyRows(JoinTree(tables), db).rows;
      && |rows| == |before| * size && i * size + j < |rows|
      && rows[i * size + j] == before[i] + TableRows(db, tables[n])[j]
  {
    var n := |tables| - 1;
    JoinTreeRows(tables, db);
    JoinTreeRows(tables[..n], db);
    ProductAt(BodyRows(JoinTree(tables[..n]), db), Stream(TableRows(db, tables[n]), RECORD_EOF), i, j);
  }

  lemma {:induction false} OneTableAt(tables: seq<string>, db: Tables, indices: seq<nat>)
    requires |tables| == 1 && AreIndices(Sizes(tables, db), indices)
    ensures Product(Sizes(tables, db)) == |TableRows(db, tables[0])|
    ensures Rank(Sizes(tables, db), indices) == indices[0] < |TableRows(db, tables[0])|
    ensures Combination(tables, db, indices) == TableRows(db, tables[0])[indices[0]]
  {
    var sizes := Sizes(tables, db);
    assert sizes[..0] == [] && indices[..0] == [] && tables[..0] == [];
    assert Rank([], []) == 0 && Product([]) == 1;
    assert Product(sizes) == 1 * sizes[0];
    assert Rank(sizes, indices) == Rank(sizes[..0], indices[..0]) * sizes[0] + indices[0];
    assert Combination([], db, []) == [];
    assert [] + TableRows(db, tables[0])[indices[0]] == TableRows(db, tables[0])[indices[0]];
  }

  /** Every combination of rows is in the join, where its indices say. */
  lemma {:induction false} JoinTreeAt(tables: seq<string>, db: Tables, indices: seq<nat>)
    requires tables != [] && AreIndices(Sizes(tables, db), indices)
    ensures var rows := BodyRows(JoinTree(tables), db).rows;
      && |rows| == Product(Sizes(tables, db))
      && Rank(Sizes(tables, db), indices) < |rows|
      && rows[Rank(Sizes(tables, db), indices)] == Combination(tables, db, indices)
    decreases |tables|
  {
    if |tables| == 1 {
      JoinTreeRows(tables, db);
      OneTableAt(tables, db, indices);
    } else {
      var n := |tables| - 1;
      LastTable(tables, db, indices);
      JoinTreeAt(tables[..n], db, indices[..n]);
      JoinOneMore(tables, db, Rank(Sizes(tables[..n], db), indices[..n]), indices[n]);
    }
  }

  lemma {:induction false} NoPairs(l: Stream, r: Stream)
    requires l.rows == [] || r.rows == []
    ensures ProductStream(l, r).rows == []
  {
  }

  /** As many rows as there are combinations, also when there are none. */
  lemma {:induction false} JoinSize(tables: seq<string>, db: Tables)
    requires tables != []
    ensures |BodyRows(JoinTree(tables), db).rows| == Product(Sizes(tables, db))
    decreases |tables|
  {
    var n, sizes := |tables| - 1, Sizes(tables, db);
    assert sizes[n] == |TableRows(db, tables[n])| && Sizes(tables[..n], db) == sizes[..n];
    JoinTreeRows(tables, db);
    if n == 0 {
      assert sizes[..0] == [] && Product([]) == 1;
    } else {
      var before, last := BodyRows(JoinTree(tables[..n]), db), Stream(TableRows(db, tables[n]), RECORD_EOF);
      JoinSize(tables[..n], db);
      JoinTreeRows(tables[..n], db);
      if before.rows == [] || last.rows == [] {
        NoPairs(before, last);
      } else {
        ProductAt(before, last, 0, 0);
      }
    }
  }

  /** Size, place and combination, by the tables before the last. */
  lemma {:induction false} LastTable(tables: seq<string>, db: Tables, indices: seq<nat>)
    requires tables != [] && AreIndices(Sizes(tables, db), indices)
    ensures var n := |tables| - 1;
      var before, last := Sizes(tables[..n], db), TableRows(db, tables[n]);
      && AreIndices(before, indices[..n]) && indices[n] < |last|
      && Product(Sizes(tables, db)) == Product(before) * |last|
      && Rank(Sizes(tables, db), indices) == Rank(before, indices[..n]) * |last| + indices[n]
      && Combination(tables, db, indices) == Combination(tables[..n], db, indices[..n]) + last[indices[n]]
  {
    var n, sizes := |tables| - 1, Sizes(tables, db);
    assert sizes[n] == |TableRows(db, tables[n])| && Sizes(tables[..n], db) == sizes[..n];
  }

  /** Every place below the product is some combination's, so the join holds nothing else. */
  lemma {:induction false} EveryRankIsTaken(sizes: seq<nat>, place: nat) returns (indices: seq<nat>)
    requires place < Product(sizes)
    ensures AreIndices(sizes, indices) && Rank(sizes, indices) == place
    decreases |sizes|
  {
    if sizes == [] {
      indices := [];
    } else {
      var n := |sizes| - 1;
      var size := sizes[n];
      Digits(place, Product(sizes[..n]), size);
      var before := EveryRankIsTaken(sizes[..n], place / size);
      indices := before + [place % size];
      assert indices[..n] == before;
    }
  }

  lemma {:induction false} Digits(place: nat, m: nat, size: nat)
    requires place < m * size
    ensures size > 0 && place / size < m && place / size * size + place % size == place
  {
  }

  lemma {:induction false} EmptyOnTheRight(tables: seq<string>, db: Tables)
    requires tables != [] && TableRows(db, tables[|tables| - 1]) == []
    ensures BodyRows(JoinTree(tables), db).rows == []
  {
    var n := |tables| - 1;
    var last := Stream(TableRows(db, tables[n]), RECORD_EOF);
    JoinTreeRows(tables, db);
    if n > 0 { NoPairs(BodyRows(JoinTree(tables[..n]), db), last); }
  }

  lemma {:induction false} EmptyOnTheLeft(tables: seq<string>, db: Tables)
    requires |tables| > 1 && BodyRows(JoinTree(tables[..|tables| - 1]), db).rows == []
    ensures BodyRows(JoinTree(tables), db).rows == []
  {
    var n := |tables| - 1;
    JoinTreeRows(tables, db);
    NoPairs(BodyRows(JoinTree(tables[..n]), db), Stream(TableRows(db, tables[n]), RECORD_EOF));
  }

  /** With an empty table there is no combination, and the join is empty. */
  lemma {:induction false} JoinWithEmptyTable(tables: seq<string>, db: Tables, k: nat)
    requires k < |tables| && TableRows(db, tables[k]) == []
    ensures BodyRows(JoinTree(tables), db).rows == []
    decreases |tables|
  {
    var n := |tables| - 1;
    if k == n {
      EmptyOnTheRight(tables, db);
    } else {
      JoinWithEmptyTable(tables[..n], db, k);
      EmptyOnTheLeft(tables, db);
    }
  }
}
