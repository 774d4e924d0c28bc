/** The open/next/close iterators a physical plan runs as. */
module Executor {
  import opened Common
  import opened Expressions
  import opened Streams
  import opened LogicalPlan
  import opened PhysicalPlan

  datatype Phase = Closed | Running | Ended

  /** What is left of a join in the middle of a round: the rest of the round, then the rounds to come. */
  function RestOfJoin(l: Row, right: Stream, left: Stream, all: Stream): Stream {
    var round := PairWith(l, right.rows);
    if right.end != RECORD_EOF then Stream(round, right.end)
    else
      var rest := ProductStream(left, all);
      Stream(round + rest.rows, rest.end)
  }

  /** The child of an operator that may have lost it. */
  function ChildPlan(p: Physical): seq<Physical> {
    match p
    case Filter(_, child) => [child]
    case Project(_, input) => if input == [] then [] else [input[0]]
    case NestedLoopJoin(l, _) => [l]
    case Collect(_, input) => if input == [] then [] else [input[0]]
    case _ => []
  }

  /**
   * A physical operator. The source has one class per operator behind a virtual interface; here the plan node says
   * which operator an object is, and `left` and `right` are its children.
   */
  class Iterator {
    const plan: Physical
    const db: Database
    const left: Iterator?
    const right: Iterator?

    var records: seq<Row>
    var entries: seq<Entry>
    var cursor: nat
    var leftTuple: Option<Row>
    var roundDone: bool
    var rightClosed: bool
    var currentTuple: Row
    var collected: seq<Row>

    ghost var phase: Phase
    ghost var pending: Stream
    ghost const Repr: set<object>

    /** The tree of objects mirrors the plan; children own disjoint parts of it. */
    ghost predicate Wired()
      decreases Repr
    {
      && this in Repr
      && (left == null <==> ChildPlan(plan) == [])
      && (left != null ==>
            && left in Repr && left.Repr <= Repr && this !in left.Repr
            && left.db == db && left.plan == ChildPlan(plan)[0] && left.Wired())
      && (right == null <==> !plan.NestedLoopJoin?)
      && (right != null ==>
            && right in Repr && right.Repr <= Repr && this !in right.Repr
            && right.db == db && right.plan == plan.right && right.Wired())
      && (left != null && right != null ==> left.Repr !! right.Repr)
    }

    ghost predicate Valid()
      reads this, Repr
      decreases Repr
    {
      && Wired()
      && (left != null ==> left.Valid())
      && (right != null ==> right.Valid())
      && (left != null ==> (left.phase == Closed <==> phase == Closed || plan.Collect?))
      && (right != null ==> if phase == Closed then right.phase == Closed else rightClosed == (right.phase == Closed))
      && (phase == Running ==> RunningState())
    }

    /** While running, `pending` is what the fields still stand for. */
    ghost predicate RunningState()
      requires Wired()
      reads this, Repr
    {
      && (plan.TableScan? || plan.IndexScan? ==> ScanState())
      && (plan.Filter? || plan.Project? ==> UnaryState())
      && (plan.NestedLoopJoin? ==> JoinState())
      && (plan.Collect? ==> pending == EMPTY_STREAM)
    }

    ghost predicate ScanState()
      requires plan.TableScan? || plan.IndexScan?
      reads this
    {
      if plan.TableScan? then
        cursor <= |records| && pending == FilterStream(Stream(records[cursor..], RECORD_EOF), plan.predicates)
      else
        cursor <= |entries| && pending == IndexStream(entries[cursor..], plan.predicates)
    }

    ghost predicate UnaryState()
      requires Wired() && (plan.Filter? || plan.Project?)
      reads this, Repr
    {
      if left == null then pending == EMPTY_STREAM
      else
        && left.phase == Running
        && pending == if plan.Filter? then FilterStream(left.pending, [plan.expression])
                      else ProjectStream(left.pending, plan.expressions)
    }

    ghost predicate JoinState()
      requires Wired() && plan.NestedLoopJoin?
      reads this, Repr
    {
      && left.phase == Running
      && if roundDone then right.phase != Running && pending == ProductStream(left.pending, Yields(right.plan, db))
         else
           && right.phase == Running && leftTuple.Some?
           && pending == RestOfJoin(leftTuple.value, right.pending, left.pending, Yields(right.plan, db))
    }

    constructor (plan: Physical, db: Database)
      ensures Valid() && fresh(Repr) && phase == Closed && this.plan == plan && this.db == db
      decreases plan
    {
      this.plan, this.db := plan, db;
      records, entries, cursor, leftTuple := [], [], 0, None;
      roundDone, rightClosed, currentTuple, collected := true, true, [], [];
      phase, pending := Closed, EMPTY_STREAM;
      var l: Iterator?, r: Iterator? := null, null;
      ghost var reprs: set<object> := {};
      var kids := ChildPlan(plan);
      if kids != [] {
        l := new Iterator(kids[0], db);
        reprs := reprs + l.Repr;
      }
      if plan.NestedLoopJoin? {
        r := new Iterator(plan.right, db);
        reprs := reprs + r.Repr;
      }
      left, right := l, r;
      Repr := {this} + reprs;
    }

    // ---- close ---------------------------------------------------------------------------

    method Close()
      requires Valid() && phase != Closed
      modifies Repr
      ensures Valid() && phase == Closed
      decreases plan
    {
      if left != null && !plan.Collect? {
        left.Close();
      }
      if right != null && !rightClosed {
        right.Close();
        rightClosed := true;
      }
      phase := Closed;
    }

    // ---- open ----------------------------------------------------------------------------

    /** Opening an operator makes it stand at the start of its plan's stream. */
    method Open()
      requires Valid() && phase == Closed
      modifies Repr
      ensures Valid() && phase == Running && pending == Yields(plan, db)
      ensures plan.Collect? ==> collected == Collected(plan, db)
      decreases plan, 2
    {
      match plan {
        case TableScan(_, _) => OpenScan();
        case IndexScan(_, _, _, _) => OpenScan();
        case NestedLoopJoin(_, _) => OpenJoin();
        case Collect(_, _) => OpenCollect();
        case _ => OpenUnary();
      }
    }

    method OpenScan()
      requires Valid() && phase == Closed && (plan.TableScan? || plan.IndexScan?)
      modifies this
      ensures Valid() && phase == Running && pending == Yields(plan, db)
    {
      if plan.TableScan? {
        records := TableRows(db.tables, plan.table);
      } else {
        entries := IndexEntries(db, plan.table, plan.field, plan.value);
      }
      cursor, pending, phase := 0, Yields(plan, db), Running;
    }

    method OpenUnary()
      requires Valid() && phase == Closed && (plan.Filter? || plan.Project?)
      modifies Repr
      ensures Valid() && phase == Running && pending == Yields(plan, db)
      decreases plan, 1
    {
      if left != null {
        left.Open();
      }
      pending, phase := Yields(plan, db), Running;
    }

    /** A join opens only its left child; the right one is opened for each round. */
    method OpenJoin()
      requires Valid() && phase == Closed && plan.NestedLoopJoin?
      modifies Repr
      ensures Valid() && phase == Running && pending == Yields(plan, db)
      decreases plan, 1
    {
      rightClosed, roundDone := true, true;
      left.Open();
      pending, phase := Yields(plan, db), Running;
    }

    /** A delete drains its input while it is opened, and ignores the code the input ended with. */
    method OpenCollect()
      requires Valid() && phase == Closed && plan.Collect?
      modifies Repr
      ensures Valid() && phase == Running && pending == EMPTY_STREAM && collected == Collected(plan, db)
      decreases plan, 1
    {
      collected := [];
      if left != null {
        left.Open();
        var rc;
        collected, rc := left.Drain();
        left.Close();
      }
      pending, phase := EMPTY_STREAM, Running;
    }

    /** Calling next until it stops returning SUCCESS gives the whole stream. */
    method Drain() returns (rows: seq<Row>, rc: RC)
      requires Valid() && phase == Running
      modifies Repr
      ensures Valid() && phase == Ended
      ensures rows == old(pending).rows && rc == old(pending).end && rc != SUCCESS
      decreases plan, 5
    {
      ghost var all := pending;
      rows := [];
      rc := Next();
      while rc == SUCCESS
        invariant Valid()
        invariant rc == SUCCESS ==> phase == Running && all == Prepend(rows, Cons(currentTuple, pending))
        invariant rc != SUCCESS ==> phase == Ended && all == Stream(rows, rc)
        decreases rc == SUCCESS, if rc == SUCCESS then |pending.rows| else 0
      {
        PrependStep(rows, currentTuple, pending);
        rows := rows + [currentTuple];
        rc := Next();
      }
    }

    // ---- next ----------------------------------------------------------------------------

    /** One step of the stream: the next row, or the code the stream ends with. */
    method Next() returns (rc: RC)
      requires Valid() && phase == Running
      modifies Repr
      ensures Valid()
      ensures rc == SUCCESS ==> phase == Running && old(pending) == Cons(currentTuple, pending)
      ensures rc != SUCCESS ==> phase == Ended && old(pending) == Stream([], rc)
      decreases plan, 4
    {
      match plan {
        case TableScan(_, _) => rc := NextTableScan();
        case IndexScan(_, _, _, _) => rc := NextIndexScan();
        case Filter(_, _) => rc := NextFilter();
        case Project(_, _) => rc := NextProject();
        case NestedLoopJoin(_, _) => rc := NextJoin();
        case Collect(_, _) =>
          rc, phase := RECORD_EOF, Ended;
      }
    }

    method NextTableScan() returns (rc: RC)
      requires Valid() && phase == Running && plan.TableScan?
      modifies this
      ensures Valid()
      ensures rc == SUCCESS ==> phase == Running && old(pending) == Cons(currentTuple, pending)
      ensures rc != SUCCESS ==> phase == Ended && old(pending) == Stream([], rc)
    {
      while cursor < |records|
        invariant Valid() && phase == Running && pending == old(pending) && records == old(records)
        decreases |records| - cursor
      {
        var row := records[cursor];
        assert records[cursor..][0] == row && records[cursor..][1..] == records[cursor + 1..];
        cursor := cursor + 1;
        var filterResult := EvalConjuncts(AND, plan.predicates, row);
        if filterResult.Err? {
          EvalConjunctsErrorCode(AND, plan.predicates, row);
          phase := Ended;
          return filterResult.rc;
        }
        if filterResult.value {
          currentTuple := row;
          pending := FilterStream(Stream(records[cursor..], RECORD_EOF), plan.predicates);
          return SUCCESS;
        }
      }
      phase := Ended;
      return RECORD_EOF;
    }

    method NextIndexScan() returns (rc: RC)
      requires Valid() && phase == Running && plan.IndexScan?
      modifies this
      ensures Valid()
      ensures rc == SUCCESS ==> phase == Running && old(pending) == Cons(currentTuple, pending)
      ensures rc != SUCCESS ==> phase == Ended && old(pending) == Stream([], rc)
    {
      while cursor < |entries|
        invariant Valid() && phase == Running && pending == old(pending) && entries == old(entries)
        decreases |entries| - cursor
      {
        var entry := entries[cursor];
        assert entries[cursor..][0] == entry && entries[cursor..][1..] == entries[cursor + 1..];
        cursor := cursor + 1;
        var filterResult := EvalConjuncts(AND, plan.predicates, entry.row);
        if filterResult.Err? {
          EvalConjunctsErrorCode(AND, plan.predicates, entry.row);
          phase := Ended;
          return filterResult.rc;
        }
        if filterResult.value && entry.visible {
          currentTuple := entry.row;
          pending := IndexStream(entries[cursor..], plan.predicates);
          return SUCCESS;
        }
      }
      phase := Ended;
      return RECORD_EOF;
    }

    method NextFilter() returns (rc: RC)
      requires Valid() && phase == Running && plan.Filter?
      modifies Repr
      ensures Valid()
      ensures rc == SUCCESS ==> phase == Running && old(pending) == Cons(currentTuple, pending)
      ensures rc != SUCCESS ==> phase == Ended && old(pending) == Stream([], rc)
      decreases plan, 0
    {
      while true
        invariant Valid() && phase == Running && pending == old(pending)
        decreases |left.pending.rows|
      {
        ghost var before := left.pending;
        rc := left.Next();
        if rc != SUCCESS {
          phase := Ended;
          return;
        }
        var tuple := left.currentTuple;
        assert before.rows[1..] == left.pending.rows;
        var value := EvalConjuncts(AND, [plan.expression], tuple);
        if value.Err? {
          EvalConjunctsErrorCode(AND, [plan.expression], tuple);
          phase := Ended;
          return value.rc;
        }
        if value.value {
          currentTuple := tuple;
          pending := FilterStream(left.pending, [plan.expression]);
          return SUCCESS;
        }
      }
    }

    /** The row is read as soon as it is produced, so a failing query expression ends the stream. */
    method NextProject() returns (rc: RC)
      requires Valid() && phase == Running && plan.Project?
      modifies Repr
      ensures Valid()
      ensures rc == SUCCESS ==> phase == Running && old(pending) == Cons(currentTuple, pending)
      ensures rc == SUCCESS ==> left != null && Shows(currentTuple, plan.expressions, left.currentTuple)
      ensures rc != SUCCESS ==> phase == Ended && old(pending) == Stream([], rc)
      decreases plan, 0
    {
      if left == null {
        phase := Ended;
        return RECORD_EOF;
      }
      ghost var before := left.pending;
      rc := left.Next();
      if rc != SUCCESS {
        phase := Ended;
        return;
      }
      assert before.rows[1..] == left.pending.rows;
      var projected := ProjectRow(plan.expressions, left.currentTuple);
      ProjectRowExact(plan.expressions, left.currentTuple);
      if projected.Err? {
        ProjectErrorCode(plan.expressions, left.currentTuple);
        phase := Ended;
        return projected.rc;
      }
      currentTuple := projected.value;
      pending := ProjectStream(left.pending, plan.expressions);
    }

    method NextJoin() returns (rc: RC)
      requires Valid() && phase == Running && plan.NestedLoopJoin?
      modifies Repr
      ensures Valid()
      ensures rc == SUCCESS ==> phase == Running && old(pending) == Cons(currentTuple, pending)
      ensures rc != SUCCESS ==> phase == Ended && old(pending) == Stream([], rc)
      decreases plan, 3
    {
      if !roundDone {
        rc := ContinueRound();
        if rc != RECORD_EOF {
          return;
        }
      }
      rc := NextRound();
    }

    /** The next row of the right child in the current round, if there is one. */
    method ContinueRound() returns (rc: RC)
      requires Valid() && phase == Running && plan.NestedLoopJoin? && !roundDone
      modifies Repr
      ensures Valid()
      ensures rc == SUCCESS ==> phase == Running && old(pending) == Cons(currentTuple, pending)
      ensures rc == RECORD_EOF ==> phase == Running && roundDone && pending == old(pending)
      ensures rc == RECORD_EOF <==> old(right.pending) == EMPTY_STREAM
      ensures rc != SUCCESS && rc != RECORD_EOF ==> phase == Ended && old(pending) == Stream([], rc)
      decreases plan, 0
    {
      ghost var l, all := leftTuple.value, Yields(right.plan, db);
      rc := right.Next();
      if rc == SUCCESS {
        currentTuple := leftTuple.value + right.currentTuple;
        pending := RestOfJoin(l, right.pending, left.pending, all);
        RoundStep(l, right.currentTuple, right.pending, left.pending, all);
      } else {
        RoundEnd(l, rc, left.pending, all);
        if rc == RECORD_EOF {
          roundDone := true;
        } else {
          phase := Ended;
        }
      }
    }

    /** Between rounds: both children are in order, whatever the join itself still records. */
    ghost predicate BetweenRounds()
      reads this, Repr
    {
      && Wired() && plan.NestedLoopJoin? && phase == Running
      && left.Valid() && left.phase == Running
      && right.Valid() && rightClosed == (right.phase == Closed)
    }

    method LeftNext() returns (rc: RC)
      requires Valid() && phase == Running && plan.NestedLoopJoin?
      modifies `phase, left.Repr
      ensures rc == SUCCESS ==> BetweenRounds() && old(left.pending) == Cons(left.currentTuple, left.pending)
      ensures rc != SUCCESS ==> Valid() && phase == Ended && old(left.pending) == Stream([], rc)
      decreases plan, 0
    {
      rc := left.Next();
      if rc != SUCCESS {
        phase := Ended;
      }
    }

    method CloseRight()
      requires BetweenRounds()
      modifies `rightClosed, right.Repr
      ensures BetweenRounds() && rightClosed
      ensures left.currentTuple == old(left.currentTuple) && left.pending == old(left.pending)
      decreases plan, 0
    {
      if !rightClosed {
        right.Close();
        rightClosed := true;
      }
    }

    /** The right child is opened for a round only while it is closed. */
    method ReopenRight()
      requires BetweenRounds()
      modifies `rightClosed, right.Repr
      ensures BetweenRounds() && !rightClosed && right.phase == Running && right.pending == Yields(right.plan, db)
      ensures left.currentTuple == old(left.currentTuple) && left.pending == old(left.pending)
      decreases plan, 0
    {
      CloseRight();
      right.Open();
      rightClosed := false;
    }

    /** A fresh round for the left row just produced. */
    method BeginRound()
      requires BetweenRounds() && !rightClosed && right.phase == Running && right.pending == Yields(right.plan, db)
      modifies `leftTuple, `roundDone, `pending
      ensures Valid() && !roundDone
      ensures pending == RestOfJoin(left.currentTuple, right.pending, left.pending, right.pending)
    {
      leftTuple, roundDone := Some(left.currentTuple), false;
      pending := RestOfJoin(left.currentTuple, right.pending, left.pending, right.pending);
    }

    method StartRound()
      requires BetweenRounds()
      modifies `leftTuple, `rightClosed, `roundDone, `pending, right.Repr
      ensures Valid() && phase == Running && !roundDone && right.pending == Yields(right.plan, db)
      ensures pending == RestOfJoin(left.currentTuple, right.pending, left.pending, right.pending)
      ensures left.currentTuple == old(left.currentTuple) && left.pending == old(left.pending)
      decreases plan, 1
    {
      ReopenRight();
      BeginRound();
    }

    /** One step of the left child, then the first row of its round. */
    method NextRound() returns (rc: RC)
      requires Valid() && phase == Running && plan.NestedLoopJoin? && roundDone
      modifies Repr
      ensures Valid()
      ensures rc == SUCCESS ==> phase == Running && old(pending) == Cons(currentTuple, pending)
      ensures rc != SUCCESS ==> phase == Ended && old(pending) == Stream([], rc)
      decreases plan, 2
    {
      rc := LeftNext();
      if rc != SUCCESS {
        return;
      }
      StartRound();
      FirstRound(left.currentTuple, left.pending, right.pending);
      rc := ContinueRound();
      if rc == RECORD_EOF {
        phase := Ended;
      }
    }
  }

  // ---- streams seen one row at a time ------------------------------------------------------

  ghost function Prepend(rows: seq<Row>, s: Stream): Stream {
    Stream(rows + s.rows, s.end)
  }

  lemma {:induction false} PrependStep(rows: seq<Row>, row: Row, s: Stream)
    ensures Prepend(rows, Cons(row, s)) == Prepend(rows + [row], s)
    ensures Prepend(rows + [row], Stream([], s.end)) == Stream(rows + [row], s.end)
  {
    assert rows + ([row] + s.rows) == (rows + [row]) + s.rows;
  }

  // ---- rounds of a join --------------------------------------------------------------------

  lemma {:induction false} RoundStep(l: Row, r: Row, right: Stream, left: Stream, all: Stream)
    ensures RestOfJoin(l, Cons(r, right), left, all) == Cons(l + r, RestOfJoin(l, right, left, all))
  {
    assert ([r] + right.rows)[1..] == right.rows;
    assert PairWith(l, [r] + right.rows) == [l + r] + PairWith(l, right.rows);
  }

  lemma {:induction false} RoundEnd(l: Row, rc: RC, left: Stream, all: Stream)
    ensures RestOfJoin(l, Stream([], rc), left, all) ==
            if rc == RECORD_EOF then ProductStream(left, all) else Stream([], rc)
  {
  }

  lemma {:induction false} FirstRound(l: Row, left: Stream, all: Stream)
    ensures ProductStream(Cons(l, left), all) == if all == EMPTY_STREAM then all else RestOfJoin(l, all, left, all)
  {
    assert ([l] + left.rows)[1..] == left.rows;
  }
}
