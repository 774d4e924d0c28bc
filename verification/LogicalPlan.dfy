/** Logical operator trees and the stream of rows each one stands for. */
module LogicalPlan {
  import opened Common
  import opened Expressions
  import opened Streams
  import opened Grouping

  /** The part of a logical operator that is not its expressions or its children. */
  datatype Kind =
    | TableGet(table: string, predicates: seq<Expr>)
    | Predicate
    | Projection
    | Join
    | GroupBy(keys: seq<Expr>, sums: seq<Expr>)
    | Delete(target: string)

  datatype Plan = Plan(kind: Kind, expressions: seq<Expr>, children: seq<Plan>)

  /** A table is the sequence of rows its scanner yields. */
  type Tables = map<string, seq<Row>>

  function TableRows(db: Tables, table: string): seq<Row> {
    if table in db then db[table] else []
  }

  /** The rows a plan stands for. An operator left without children reads an empty input. */
  function Rows(p: Plan, db: Tables): Stream
    decreases p
  {
    match p.kind
    case TableGet(t, preds) => FilterStream(Stream(TableRows(db, t), RECORD_EOF), preds)
    case Predicate => FilterStream(FirstChild(p, db), p.expressions)
    case Projection => ProjectStream(FirstChild(p, db), p.expressions)
    case Join =>
      if |p.children| != 2 then Stream([], INTERNAL)
      else ProductStream(Rows(p.children[0], db), Rows(p.children[1], db))
    case GroupBy(keys, sums) => GroupStream(FirstChild(p, db), keys, sums)
    case Delete(_) => EMPTY_STREAM
  }

  function FirstChild(p: Plan, db: Tables): Stream
    decreases p, 0
  {
    if p.children == [] then EMPTY_STREAM else Rows(p.children[0], db)
  }

  /** The rows a delete removes: whatever its input yields, also when the input ends with an error. */
  function Deletes(p: Plan, db: Tables): seq<Row>
    requires p.kind.Delete?
  {
    FirstChild(p, db).rows
  }
}
