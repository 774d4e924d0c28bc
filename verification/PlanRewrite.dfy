/** The rewrite rules on operator trees, one pass of them, and the loop that runs passes to a fixpoint. */
module PlanRewrite {
  import opened Common
  import opened Expressions
  import opened LogicalPlan
  import opened ExpressionRewrite

  // ---- size of a plan ----------------------------------------------------------------------

  /** Operators plus nodes of operator expressions; predicates held by a TABLE_GET are not counted. */
  function Weight(p: Plan): (n: nat)
    ensures n >= 1
    decreases p, 1
  {
    1 + NodesAll(p.expressions) + WeightAll(p.children)
  }

  function WeightAll(ps: seq<Plan>): nat
    decreases ps, 0
  {
    if ps == [] then 0 else Weight(ps[0]) + WeightAll(ps[1..])
  }

  lemma {:induction false} WeightOfMember(ps: seq<Plan>, i: nat)
    requires i < |ps|
    ensures Weight(ps[i]) <= WeightAll(ps)
    decreases i
  {
    if i > 0 { WeightOfMember(ps[1..], i - 1); }
  }

  lemma {:induction false} WeightOne(p: Plan)
    requires |p.children| == 1
    ensures Weight(p) == 1 + NodesAll(p.expressions) + Weight(p.children[0])
  {
    assert p.children[1..] == [];
    assert WeightAll(p.children) == Weight(p.children[0]) + WeightAll([]);
  }

  lemma {:induction false} NodesOne(e: Expr)
    ensures NodesAll([e]) == Nodes(e)
  {
    assert [e][1..] == [];
  }

  // ---- ExpressionRewriter ------------------------------------------------------------------

  /** Rewrites the expressions of every operator of the tree. */
  ghost function RewritePlanExprs(p: Plan): (r: (Plan, bool))
    ensures r.0.kind == p.kind && |r.0.expressions| == |p.expressions| && |r.0.children| == |p.children|
    decreases p, 1
  {
    var (es, c) := RewriteExprs(p.expressions);
    var (kids, ck) := RewriteAllPlanExprs(p.children);
    (Plan(p.kind, es, kids), c || ck)
  }

  ghost function RewriteAllPlanExprs(ps: seq<Plan>): (r: (seq<Plan>, bool))
    ensures |r.0| == |ps|
    decreases ps, 0
  {
    if ps == [] then ([], false)
    else
      var (p, c) := RewritePlanExprs(ps[0]);
      var (rest, cRest) := RewriteAllPlanExprs(ps[1..]);
      ([p] + rest, c || cRest)
  }

  lemma {:induction false} RewritePlanExprsShrinks(p: Plan)
    ensures Weight(RewritePlanExprs(p).0) <= Weight(p)
    ensures RewritePlanExprs(p).1 ==> Weight(RewritePlanExprs(p).0) < Weight(p)
    decreases p, 1
  {
    RewriteExprsShrink(p.expressions);
    RewriteAllPlanExprsShrink(p.children);
  }

  lemma {:induction false} RewriteAllPlanExprsShrink(ps: seq<Plan>)
    ensures WeightAll(RewriteAllPlanExprs(ps).0) <= WeightAll(ps)
    ensures RewriteAllPlanExprs(ps).1 ==> WeightAll(RewriteAllPlanExprs(ps).0) < WeightAll(ps)
    decreases ps, 0
  {
    if ps != [] {
      RewritePlanExprsShrinks(ps[0]);
      RewriteAllPlanExprsShrink(ps[1..]);
    }
  }

  lemma {:induction false} RewriteAllPlanExprsSnoc(a: seq<Plan>, p: Plan)
    ensures RewriteAllPlanExprs(a + [p]).0 == RewriteAllPlanExprs(a).0 + [RewritePlanExprs(p).0]
    ensures RewriteAllPlanExprs(a + [p]).1 == (RewriteAllPlanExprs(a).1 || RewritePlanExprs(p).1)
  {
    var all := a + [p];
    if a == [] {
      assert all[0] == p && all[1..] == [];
      assert RewriteAllPlanExprs(all[1..]) == ([], false);
    } else {
      assert all[0] == a[0] && all[1..] == a[1..] + [p];
      RewriteAllPlanExprsSnoc(a[1..], p);
      assert RewriteAllPlanExprs(a).0 + [RewritePlanExprs(p).0] ==
             [RewritePlanExprs(a[0]).0] + (RewriteAllPlanExprs(a[1..]).0 + [RewritePlanExprs(p).0]);
    }
  }

  method RewriteOperatorExpressions(oper: Plan) returns (out: Plan, changeMade: bool)
    ensures (out, changeMade) == RewritePlanExprs(oper)
    decreases oper, 1
  {
    var expressions, exprChange := RewriteExpressionList(oper.expressions);
    var children, childChange := RewriteChildExpressions(oper.children);
    return Plan(oper.kind, expressions, children), exprChange || childChange;
  }

  method RewriteChildExpressions(original: seq<Plan>) returns (children: seq<Plan>, changeMade: bool)
    ensures (children, changeMade) == RewriteAllPlanExprs(original)
    decreases original, 0
  {
    children, changeMade := original, false;
    for i := 0 to |children|
      invariant |children| == |original| && children[i..] == original[i..]
      invariant (children[..i], changeMade) == RewriteAllPlanExprs(original[..i])
    {
      var child, subChange := RewriteOperatorExpressions(original[i]);
      RewriteAllPlanExprsSnoc(original[..i], original[i]);
      assert original[..i + 1] == original[..i] + [original[i]];
      assert children[i..][1..] == children[i + 1..] && original[i..][1..] == original[i + 1..];
      ghost var before := children;
      children := children[i := child];
      changeMade := changeMade || subChange;
      assert children[i + 1..] == before[i + 1..];
      assert children[..i + 1] == children[..i] + [child];
    }
    assert original[..|original|] == original && children[..|original|] == children;
  }

  // ---- PredicateRewriteRule ----------------------------------------------------------------

  /** An only child that is a constant predicate is replaced by its own children, or dropped with them. */
  function AbsorbPredicate(p: Plan): (Plan, bool) {
    if |p.children| != 1 then (p, false)
    else
      var child := p.children[0];
      if !child.kind.Predicate? || |child.expressions| != 1 || !child.expressions[0].ValueExpr? then (p, false)
      else if child.expressions[0].value.Truth() then (p.(children := child.children), true)
      else (p.(children := []), true)
  }

  lemma {:induction false} AbsorbShrinks(p: Plan)
    ensures Weight(AbsorbPredicate(p).0) <= Weight(p)
    ensures AbsorbPredicate(p).1 ==> Weight(AbsorbPredicate(p).0) < Weight(p)
  {
    if |p.children| == 1 { WeightOne(p); }
  }

  // ---- PredicatePushdownRewriter -----------------------------------------------------------

  predicate CanPush(left: Expr, right: Expr) {
    && (left.Field? || right.Field?)
    && (left.Field? || left.ValueExpr? || right.Field? || right.ValueExpr?)
  }

  /** get_exprs_can_pushdown meets an OR and gives up. */
  predicate Unsupported(e: Expr)
    decreases e, 1
  {
    e.Conjunction? && (e.ctype.OR? || UnsupportedAny(e.children))
  }

  predicate UnsupportedAny(cs: seq<Expr>)
    decreases cs, 0
  {
    cs != [] && (Unsupported(cs[0]) || UnsupportedAny(cs[1..]))
  }

  /** What get_exprs_can_pushdown takes out of an expression, in order. */
  function Pushed(e: Expr): seq<Expr>
    decreases e, 1
  {
    match e
    case Conjunction(AND, cs) => PushedAll(cs)
    case Comparison(_, l, r) => if CanPush(l, r) then [e] else []
    case _ => []
  }

  function PushedAll(cs: seq<Expr>): seq<Expr>
    decreases cs, 0
  {
    if cs == [] then [] else Pushed(cs[0]) + PushedAll(cs[1..])
  }

  /** What it leaves in place: nothing, or one expression. */
  function Left(e: Expr): seq<Expr>
    decreases e, 1
  {
    match e
    case Conjunction(AND, cs) => [Conjunction(AND, LeftAll(cs))]
    case Comparison(_, l, r) => if CanPush(l, r) then [] else [e]
    case _ => [e]
  }

  function LeftAll(cs: seq<Expr>): seq<Expr>
    decreases cs, 0
  {
    if cs == [] then [] else Left(cs[0]) + LeftAll(cs[1..])
  }

  lemma {:induction false} LeftShrinks(e: Expr)
    ensures NodesAll(Left(e)) <= Nodes(e)
    ensures Pushed(e) != [] ==> NodesAll(Left(e)) < Nodes(e) && Nodes(e) > 1
    decreases e, 1
  {
    NodesOne(e);
    if e.Conjunction? && e.ctype.AND? {
      LeftAllShrinks(e.children);
      NodesOne(Conjunction(AND, LeftAll(e.children)));
    }
  }

  lemma {:induction false} LeftAllShrinks(cs: seq<Expr>)
    ensures NodesAll(LeftAll(cs)) <= NodesAll(cs)
    ensures PushedAll(cs) != [] ==> NodesAll(LeftAll(cs)) < NodesAll(cs)
    decreases cs, 0
  {
    if cs != [] {
      LeftShrinks(cs[0]);
      LeftAllShrinks(cs[1..]);
      NodesAllAppend(Left(cs[0]), LeftAll(cs[1..]));
    }
  }

  lemma {:induction false} PushedSnoc(cs: seq<Expr>, e: Expr)
    ensures PushedAll(cs + [e]) == PushedAll(cs) + Pushed(e)
    ensures UnsupportedAny(cs + [e]) == (UnsupportedAny(cs) || Unsupported(e))
  {
    var all := cs + [e];
    if cs == [] {
      assert all[0] == e && all[1..] == [];
    } else {
      assert all[0] == cs[0] && all[1..] == cs[1..] + [e];
      PushedSnoc(cs[1..], e);
    }
  }

  lemma {:induction false} LeftSnoc(cs: seq<Expr>, e: Expr)
    ensures LeftAll(cs + [e]) == LeftAll(cs) + Left(e)
  {
    var all := cs + [e];
    if cs == [] {
      assert all[0] == e && all[1..] == [];
    } else {
      assert all[0] == cs[0] && all[1..] == cs[1..] + [e];
      LeftSnoc(cs[1..], e);
    }
  }

  lemma {:induction false} UnsupportedMember(cs: seq<Expr>, i: nat)
    requires i < |cs| && Unsupported(cs[i])
    ensures UnsupportedAny(cs)
    decreases i
  {
    if i > 0 { UnsupportedMember(cs[1..], i - 1); }
  }

  /** get_exprs_can_pushdown: moves what it can to the end of `pushdownExprs`. */
  method GetExprsCanPushdown(expr: Expr, pushdownExprs: seq<Expr>) returns (rc: RC, rest: seq<Expr>, pushed: seq<Expr>)
    ensures rc == if Unsupported(expr) then UNIMPLEMENTED else SUCCESS
    ensures rc == SUCCESS ==> rest == Left(expr) && pushed == pushdownExprs + Pushed(expr)
    decreases expr, 1
  {
    rc, rest, pushed := SUCCESS, [expr], pushdownExprs;
    match expr {
      case Conjunction(t, cs) =>
        if t.OR? {
          return UNIMPLEMENTED, rest, pushed;
        }
        var childExprs;
        rc, childExprs, pushed := PushChildren(cs, pushed);
        rest := [Conjunction(AND, childExprs)];
      case Comparison(_, left, right) =>
        if CanPush(left, right) {
          return SUCCESS, [], pushed + [expr];
        }
      case _ =>
    }
  }

  lemma {:induction false} NextChild(childExprs: seq<Expr>, iter: nat, cs: seq<Expr>, done: nat)
    requires iter < |childExprs| && done <= |cs| && childExprs[iter..] == cs[done..]
    ensures done < |cs| && childExprs[iter] == cs[done] && childExprs[iter + 1..] == cs[done + 1..]
  {
    assert childExprs[iter] == childExprs[iter..][0];
    assert childExprs[iter + 1..] == childExprs[iter..][1..] == cs[done..][1..] == cs[done + 1..];
  }

  /** The loop over an AND: a child that moved out entirely is erased. */
  method PushChildren(cs: seq<Expr>, pushdownExprs: seq<Expr>) returns (rc: RC, childExprs: seq<Expr>, pushed: seq<Expr>)
    ensures rc == if UnsupportedAny(cs) then UNIMPLEMENTED else SUCCESS
    ensures rc == SUCCESS ==> childExprs == LeftAll(cs) && pushed == pushdownExprs + PushedAll(cs)
    decreases cs, 0
  {
    rc, childExprs, pushed := SUCCESS, cs, pushdownExprs;
    var iter := 0;
    ghost var done := 0;
    while iter < |childExprs|
      invariant 0 <= iter <= |childExprs| && 0 <= done <= |cs|
      invariant rc == SUCCESS && !UnsupportedAny(cs[..done])
      invariant childExprs[iter..] == cs[done..]
      invariant childExprs[..iter] == LeftAll(cs[..done])
      invariant pushed == pushdownExprs + PushedAll(cs[..done])
      decreases |childExprs| - iter
    {
      NextChild(childExprs, iter, cs, done);
      var childRest;
      rc, childRest, pushed := GetExprsCanPushdown(childExprs[iter], pushed);
      if rc != SUCCESS {
        UnsupportedMember(cs, done);
        return;
      }
      PushedSnoc(cs[..done], cs[done]);
      LeftSnoc(cs[..done], cs[done]);
      assert cs[..done + 1] == cs[..done] + [cs[done]];
      childExprs := childExprs[..iter] + childRest + childExprs[iter + 1..];
      iter := iter + |childRest|;
      done := done + 1;
    }
    assert childExprs[..iter] == childExprs && cs[..done] == cs;
  }

  /** When everything moved down, a constant TRUE is left in the predicate operator. */
  function FillEmpty(rest: seq<Expr>): Expr {
    if rest == [] || (rest[0].Conjunction? && rest[0].children == []) then ValueExpr(Bool(true)) else rest[0]
  }

  predicate PushdownApplies(p: Plan) {
    p.kind.Predicate? && |p.children| == 1 && p.children[0].kind.TableGet? && |p.expressions| == 1
  }

  predicate PushdownFails(p: Plan) {
    PushdownApplies(p) && Unsupported(p.expressions[0])
  }

  predicate PushdownReports(p: Plan) {
    PushdownApplies(p) && Pushed(p.expressions[0]) != []
  }

  /** set_predicates REPLACES whatever predicates the TABLE_GET held: it discards a non-empty list here. */
  predicate Overwrites(p: Plan) {
    PushdownReports(p) && !PushdownFails(p) && p.children[0].kind.predicates != []
  }

  function SetPredicates(tableGet: Plan, predicates: seq<Expr>): Plan
    requires tableGet.kind.TableGet?
  {
    Plan(TableGet(tableGet.kind.table, predicates), tableGet.expressions, tableGet.children)
  }

  /** Moves field comparisons of a predicate operator into the TABLE_GET below it. */
  function PushPredicates(p: Plan): Plan {
    if !PushdownApplies(p) then p
    else
      var e, child := p.expressions[0], p.children[0];
      Plan(p.kind, [FillEmpty(Left(e))], [if PushdownReports(p) then SetPredicates(child, Pushed(e)) else child])
  }

  /** Otherwise the scan keeps what it held and gets what was pushed. */
  lemma {:induction false} OnlyOverwritesDiscard(p: Plan)
    requires PushdownApplies(p) && !PushdownFails(p) && !Overwrites(p)
    ensures PushPredicates(p).children[0].kind == TableGet(
              p.children[0].kind.table, p.children[0].kind.predicates + Pushed(p.expressions[0]))
  {
    assert p.children[0].kind.predicates + [] == p.children[0].kind.predicates;
    assert [] + Pushed(p.expressions[0]) == Pushed(p.expressions[0]);
  }

  lemma {:induction false} PushShrinks(p: Plan)
    ensures Weight(PushPredicates(p)) <= Weight(p)
    ensures PushdownReports(p) ==> Weight(PushPredicates(p)) < Weight(p)
  {
    if PushdownApplies(p) {
      var e, out := p.expressions[0], PushPredicates(p);
      WeightOne(p);
      WeightOne(out);
      assert p.expressions == [e];
      NodesOne(e);
      NodesOne(FillEmpty(Left(e)));
      LeftShrinks(e);
    }
  }

  method PushdownPredicates(oper: Plan) returns (rc: RC, out: Plan, changeMade: bool)
    ensures rc == if PushdownFails(oper) then UNIMPLEMENTED else SUCCESS
    ensures rc == SUCCESS ==> out == PushPredicates(oper) && changeMade == PushdownReports(oper)
  {
    rc, out, changeMade := SUCCESS, oper, false;
    if !PushdownApplies(oper) {
      return;
    }
    var rest, pushdownExprs;
    rc, rest, pushdownExprs := GetExprsCanPushdown(oper.expressions[0], []);
    if rc != SUCCESS {
      return;
    }
    assert pushdownExprs == Pushed(oper.expressions[0]);
    var tableGet := oper.children[0];
    if pushdownExprs != [] {
      changeMade := true;
      tableGet := SetPredicates(tableGet, pushdownExprs);
    }
    out := Plan(oper.kind, [FillEmpty(rest)], [tableGet]);
  }

  // ---- one pass ----------------------------------------------------------------------------

  /** The three rules on one operator, in the order the rewriter holds them. */
  ghost function Local(p: Plan): Plan {
    PushPredicates(AbsorbPredicate(RewritePlanExprs(p).0).0)
  }

  ghost predicate LocalReports(p: Plan) {
    var (p1, c1) := RewritePlanExprs(p);
    var (p2, c2) := AbsorbPredicate(p1);
    c1 || c2 || PushdownReports(p2)
  }

  ghost predicate LocalFails(p: Plan) {
    PushdownFails(AbsorbPredicate(RewritePlanExprs(p).0).0)
  }

  ghost predicate LocalOverwrites(p: Plan) {
    Overwrites(AbsorbPredicate(RewritePlanExprs(p).0).0)
  }

  lemma {:induction false} LocalShrinks(p: Plan)
    ensures Weight(Local(p)) <= Weight(p)
    ensures LocalReports(p) ==> Weight(Local(p)) < Weight(p)
    ensures WeightAll(Local(p).children) < Weight(p)
  {
    var p1 := RewritePlanExprs(p).0;
    var p2 := AbsorbPredicate(p1).0;
    RewritePlanExprsShrinks(p);
    AbsorbShrinks(p1);
    PushShrinks(p2);
  }

  /** Rewriter::rewrite: the rules on this operator, then the same on each remaining child. */
  ghost function Next(p: Plan): Plan
    decreases Weight(p), 0
  {
    LocalShrinks(p);
    Plan(Local(p).kind, Local(p).expressions, NextAll(Local(p).children))
  }

  ghost function NextAll(ps: seq<Plan>): (r: seq<Plan>)
    ensures |r| == |ps|
    decreases WeightAll(ps), 1
  {
    if ps == [] then [] else [Next(ps[0])] + NextAll(ps[1..])
  }

  /** The pass reports a change somewhere. */
  ghost predicate Reports(p: Plan)
    decreases Weight(p), 0
  {
    LocalShrinks(p);
    LocalReports(p) || ReportsAny(Local(p).children)
  }

  ghost predicate ReportsAny(ps: seq<Plan>)
    decreases WeightAll(ps), 1
  {
    ps != [] && (Reports(ps[0]) || ReportsAny(ps[1..]))
  }

  /** The pass stops with an error somewhere. */
  ghost predicate Fails(p: Plan)
    decreases Weight(p), 0
  {
    LocalShrinks(p);
    LocalFails(p) || FailsAny(Local(p).children)
  }

  ghost predicate FailsAny(ps: seq<Plan>)
    decreases WeightAll(ps), 1
  {
    ps != [] && (Fails(ps[0]) || FailsAny(ps[1..]))
  }

  /** The pass discards table predicates somewhere. */
  ghost predicate PassOverwrites(p: Plan)
    decreases Weight(p), 0
  {
    LocalShrinks(p);
    LocalOverwrites(p) || PassOverwritesAny(Local(p).children)
  }

  ghost predicate PassOverwritesAny(ps: seq<Plan>)
    decreases WeightAll(ps), 1
  {
    ps != [] && (PassOverwrites(ps[0]) || PassOverwritesAny(ps[1..]))
  }

  /** A pass that reports a change leaves a lighter plan; a silent pass never a heavier one. */
  lemma {:induction false} NextShrinks(p: Plan)
    ensures Weight(Next(p)) <= Weight(p)
    ensures Reports(p) ==> Weight(Next(p)) < Weight(p)
    decreases Weight(p), 0
  {
    LocalShrinks(p);
    NextAllShrinks(Local(p).children);
  }

  lemma {:induction false} NextAllShrinks(ps: seq<Plan>)
    ensures WeightAll(NextAll(ps)) <= WeightAll(ps)
    ensures ReportsAny(ps) ==> WeightAll(NextAll(ps)) < WeightAll(ps)
    decreases WeightAll(ps), 1
  {
    if ps != [] {
      NextShrinks(ps[0]);
      NextAllShrinks(ps[1..]);
    }
  }

  lemma {:induction false} NextAllSnoc(ps: seq<Plan>, p: Plan)
    ensures NextAll(ps + [p]) == NextAll(ps) + [Next(p)]
    ensures ReportsAny(ps + [p]) == (ReportsAny(ps) || Reports(p))
    ensures FailsAny(ps + [p]) == (FailsAny(ps) || Fails(p))
  {
    var all := ps + [p];
    if ps == [] {
      assert all[0] == p && all[1..] == [];
    } else {
      assert all[0] == ps[0] && all[1..] == ps[1..] + [p];
      NextAllSnoc(ps[1..], p);
    }
  }

  lemma {:induction false} FailsMember(ps: seq<Plan>, i: nat)
    requires i < |ps| && Fails(ps[i])
    ensures FailsAny(ps)
    decreases i
  {
    if i > 0 { FailsMember(ps[1..], i - 1); }
  }

  method RewritePass(oper: Plan) returns (rc: RC, out: Plan, changeMade: bool)
    ensures rc == if Fails(oper) then UNIMPLEMENTED else SUCCESS
    ensures rc == SUCCESS ==> out == Next(oper) && changeMade == Reports(oper)
    decreases Weight(oper), 0
  {
    var subChange, childChange, children;
    out, changeMade := RewriteOperatorExpressions(oper);
    var absorbed := AbsorbPredicate(out);
    out, changeMade := absorbed.0, changeMade || absorbed.1;
    rc, out, subChange := PushdownPredicates(out);
    if rc != SUCCESS {
      return;
    }
    LocalShrinks(oper);
    rc, children, childChange := RewriteChildren(out.children);
    out := Plan(out.kind, out.expressions, children);
    changeMade := changeMade || subChange || childChange;
  }

  method RewriteChildren(original: seq<Plan>) returns (rc: RC, children: seq<Plan>, changeMade: bool)
    ensures rc == if FailsAny(original) then UNIMPLEMENTED else SUCCESS
    ensures rc == SUCCESS ==> children == NextAll(original) && changeMade == ReportsAny(original)
    decreases WeightAll(original), 1
  {
    rc, children, changeMade := SUCCESS, original, false;
    for i := 0 to |children|
      invariant |children| == |original| && children[i..] == original[i..]
      invariant rc == SUCCESS && !FailsAny(original[..i])
      invariant children[..i] == NextAll(original[..i])
      invariant changeMade == ReportsAny(original[..i])
    {
      WeightOfMember(original, i);
      var child, change;
      rc, child, change := RewritePass(original[i]);
      if rc != SUCCESS {
        FailsMember(original, i);
        return;
      }
      NextAllSnoc(original[..i], original[i]);
      assert original[..i + 1] == original[..i] + [original[i]];
      children := children[i := child];
      changeMade := changeMade || change;
      assert children[..i + 1] == children[..i] + [child];
    }
    assert original[..|original|] == original && children[..|original|] == children;
  }

  // ---- the loop ----------------------------------------------------------------------------

  /** Where the loop ends: the plan after the first pass that reports no change. */
  ghost function Optimized(p: Plan): Result<Plan>
    decreases Weight(p)
  {
    NextShrinks(p);
    if Fails(p) then Err(UNIMPLEMENTED)
    else if Reports(p) then Optimized(Next(p))
    else Ok(Next(p))
  }

  /** Some pass of the whole run discards table predicates. */
  ghost predicate RunOverwrites(p: Plan)
    decreases Weight(p)
  {
    NextShrinks(p);
    PassOverwrites(p) || (!Fails(p) && Reports(p) && RunOverwrites(Next(p)))
  }

  /** OptimizeStage::rewrite. It ends on every plan: each pass that reports a change leaves a lighter plan. */
  method Optimize(logicalOperator: Plan) returns (rc: RC, out: Plan)
    ensures match Optimized(logicalOperator)
            case Err(e) => rc == e && rc != SUCCESS
            case Ok(p) => rc == SUCCESS && out == p
  {
    out := logicalOperator;
    var changeMade := true;
    while changeMade
      invariant changeMade ==> Optimized(out) == Optimized(logicalOperator)
      invariant !changeMade ==> Optimized(logicalOperator) == Ok(out)
      decreases changeMade, Weight(out)
    {
      NextShrinks(out);
      var next;
      rc, next, changeMade := RewritePass(out);
      if rc != SUCCESS {
        return;
      }
      out := next;
    }
    rc := SUCCESS;
  }
}
