/** The two expression rules and the recursive expression rewriter. */
module ExpressionRewrite {
  import opened Common
  import opened Expressions

  // ---- sizes -------------------------------------------------------------------------------

  function Nodes(e: Expr): (n: nat)
    ensures n >= 1
    decreases e, 1
  {
    match e
    case Cast(c, _) => 1 + Nodes(c)
    case Comparison(_, l, r) => 1 + Nodes(l) + Nodes(r)
    case Conjunction(_, cs) => 1 + NodesAll(cs)
    case _ => 1
  }

  function NodesAll(es: seq<Expr>): nat
    decreases es, 0
  {
    if es == [] then 0 else Nodes(es[0]) + NodesAll(es[1..])
  }

  lemma {:induction false} NodesAllAppend(a: seq<Expr>, b: seq<Expr>)
    ensures NodesAll(a + b) == NodesAll(a) + NodesAll(b)
  {
    if a == [] {
      assert a + b == b;
    } else {
      assert (a + b)[1..] == a[1..] + b;
      NodesAllAppend(a[1..], b);
    }
  }

  // ---- comparison folding ------------------------------------------------------------------

  /** A comparison of two constants becomes its value, unless comparing them fails. */
  function FoldComparison(e: Expr): (r: (Expr, bool))
    ensures Nodes(r.0) <= Nodes(e)
    ensures r.1 ==> Nodes(r.0) < Nodes(e)
  {
    match e
    case Comparison(op, ValueExpr(l), ValueExpr(r)) =>
      (match CompareValue(op, l, r)
       case Ok(b) => (ValueExpr(Bool(b)), true)
       case Err(_) => (e, false))
    case _ => (e, false)
  }

  // ---- conjunction simplification ----------------------------------------------------------

  /** try_to_get_bool_constant */
  function BoolConstant(e: Expr): Option<bool> {
    match e
    case ValueExpr(Bool(b)) => Some(b)
    case _ => None
  }

  /** TRUE inside AND and FALSE inside OR can be dropped. */
  predicate IsNeutral(t: ConjunctionType, e: Expr) {
    BoolConstant(e) == Some(t.AND?)
  }

  /** FALSE inside AND and TRUE inside OR decide the whole conjunction. */
  predicate IsDeciding(t: ConjunctionType, e: Expr) {
    BoolConstant(e) == Some(t.OR?)
  }

  function DropNeutral(t: ConjunctionType, cs: seq<Expr>): seq<Expr> {
    if cs == [] then []
    else if IsNeutral(t, cs[0]) then DropNeutral(t, cs[1..])
    else [cs[0]] + DropNeutral(t, cs[1..])
  }

  predicate HasDeciding(t: ConjunctionType, cs: seq<Expr>) {
    cs != [] && (IsDeciding(t, cs[0]) || HasDeciding(t, cs[1..]))
  }

  lemma {:induction false} DropNeutralAppend(t: ConjunctionType, a: seq<Expr>, b: seq<Expr>)
    ensures DropNeutral(t, a + b) == DropNeutral(t, a) + DropNeutral(t, b)
    ensures HasDeciding(t, a + b) == (HasDeciding(t, a) || HasDeciding(t, b))
  {
    if a == [] {
      assert a + b == b;
    } else {
      assert (a + b)[1..] == a[1..] + b;
      DropNeutralAppend(t, a[1..], b);
    }
  }

  lemma {:induction false} DropNeutralNodes(t: ConjunctionType, cs: seq<Expr>)
    ensures NodesAll(DropNeutral(t, cs)) <= NodesAll(cs)
  {
    if cs != [] { DropNeutralNodes(t, cs[1..]); }
  }

  lemma {:induction false} NodesOfHead(es: seq<Expr>)
    requires es != []
    ensures Nodes(es[0]) <= NodesAll(es)
  {
  }

  lemma {:induction false} DecidingSurvives(t: ConjunctionType, cs: seq<Expr>)
    requires HasDeciding(t, cs)
    ensures DropNeutral(t, cs) != []
  {
    if !IsDeciding(t, cs[0]) { DecidingSurvives(t, cs[1..]); }
  }

  /**
   * What the conjunction rule leaves. When some child decides the conjunction, the result is the FIRST remaining
   * child, not the constant that was found; that replacement is not reported as a change.
   */
  function SimplifyConjunction(e: Expr): (r: (Expr, bool))
    ensures Nodes(r.0) <= Nodes(e)
    ensures r.1 ==> Nodes(r.0) < Nodes(e)
  {
    match e
    case Conjunction(t, cs) =>
      DropNeutralNodes(t, cs);
      var rest := DropNeutral(t, cs);
      if HasDeciding(t, cs) then
        DecidingSurvives(t, cs); NodesOfHead(rest);
        (rest[0], false)
      else if |rest| == 1 then NodesOfHead(rest); (rest[0], true)
      else (Conjunction(t, rest), false)
    case _ => (e, false)
  }

  /** One step of the scan: what one more scanned child adds to the survivors. */
  lemma {:induction false} ScanOne(t: ConjunctionType, cs: seq<Expr>, done: nat)
    requires done < |cs|
    ensures DropNeutral(t, cs[..done + 1]) ==
            DropNeutral(t, cs[..done]) + (if IsNeutral(t, cs[done]) then [] else [cs[done]])
    ensures HasDeciding(t, cs[..done + 1]) == (HasDeciding(t, cs[..done]) || IsDeciding(t, cs[done]))
  {
    assert cs[..done + 1] == cs[..done] + [cs[done]];
    DropNeutralAppend(t, cs[..done], [cs[done]]);
  }

  /** Once a deciding child is met, the first survivor is already known. */
  lemma {:induction false} FirstSurvivor(t: ConjunctionType, cs: seq<Expr>, done: nat)
    requires done < |cs| && IsDeciding(t, cs[done])
    ensures HasDeciding(t, cs)
    ensures DropNeutral(t, cs) != []
    ensures DropNeutral(t, cs)[0] == (DropNeutral(t, cs[..done]) + [cs[done]])[0]
  {
    ScanOne(t, cs, done);
    assert cs == cs[..done + 1] + cs[done + 1..];
    DropNeutralAppend(t, cs[..done + 1], cs[done + 1..]);
  }

  /** One pass over the children: neutral constants are erased as they are met; a deciding one stops the scan. */
  method EraseNeutral(t: ConjunctionType, cs: seq<Expr>) returns (childExprs: seq<Expr>, decided: bool)
    ensures decided == HasDeciding(t, cs)
    ensures !decided ==> childExprs == DropNeutral(t, cs)
    ensures decided ==> childExprs != [] && DropNeutral(t, cs) != [] && childExprs[0] == DropNeutral(t, cs)[0]
  {
    childExprs := cs;
    var iter := 0;
    ghost var done := 0;
    while iter < |childExprs|
      invariant 0 <= iter <= |childExprs| && 0 <= done <= |cs|
      invariant childExprs[..iter] == DropNeutral(t, cs[..done])
      invariant childExprs[iter..] == cs[done..]
      invariant !HasDeciding(t, cs[..done])
      decreases |childExprs| - iter
    {
      assert childExprs[iter] == childExprs[iter..][0] == cs[done];
      ScanOne(t, cs, done);
      var constantValue := BoolConstant(childExprs[iter]);
      if constantValue.None? {
        iter := iter + 1;
      } else if constantValue.value == t.AND? {
        childExprs := childExprs[..iter] + childExprs[iter + 1..];
      } else {
        FirstSurvivor(t, cs, done);
        return childExprs, true;
      }
      done := done + 1;
    }
    assert childExprs[..iter] == childExprs && cs[..done] == cs;
    decided := false;
  }

  /** The rule as it runs; the front of the vector is what it answers with. */
  method ApplyConjunctionRule(expr: Expr) returns (out: Expr, changeMade: bool)
    ensures (out, changeMade) == SimplifyConjunction(expr)
  {
    if !expr.Conjunction? {
      return expr, false;
    }
    var childExprs, decided := EraseNeutral(expr.ctype, expr.children);
    if decided {
      return childExprs[0], false;
    }
    if |childExprs| == 1 {
      return childExprs[0], true;
    }
    return Conjunction(expr.ctype, childExprs), false;
  }

  // ---- the recursive rewriter --------------------------------------------------------------

  /** The two rules in order, on the expression itself. */
  function ApplyRules(e: Expr): (r: (Expr, bool))
    ensures Nodes(r.0) <= Nodes(e)
    ensures r.1 ==> Nodes(r.0) < Nodes(e)
  {
    var (e1, c1) := FoldComparison(e);
    var (e2, c2) := SimplifyConjunction(e1);
    (e2, c1 || c2)
  }

  /** rewrite_expression: the children are visited only when the rules reported no change at this node. */
  function RewriteExpr(e: Expr): (Expr, bool)
    decreases Nodes(e), 0
  {
    var (e1, changed) := ApplyRules(e);
    if changed then (e1, true)
    else match e1
      case Cast(c, t) =>
        var (c', ch) := RewriteExpr(c);
        (Cast(c', t), ch)
      case Comparison(op, l, r) =>
        var (l', lch) := RewriteExpr(l);
        var (r', rch) := RewriteExpr(r);
        (Comparison(op, l', r'), lch || rch)
      case Conjunction(t, cs) =>
        var (cs', ch) := RewriteExprs(cs);
        (Conjunction(t, cs'), ch)
      case _ => (e1, false)
  }

  function RewriteExprs(es: seq<Expr>): (r: (seq<Expr>, bool))
    ensures |r.0| == |es|
    decreases NodesAll(es), 1
  {
    if es == [] then ([], false)
    else
      NodesOfHead(es);
      var (e', ch) := RewriteExpr(es[0]);
      var (rest, chRest) := RewriteExprs(es[1..]);
      ([e'] + rest, ch || chRest)
  }

  /** A reported change makes the expression smaller, and an unreported one never makes it larger. */
  lemma {:induction false} RewriteExprShrinks(e: Expr)
    ensures Nodes(RewriteExpr(e).0) <= Nodes(e)
    ensures RewriteExpr(e).1 ==> Nodes(RewriteExpr(e).0) < Nodes(e)
    decreases Nodes(e), 0
  {
    var (e1, changed) := ApplyRules(e);
    if !changed {
      match e1
      case Cast(c, t) => RewriteExprShrinks(c);
      case Comparison(op, l, r) => RewriteExprShrinks(l); RewriteExprShrinks(r);
      case Conjunction(t, cs) => RewriteExprsShrink(cs);
      case _ =>
    }
  }

  lemma {:induction false} RewriteExprsShrink(es: seq<Expr>)
    ensures NodesAll(RewriteExprs(es).0) <= NodesAll(es)
    ensures RewriteExprs(es).1 ==> NodesAll(RewriteExprs(es).0) < NodesAll(es)
    decreases NodesAll(es), 1
  {
    if es != [] {
      RewriteExprShrinks(es[0]);
      RewriteExprsShrink(es[1..]);
    }
  }

  lemma {:induction false} RewriteExprsSnoc(a: seq<Expr>, e: Expr)
    ensures RewriteExprs(a + [e]).0 == RewriteExprs(a).0 + [RewriteExpr(e).0]
    ensures RewriteExprs(a + [e]).1 == (RewriteExprs(a).1 || RewriteExpr(e).1)
  {
    var all := a + [e];
    if a == [] {
      assert all[0] == e && all[1..] == [];
      assert RewriteExprs(all[1..]) == ([], false);
    } else {
      assert all[0] == a[0] && all[1..] == a[1..] + [e];
      RewriteExprsSnoc(a[1..], e);
      assert RewriteExprs(a).0 + [RewriteExpr(e).0] ==
             [RewriteExpr(a[0]).0] + (RewriteExprs(a[1..]).0 + [RewriteExpr(e).0]);
    }
  }

  lemma {:induction false} NodesOfMember(es: seq<Expr>, i: nat)
    requires i < |es|
    ensures Nodes(es[i]) <= NodesAll(es)
  {
    assert es == es[..i] + [es[i]] + es[i + 1..];
    NodesAllAppend(es[..i] + [es[i]], es[i + 1..]);
    NodesAllAppend(es[..i], [es[i]]);
  }

  /** The rewriter as it runs, looping over the children of a conjunction. */
  method RewriteExpression(expr: Expr) returns (out: Expr, changeMade: bool)
    ensures (out, changeMade) == RewriteExpr(expr)
    decreases Nodes(expr), 0
  {
    var (folded, foldChange) := FoldComparison(expr);
    var simplified, conjChange := ApplyConjunctionRule(folded);
    changeMade := foldChange || conjChange;
    if changeMade {
      return simplified, true;
    }
    match simplified {
      case Cast(child, t) =>
        child, changeMade := RewriteExpression(child);
        return Cast(child, t), changeMade;
      case Comparison(op, left, right) =>
        var leftChange, rightChange;
        left, leftChange := RewriteExpression(left);
        right, rightChange := RewriteExpression(right);
        return Comparison(op, left, right), leftChange || rightChange;
      case Conjunction(t, children) =>
        children, changeMade := RewriteExpressionList(children);
        return Conjunction(t, children), changeMade;
      case _ =>
        return simplified, false;
    }
  }

  method RewriteExpressionList(original: seq<Expr>) returns (expressions: seq<Expr>, changeMade: bool)
    ensures (expressions, changeMade) == RewriteExprs(original)
    decreases NodesAll(original), 1
  {
    expressions, changeMade := original, false;
    for i := 0 to |expressions|
      invariant |expressions| == |original| && expressions[i..] == original[i..]
      invariant (expressions[..i], changeMade) == RewriteExprs(original[..i])
    {
      NodesOfMember(original, i);
      var e, subChange := RewriteExpression(original[i]);
      RewriteExprsSnoc(original[..i], original[i]);
      assert original[..i + 1] == original[..i] + [original[i]];
      assert expressions[i..][1..] == expressions[i + 1..] && original[i..][1..] == original[i + 1..];
      ghost var before := expressions;
      expressions := expressions[i := e];
      changeMade := changeMade || subChange;
      assert expressions[i + 1..] == before[i + 1..];
      assert expressions[..i + 1] == expressions[..i] + [e];
    }
    assert original[..|original|] == original && expressions[..|original|] == expressions;
  }
}
