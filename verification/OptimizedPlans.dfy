/** What the rewrite loop makes of a generated plan, exactly, and when that still means the same rows. */
module OptimizedPlans {
  import opened Common
  import opened Expressions
  import opened LogicalPlan
  import opened Streams
  import opened ExpressionRewrite
  import opened PlanRewrite
  import opened GeneratedPlans

  // ---- conditions --------------------------------------------------------------------------

  /** A comparison as the generator builds it: columns and constants of one type. */
  predicate IsCondition(e: Expr) {
    && e.Comparison? && !e.comp.NoOp?
    && (e.left.Field? || e.left.ValueExpr?) && (e.right.Field? || e.right.ValueExpr?)
    && e.left.ValueType() == e.right.ValueType()
  }

  predicate AllConditions(cs: seq<Expr>) {
    forall i :: 0 <= i < |cs| ==> IsCondition(cs[i])
  }

  /** A condition that mentions a column. */
  predicate IsColumnCondition(e: Expr) {
    IsCondition(e) && (e.left.Field? || e.right.Field?)
  }

  predicate AllColumnConditions(cs: seq<Expr>) {
    forall i :: 0 <= i < |cs| ==> IsColumnCondition(cs[i])
  }

  /** What one sweep makes of a condition: its truth value when both sides are constants. */
  function Fold(c: Expr): Expr {
    FoldComparison(c).0
  }

  predicate IsFolded(e: Expr) {
    IsColumnCondition(e) || (e.ValueExpr? && e.value.Bool?)
  }

  predicate AllFolded(es: seq<Expr>) {
    forall i :: 0 <= i < |es| ==> IsFolded(es[i])
  }

  function FoldAll(cs: seq<Expr>): (fs: seq<Expr>)
    ensures |fs| == |cs|
    ensures forall i :: 0 <= i < |fs| ==> fs[i] == Fold(cs[i])
  {
    if cs == [] then [] else [Fold(cs[0])] + FoldAll(cs[1..])
  }

  lemma {:induction false} FoldCondition(c: Expr)
    requires IsCondition(c)
    ensures IsFolded(Fold(c))
    ensures RewriteExpr(c) == (Fold(c), !IsColumnCondition(c))
    ensures IsColumnCondition(c) ==> Fold(c) == c
    ensures !IsColumnCondition(c) ==> Fold(c).ValueExpr?
  {
    if !IsColumnCondition(c) {
      SameTypeComparable(c.left.value, c.right.value);
    }
  }

  lemma {:induction false} FoldConditions(cs: seq<Expr>)
    requires AllConditions(cs)
    ensures AllFolded(FoldAll(cs))
  {
    forall i | 0 <= i < |cs| ensures IsFolded(FoldAll(cs)[i]) { FoldCondition(cs[i]); }
  }

  /** A list without constants passes through the conjunction rule and the sweep untouched. */
  lemma {:induction false} ColumnConditionsStable(cs: seq<Expr>)
    requires AllColumnConditions(cs)
    ensures DropNeutral(AND, cs) == cs && !HasDeciding(AND, cs)
    ensures RewriteExprs(cs) == (cs, false)
  {
    if cs != [] {
      FoldCondition(cs[0]);
      ColumnConditionsStable(cs[1..]);
      assert [cs[0]] + cs[1..] == cs;
    }
  }

  lemma {:induction false} SweepConditions(cs: seq<Expr>)
    requires AllConditions(cs)
    ensures RewriteExprs(cs) == (FoldAll(cs), !AllColumnConditions(cs))
    ensures DropNeutral(AND, cs) == cs && !HasDeciding(AND, cs)
  {
    if cs != [] {
      FoldCondition(cs[0]);
      SweepConditions(cs[1..]);
      assert AllColumnConditions(cs) == (IsColumnCondition(cs[0]) && AllColumnConditions(cs[1..]));
    }
  }

  // ---- the settled predicate ---------------------------------------------------------------

  /** The predicate after two sweeps: the form no further sweep changes. */
  function Settle(cs: seq<Expr>): Expr {
    if |cs| == 1 then Fold(cs[0]) else SimplifyConjunction(Conjunction(AND, FoldAll(cs))).0
  }

  predicate IsSettled(e: Expr) {
    || IsFolded(e)
    || (e.Conjunction? && e.ctype.AND? && |e.children| != 1 && AllColumnConditions(e.children))
  }

  lemma {:induction false} DropNeutralFolded(fs: seq<Expr>)
    requires AllFolded(fs)
    ensures AllFolded(DropNeutral(AND, fs))
    ensures !HasDeciding(AND, fs) ==> AllColumnConditions(DropNeutral(AND, fs))
  {
    if fs != [] {
      DropNeutralFolded(fs[1..]);
    }
  }

  lemma {:induction false} SettledIsStable(e: Expr)
    requires IsSettled(e)
    ensures RewriteExpr(e) == (e, false)
    ensures !Unsupported(e)
  {
    if e.Conjunction? {
      ColumnConditionsStable(e.children);
      ColumnConditionsPushed(e.children);
    } else if e.Comparison? {
      FoldCondition(e);
    }
  }

  lemma {:induction false} ColumnConditionsPushed(cs: seq<Expr>)
    requires AllColumnConditions(cs)
    ensures PushedAll(cs) == cs && LeftAll(cs) == [] && !UnsupportedAny(cs)
  {
    if cs != [] {
      ColumnConditionsPushed(cs[1..]);
      assert [cs[0]] + cs[1..] == cs;
    }
  }

  lemma {:induction false} SettleIsSettled(cs: seq<Expr>)
    requires AllConditions(cs)
    ensures IsSettled(Settle(cs))
  {
    if |cs| == 1 {
      FoldCondition(cs[0]);
    } else {
      FoldConditions(cs);
      DropNeutralFolded(FoldAll(cs));
      if HasDeciding(AND, FoldAll(cs)) { DecidingSurvives(AND, FoldAll(cs)); }
    }
  }

  /** The sweeps of a generated predicate: the conjunction first, then its settled form. */
  function FirstSweep(cs: seq<Expr>): Expr {
    if |cs| == 1 then cs[0] else Conjunction(AND, FoldAll(cs))
  }

  lemma {:induction false} FirstSweepIs(cs: seq<Expr>)
    requires AllConditions(cs)
    ensures RewriteExpr(Conjunction(AND, cs)) == (FirstSweep(cs), |cs| == 1 || !AllColumnConditions(cs))
  {
    SweepConditions(cs);
    assert ApplyRules(Conjunction(AND, cs)) == if |cs| == 1 then (cs[0], true) else (Conjunction(AND, cs), false);
  }

  lemma {:induction false} SecondSweepIs(cs: seq<Expr>)
    requires AllConditions(cs)
    ensures RewriteExpr(FirstSweep(cs)).0 == Settle(cs)
  {
    if |cs| == 1 {
      FoldCondition(cs[0]);
    } else {
      var fs := FoldAll(cs);
      var rest := DropNeutral(AND, fs);
      FoldConditions(cs);
      DropNeutralFolded(fs);
      if HasDeciding(AND, fs) {
        DecidingSurvives(AND, fs);
        assert ApplyRules(Conjunction(AND, fs)) == (rest[0], false);
        if rest[0].Comparison? { FoldCondition(rest[0]); }
      } else if |rest| == 1 {
        assert ApplyRules(Conjunction(AND, fs)) == (rest[0], true);
      } else {
        assert ApplyRules(Conjunction(AND, fs)) == (Conjunction(AND, rest), false);
        ColumnConditionsStable(rest);
      }
    }
  }

  lemma {:induction false} ConditionsAreSupported(cs: seq<Expr>)
    requires AllConditions(cs)
    ensures !UnsupportedAny(cs)
  {
    if cs != [] {
      ConditionsAreSupported(cs[1..]);
    }
  }

  /** Pushdown never meets an OR: not in the generated predicate, nor after one sweep of it, nor in the settled form. */
  lemma {:induction false} SweepsAreSupported(cs: seq<Expr>)
    requires AllConditions(cs)
    ensures !Unsupported(Conjunction(AND, cs)) && !Unsupported(FirstSweep(cs)) && !Unsupported(Settle(cs))
  {
    ConditionsAreSupported(cs);
    FoldConditions(cs);
    FoldedAreSupported(FoldAll(cs));
    SettleIsSettled(cs);
    SettledIsStable(Settle(cs));
  }

  lemma {:induction false} FoldedAreSupported(fs: seq<Expr>)
    requires AllFolded(fs)
    ensures !UnsupportedAny(fs)
  {
    if fs != [] {
      FoldedAreSupported(fs[1..]);
    }
  }

  // ---- one pass over a generated plan ------------------------------------------------------

  /** Scans and joins, below any predicate. */
  predicate IsInner(p: Plan)
    decreases p
  {
    && p.expressions == []
    && ((p.kind.TableGet? && p.children == [])
        || (p.kind.Join? && |p.children| == 2 && IsInner(p.children[0]) && IsInner(p.children[1])))
  }

  predicate IsInnerList(ps: seq<Plan>) {
    |ps| <= 1 && (ps != [] ==> IsInner(ps[0]))
  }

  lemma {:induction false} OneChild(p: Plan)
    ensures RewriteAllPlanExprs([p]).0 == [RewritePlanExprs(p).0]
    ensures RewriteAllPlanExprs([p]).1 == RewritePlanExprs(p).1
    ensures NextAll([p]) == [Next(p)] && ReportsAny([p]) == Reports(p)
    ensures FailsAny([p]) == Fails(p) && PassOverwritesAny([p]) == PassOverwrites(p)
  {
    assert [p][1..] == [];
    assert RewriteAllPlanExprs([p][1..]) == ([], false);
  }

  lemma {:induction false} NoChild()
    ensures RewriteAllPlanExprs([]) == ([], false)
    ensures NextAll([]) == [] && !ReportsAny([]) && !FailsAny([]) && !PassOverwritesAny([])
  {
  }

  ghost predicate Untouched(p: Plan) {
    RewritePlanExprs(p) == (p, false) && Next(p) == p && !Reports(p) && !Fails(p) && !PassOverwrites(p)
  }

  lemma {:induction false} InnerUntouched(p: Plan)
    requires IsInner(p)
    ensures Untouched(p)
    decreases p
  {
    assert RewriteExprs(p.expressions) == (p.expressions, false);
    NoChild();
    if p.kind.Join? {
      var l, r := p.children[0], p.children[1];
      InnerUntouched(l);
      InnerUntouched(r);
      assert p.children[1..] == [r];
      OneChild(r);
      assert [l] + [r] == p.children;
      assert RewritePlanExprs(p) == (p, false);
      assert Local(p) == p;
    }
  }

  lemma {:induction false} InnerListUntouched(ps: seq<Plan>)
    requires IsInnerList(ps)
    ensures RewriteAllPlanExprs(ps) == (ps, false)
    ensures NextAll(ps) == ps && !ReportsAny(ps) && !FailsAny(ps) && !PassOverwritesAny(ps)
  {
    NoChild();
    if ps != [] {
      InnerUntouched(ps[0]);
      OneChild(ps[0]);
      assert ps == [ps[0]];
    }
  }

  /** Operators above the predicate: their own expressions are ones no rule changes. */
  ghost predicate IsUpper(u: Upper) {
    && (u.kind.Projection? || u.kind.GroupBy? || u.kind.Delete?)
    && RewriteExprs(u.expressions) == (u.expressions, false)
  }

  ghost predicate AllUppers(us: seq<Upper>) {
    us != [] && forall i :: 0 <= i < |us| ==> IsUpper(us[i])
  }

  function PredicateOn(e: Expr, input: seq<Plan>): Plan {
    Plan(Predicate, [e], input)
  }

  /** Without a predicate there is nothing left to do. */
  lemma {:induction false} BareChainUntouched(us: seq<Upper>, input: seq<Plan>)
    requires AllUppers(us) && IsInnerList(input)
    ensures Untouched(Build(us, input))
    decreases |us|
  {
    var p := Build(us, input);
    InnerListUntouched(input);
    if |us| > 1 {
      BareChainUntouched(us[1..], input);
      OneChild(Build(us[1..], input));
    }
    assert RewritePlanExprs(p) == (p, false);
    assert Local(p) == p;
  }

  lemma {:induction false} SweepChain(us: seq<Upper>, e: Expr, input: seq<Plan>)
    requires AllUppers(us) && IsInnerList(input)
    ensures RewritePlanExprs(Build(us, [PredicateOn(e, input)])) ==
            (Build(us, [PredicateOn(RewriteExpr(e).0, input)]), RewriteExpr(e).1)
    decreases |us|
  {
    var p := PredicateOn(e, input);
    if |us| == 1 {
      SweepPredicate(e, input);
      OneChild(p);
    } else {
      SweepChain(us[1..], e, input);
      OneChild(Build(us[1..], [p]));
    }
  }

  lemma {:induction false} SweepPredicate(e: Expr, input: seq<Plan>)
    requires IsInnerList(input)
    ensures RewritePlanExprs(PredicateOn(e, input)) == (PredicateOn(RewriteExpr(e).0, input), RewriteExpr(e).1)
  {
    InnerListUntouched(input);
    assert [e][1..] == [];
    assert RewriteExprs([e][1..]) == ([], false);
    assert RewriteExprs([e]).0 == [RewriteExpr(e).0];
  }

  function SweepN(k: nat, e: Expr): Expr {
    if k == 0 then e else SweepN(k - 1, RewriteExpr(e).0)
  }

  /** The pass on the predicate operator itself, when it survives to be visited. */
  lemma {:induction false} PredicatePass(e: Expr, input: seq<Plan>)
    requires IsInnerList(input) && !Unsupported(RewriteExpr(e).0)
    ensures var swept := PredicateOn(RewriteExpr(e).0, input);
            && Next(PredicateOn(e, input)) == PushPredicates(swept)
            && !Fails(PredicateOn(e, input))
            && Reports(PredicateOn(e, input)) == (RewriteExpr(e).1 || PushdownReports(swept))
            && PassOverwrites(PredicateOn(e, input)) == Overwrites(swept)
  {
    var swept := PredicateOn(RewriteExpr(e).0, input);
    SweepPredicate(e, input);
    assert AbsorbPredicate(swept) == (swept, false);
    InnerListUntouched(PushPredicates(swept).children);
  }

  /** What is below the operators after a pass: n sweeps reach the predicate before it can be absorbed. */
  function NextBody(n: nat, e: Expr, input: seq<Plan>): seq<Plan> {
    var s := SweepN(n, e);
    if s.ValueExpr? then (if s.value.Truth() then input else [])
    else [PushPredicates(PredicateOn(RewriteExpr(s).0, input))]
  }

  /** One pass over `us` on top of a predicate: its result, and what it reports. */
  ghost predicate PassIs(us: seq<Upper>, e: Expr, input: seq<Plan>)
    requires us != []
  {
    var p := Build(us, [PredicateOn(e, input)]);
    var s := SweepN(|us|, e);
    var last := PredicateOn(RewriteExpr(s).0, input);
    && Next(p) == Build(us, NextBody(|us|, e, input))
    && !Fails(p)
    && (RewriteExpr(e).1 || s.ValueExpr? || PushdownReports(last) ==> Reports(p))
    && (RewriteExpr(e) == (e, false) && !s.ValueExpr? && !PushdownReports(last) ==> !Reports(p))
    && (PassOverwrites(p) ==> !s.ValueExpr? && Overwrites(last))
  }

  lemma {:induction false} ChainPassBase(us: seq<Upper>, e: Expr, input: seq<Plan>)
    requires AllUppers(us) && |us| == 1 && IsInnerList(input) && !Unsupported(RewriteExpr(SweepN(1, e)).0)
    ensures PassIs(us, e, input)
  {
    var e1 := RewriteExpr(e).0;
    var p := Build(us, [PredicateOn(e, input)]);
    SweepChain(us, e, input);
    assert SweepN(1, e) == SweepN(0, e1) == e1;
    if e1.ValueExpr? {
      assert Local(p) == Build(us, if e1.value.Truth() then input else []);
      InnerListUntouched(input);
      NoChild();
    } else {
      assert Local(p) == Build(us, [PredicateOn(e1, input)]);
      PredicatePass(e1, input);
      OneChild(PredicateOn(e1, input));
    }
  }

  lemma {:induction false} ChainPass(us: seq<Upper>, e: Expr, input: seq<Plan>)
    requires AllUppers(us) && IsInnerList(input) && !Unsupported(RewriteExpr(SweepN(|us|, e)).0)
    ensures PassIs(us, e, input)
    decreases |us|
  {
    if |us| == 1 {
      ChainPassBase(us, e, input);
    } else {
      var e1 := RewriteExpr(e).0;
      SweepChain(us, e, input);
      assert SweepN(|us|, e) == SweepN(|us| - 1, e1);
      assert Local(Build(us, [PredicateOn(e, input)])) == Build(us, [PredicateOn(e1, input)]);
      ChainPass(us[1..], e1, input);
      OneChild(Build(us[1..], [PredicateOn(e1, input)]));
    }
  }

  // ---- the whole run -----------------------------------------------------------------------

  /** A single scan holding no predicates yet: the only input predicates can be pushed into. */
  predicate IsScan(input: seq<Plan>) {
    |input| == 1 && input[0].kind.TableGet? && input[0].kind.predicates == []
  }

  /** What the whole run leaves below the operators. */
  function FinalBody(s: Expr, input: seq<Plan>): seq<Plan> {
    if s.ValueExpr? then (if s.value.Truth() then input else [])
    else if IsScan(input) then [SetPredicates(input[0], if s.Conjunction? then s.children else [s])]
    else [PredicateOn(s, input)]
  }

  predicate IsGeneratedInput(input: seq<Plan>) {
    IsInnerList(input) && (input != [] && input[0].kind.TableGet? ==> input[0].kind.predicates == [])
  }

  /** From the second pass on, the predicate is settled. */
  lemma {:induction false} SettledRun(us: seq<Upper>, s: Expr, input: seq<Plan>)
    requires AllUppers(us) && IsInnerList(input) && IsSettled(s)
    requires s.ValueExpr? || !(input != [] && input[0].kind.TableGet?)
    ensures RunEndsWith(Build(us, [PredicateOn(s, input)]), Build(us, FinalBody(s, input)))
  {
    SweepNSettled(|us|, s);
    SettledIsStable(s);
    ChainPass(us, s, input);
    if s.ValueExpr? {
      BareChainUntouched(us, NextBody(|us|, s, input));
    }
  }

  lemma {:induction false} SweepNSettled(k: nat, s: Expr)
    requires IsSettled(s)
    ensures SweepN(k, s) == s
  {
    SettledIsStable(s);
    if k > 0 { SweepNSettled(k - 1, s); }
  }

  /** n sweeps of a generated predicate, and the one after them. */
  lemma {:induction false} SweepsOf(n: nat, cs: seq<Expr>)
    requires n >= 1 && AllConditions(cs)
    ensures SweepN(n, Conjunction(AND, cs)) == if n == 1 then FirstSweep(cs) else Settle(cs)
    ensures RewriteExpr(SweepN(n, Conjunction(AND, cs))).0 == Settle(cs)
  {
    FirstSweepIs(cs);
    SecondSweepIs(cs);
    SettleIsSettled(cs);
    var first, s := FirstSweep(cs), Settle(cs);
    if n == 1 {
      assert SweepN(1, Conjunction(AND, cs)) == SweepN(0, first);
    } else {
      assert SweepN(n, Conjunction(AND, cs)) == SweepN(n - 1, first) == SweepN(n - 2, s);
      SweepNSettled(n - 2, s);
      SettledIsStable(s);
    }
  }

  lemma {:induction false} FirstPass(us: seq<Upper>, cs: seq<Expr>, input: seq<Plan>)
    requires AllUppers(us) && AllConditions(cs) && IsGeneratedInput(input)
    ensures PassIs(us, Conjunction(AND, cs), input)
  {
    SweepsOf(|us|, cs);
    SweepsAreSupported(cs);
    ChainPass(us, Conjunction(AND, cs), input);
  }

  /** What pushing the settled predicate into a scan leaves. */
  lemma {:induction false} PushSettled(s: Expr, input: seq<Plan>)
    requires IsSettled(s) && IsScan(input) && IsInner(input[0])
    ensures s.ValueExpr? ==> PushPredicates(PredicateOn(s, input)) == PredicateOn(s, input)
    ensures !s.ValueExpr? ==>
              PushPredicates(PredicateOn(s, input)) == PredicateOn(ValueExpr(Bool(true)), FinalBody(s, input))
    ensures PushdownReports(PredicateOn(s, input)) == (!s.ValueExpr? && s != Conjunction(AND, []))
    ensures !Overwrites(PredicateOn(s, input))
  {
    if s.Conjunction? {
      ColumnConditionsPushed(s.children);
    }
    assert input == [input[0]];
  }

  /** A predicate that settles to a constant, or to nothing, did so through a change that was reported. */
  lemma {:induction false} ConstantsAreReported(cs: seq<Expr>)
    requires AllConditions(cs) && cs != [] && (Settle(cs).ValueExpr? || Settle(cs) == Conjunction(AND, []))
    ensures |cs| == 1 || !AllColumnConditions(cs)
  {
    if AllColumnConditions(cs) {
      forall i | 0 <= i < |cs| ensures FoldAll(cs)[i] == cs[i] { FoldCondition(cs[i]); }
      assert FoldAll(cs) == cs;
      ColumnConditionsStable(cs);
    }
  }

  /** The run from a plan ends with `final`, and no pass of it discards table predicates. */
  ghost predicate RunEndsWith(p: Plan, final: Plan) {
    Optimized(p) == Ok(final) && !RunOverwrites(p)
  }

  lemma {:induction false} RunStep(p: Plan, final: Plan)
    requires !Fails(p) && !PassOverwrites(p)
    requires if Reports(p) then RunEndsWith(Next(p), final) else Next(p) == final
    ensures RunEndsWith(p, final)
  {
  }

  /** Over a scan: the conditions move into it, and the constant left behind is absorbed by the next pass. */
  lemma {:induction false} RunOverScan(us: seq<Upper>, cs: seq<Expr>, input: seq<Plan>)
    requires AllUppers(us) && cs != [] && AllConditions(cs) && IsGeneratedInput(input) && IsScan(input)
    requires !SweepN(|us|, Conjunction(AND, cs)).ValueExpr?
    ensures RunEndsWith(Build(us, [PredicateOn(Conjunction(AND, cs), input)]), Build(us, FinalBody(Settle(cs), input)))
  {
    var s := Settle(cs);
    FirstPass(us, cs, input);
    SettleIsSettled(cs);
    SweepsOf(|us|, cs);
    PushSettled(s, input);
    FirstSweepIs(cs);
    if s.ValueExpr? {
      ConstantsAreReported(cs);
      SettledRun(us, s, input);
    } else {
      if s == Conjunction(AND, []) { ConstantsAreReported(cs); }
      SettledRun(us, ValueExpr(Bool(true)), FinalBody(s, input));
    }
    RunStep(Build(us, [PredicateOn(Conjunction(AND, cs), input)]), Build(us, FinalBody(s, input)));
  }

  /** Elsewhere the settled predicate stays, unless it is a constant. */
  lemma {:induction false} RunElsewhere(us: seq<Upper>, cs: seq<Expr>, input: seq<Plan>)
    requires AllUppers(us) && cs != [] && AllConditions(cs) && IsGeneratedInput(input) && !IsScan(input)
    requires !SweepN(|us|, Conjunction(AND, cs)).ValueExpr?
    ensures RunEndsWith(Build(us, [PredicateOn(Conjunction(AND, cs), input)]), Build(us, FinalBody(Settle(cs), input)))
  {
    var s := Settle(cs);
    FirstPass(us, cs, input);
    SettleIsSettled(cs);
    SweepsOf(|us|, cs);
    FirstSweepIs(cs);
    if s.ValueExpr? { ConstantsAreReported(cs); }
    SettledRun(us, s, input);
    RunStep(Build(us, [PredicateOn(Conjunction(AND, cs), input)]), Build(us, FinalBody(s, input)));
  }

  /**
   * The whole run on a generated plan, in closed form: it succeeds, ends with exactly this plan, and never discards
   * predicates a TABLE_GET already holds.
   */
  lemma {:induction false} GeneratedRun(us: seq<Upper>, cs: seq<Expr>, input: seq<Plan>)
    requires AllUppers(us) && cs != [] && AllConditions(cs) && IsGeneratedInput(input)
    ensures RunEndsWith(Build(us, [PredicateOn(Conjunction(AND, cs), input)]), Build(us, FinalBody(Settle(cs), input)))
  {
    if SweepN(|us|, Conjunction(AND, cs)).ValueExpr? {
      FirstPass(us, cs, input);
      SweepsOf(|us|, cs);
      BareChainUntouched(us, FinalBody(Settle(cs), input));
    } else if IsScan(input) {
      RunOverScan(us, cs, input);
    } else {
      RunElsewhere(us, cs, input);
    }
  }

  /** Without a condition the first pass already changes nothing. */
  lemma {:induction false} UnconditionalRun(us: seq<Upper>, input: seq<Plan>)
    requires AllUppers(us) && IsInnerList(input)
    ensures RunEndsWith(Build(us, input), Build(us, input))
  {
    BareChainUntouched(us, input);
  }

  /** The end of a generated run is a fixpoint: another pass would neither change nor report anything. */
  lemma {:induction false} GeneratedRunIsStable(us: seq<Upper>, cs: seq<Expr>, input: seq<Plan>)
    requires AllUppers(us) && cs != [] && AllConditions(cs) && IsGeneratedInput(input)
    ensures var p := Build(us, [PredicateOn(Conjunction(AND, cs), input)]);
      Optimized(p).Ok? && Next(Optimized(p).value) == Optimized(p).value && !Reports(Optimized(p).value)
  {
    var s := Settle(cs);
    GeneratedRun(us, cs, input);
    SettleIsSettled(cs);
    if s.ValueExpr? || IsScan(input) {
      BareChainUntouched(us, FinalBody(s, input));
    } else {
      SweepNSettled(|us|, s);
      SettledIsStable(s);
      ChainPass(us, s, input);
    }
  }

  /** `AND(AND(f = 1), FALSE)` above nothing. */
  const UNSTABLE: Plan := Plan(Predicate, [Conjunction(AND, [NESTED, ValueExpr(Bool(false))])], [])
  const NESTED: Expr := Conjunction(AND, [INNERMOST])
  const INNERMOST: Expr := Comparison(EqualTo, Field("t", "f", Ints), ValueExpr(Int(1)))

  /** Other plans may end too early: the first pass edits this one without a report, and a second would edit it again. */
  lemma {:induction false} LoopStopsEarly()
    ensures Optimized(UNSTABLE) == Ok(Plan(Predicate, [NESTED], []))
    ensures Reports(Plan(Predicate, [NESTED], []))
    ensures Next(Plan(Predicate, [NESTED], [])) == Plan(Predicate, [INNERMOST], [])
  {
    var outer := UNSTABLE.expressions[0];
    InnermostStays();
    NestedOnce();
    assert outer.children[1..] == [ValueExpr(Bool(false))];
    assert DropNeutral(AND, outer.children) == outer.children && HasDeciding(AND, outer.children);
    assert ApplyRules(outer) == (NESTED, false);
    assert RewriteExpr(outer) == (NESTED, false);
    LoneExpression(outer);
    LoneExpression(NESTED);
    NoChild();
  }

  lemma {:induction false} InnermostStays()
    ensures RewriteExpr(INNERMOST) == (INNERMOST, false)
  {
  }

  lemma {:induction false} NestedOnce()
    ensures ApplyRules(NESTED) == (INNERMOST, true) && RewriteExpr(NESTED) == (INNERMOST, true)
    ensures RewriteExprs([INNERMOST]) == ([INNERMOST], false)
  {
    InnermostStays();
    assert [INNERMOST][1..] == [];
    assert DropNeutral(AND, [INNERMOST]) == [INNERMOST] && !HasDeciding(AND, [INNERMOST]);
    assert SimplifyConjunction(NESTED) == (INNERMOST, true);
  }

  /** A predicate operator without a child: its expression is all there is to rewrite. */
  lemma {:induction false} LoneExpression(e: Expr)
    ensures RewritePlanExprs(Plan(Predicate, [e], [])) == (Plan(Predicate, [RewriteExpr(e).0], []), RewriteExpr(e).1)
  {
    assert [e][1..] == [];
    assert RewriteExprs([]) == ([], false);
    assert RewriteExprs([e]).0 == [RewriteExpr(e).0] && RewriteExprs([e]).1 == RewriteExpr(e).1;
    assert RewriteAllPlanExprs([]) == ([], false);
  }
}
