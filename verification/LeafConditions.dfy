/** What the leaves of a condition say, and what an expression written over a leaf comes to. */
module LeafConditions {
  import opened Basics
  import opened ExprSyntax
  import opened ExprLexer
  import opened ExprPrinter
  import opened ExprRoundTrip
  import opened ExprMeaning
  import opened Matchers

  /** A bare leaf: the attempt is there at all, the flag is on for the asking rule, the reading is positive. */
  lemma LeavesSay(w: World, leaf: Leaf, rule: string)
    ensures leaf.WorkflowRunAttempt? ==> (Verdict(w, leaf, rule) <==> w.runAttempt != None)
    ensures leaf.FeatureFlag? ==> (Verdict(w, leaf, rule) <==> w.flag(leaf, rule))
    ensures leaf.Reading? ==> (Verdict(w, leaf, rule) <==> w.reading(leaf))
  {
  }

  function Vars(w: World, leaf: Leaf, rule: string): map<string, Value> {
    map["value" := LeafValue(w, leaf, rule)]
  }

  /** An expression over a leaf holds when it evaluates to true with `value` bound to what the leaf says. */
  lemma WrittenExpressionIsEvaluated(w: World, leaf: Leaf, e: Expr, rule: string)
    requires LegalExpr(e, w.unicode) && FloatFree(e)
    ensures Renderable(Print(e), w.unicode)
    ensures ExprVerdict(w, leaf, Render(Print(e)), rule) <==> Says(e, Vars(w, leaf, rule), true)
  {
    ExpressionRoundTrip(e, w.unicode);
  }

  /** An expression that does not parse, or does not evaluate, never holds, whatever the leaf says. */
  lemma FaultyExpressionsNeverHold(w: World, leaf: Leaf, expr: string, rule: string)
    ensures ParseText(expr, w.unicode).Err? ==> !ExprVerdict(w, leaf, expr, rule)
    ensures ParseText(expr, w.unicode).Ok? && Eval(ParseText(expr, w.unicode).value, Vars(w, leaf, rule)).Err? ==>
              !ExprVerdict(w, leaf, expr, rule)
  {
  }

  /** The run attempt as a number, 0 for an event without one. */
  function AttemptOf(w: World): int {
    match w.runAttempt
    case Some(n) => n
    case None => 0
  }

  /** `value`, an operator and an integer, as a rule file spells it. */
  function Comparison(operator: string, n: int): string {
    "value" + " " + operator + " " + Text(IntTok(n))
  }

  lemma ComparisonTokens(op: CmpOp, n: int)
    ensures Print(Cmp(Var("value"), op, Lit(I64(n)))) == [Ident("value"), Compare(op), IntTok(n)]
  {
    assert PrintAt(Var("value"), 4) == Print(Var("value")) == [Ident("value")];
    assert PrintAt(Lit(I64(n)), 4) == Print(Lit(I64(n))) == [IntTok(n)];
  }

  lemma RenderTwo(a: Token, b: Token)
    requires !a.FloatTok? && !b.FloatTok?
    ensures Render([a, b]) == Text(a) + " " + Text(b)
  {
    assert [a, b][1..] == [b];
  }

  lemma RenderThree(a: Token, b: Token, c: Token)
    requires !a.FloatTok? && !b.FloatTok? && !c.FloatTok?
    ensures Render([a, b, c]) == Text(a) + " " + Text(b) + " " + Text(c)
  {
    assert [a, b, c][1..] == [b, c];
    RenderTwo(b, c);
    Associates(Text(a) + " ", Text(b) + " ", Text(c));
    Associates(Text(a) + " ", Text(b), " ");
  }

  /** The expression with that text. */
  function Compares(op: CmpOp, n: int): Expr {
    Cmp(Var("value"), op, Lit(I64(n)))
  }

  lemma ComparisonIsWritten(op: CmpOp, n: int, unicode: char -> bool)
    requires I64_MIN <= n <= I64_MAX
    ensures LegalExpr(Compares(op, n), unicode) && FloatFree(Compares(op, n))
    ensures Print(Compares(op, n)) == [Ident("value"), Compare(op), IntTok(n)]
    ensures Render(Print(Compares(op, n))) == Comparison(OperatorText(op), n)
  {
    ValueIsAName(unicode);
    ComparisonTokens(op, n);
    RenderThree(Ident("value"), Compare(op), IntTok(n));
  }

  lemma ComparisonSays(e: Expr, vars: map<string, Value>, a: int, b: int)
    requires Operands(e, vars, I64(a), I64(b))
    ensures Says(e, vars, true) <==> CmpReals(a as real, e.op, b as real)
  {
    ComparesValues(e, vars, I64(a), I64(b));
    NumberValuesCompare(I64(a), e.op, I64(b), a as real, b as real);
  }

  lemma AttemptCompares(w: World, op: CmpOp, n: int, rule: string)
    requires I64_MIN <= n <= I64_MAX
    ensures ExprVerdict(w, WorkflowRunAttempt, Comparison(OperatorText(op), n), rule) <==>
              CmpReals(AttemptOf(w) as real, op, n as real)
  {
    ComparisonIsWritten(op, n, w.unicode);
    WrittenExpressionIsEvaluated(w, WorkflowRunAttempt, Compares(op, n), rule);
    ComparisonSays(Compares(op, n), Vars(w, WorkflowRunAttempt, rule), AttemptOf(w), n);
  }

  lemma ValueIsAName(unicode: char -> bool)
    ensures LegalName("value", unicode)
  {
  }

  /** A written comparison with the run attempt, such as `value < 3`, holds exactly when the numbers compare so. */
  lemma AttemptsCompare(w: World, n: int, rule: string)
    requires -9223372036854775808 <= n <= 9223372036854775807
    ensures ExprVerdict(w, WorkflowRunAttempt, Comparison("==", n), rule) <==> AttemptOf(w) == n
    ensures ExprVerdict(w, WorkflowRunAttempt, Comparison("!=", n), rule) <==> AttemptOf(w) != n
    ensures ExprVerdict(w, WorkflowRunAttempt, Comparison("<", n), rule) <==> AttemptOf(w) < n
    ensures ExprVerdict(w, WorkflowRunAttempt, Comparison("<=", n), rule) <==> AttemptOf(w) <= n
    ensures ExprVerdict(w, WorkflowRunAttempt, Comparison(">", n), rule) <==> AttemptOf(w) > n
    ensures ExprVerdict(w, WorkflowRunAttempt, Comparison(">=", n), rule) <==> AttemptOf(w) >= n
  {
    AttemptCompares(w, Eq, n, rule);
    AttemptCompares(w, Ne, n, rule);
    AttemptCompares(w, Lt, n, rule);
    AttemptCompares(w, Le, n, rule);
    AttemptCompares(w, Gt, n, rule);
    AttemptCompares(w, Ge, n, rule);
  }
}
