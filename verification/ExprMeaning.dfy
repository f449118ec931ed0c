/** What evaluating an expression gives: comparisons on numbers, strings and bools, and the truth tables. */
module ExprMeaning {
  import opened Basics
  import opened ExprSyntax

  type Vars = map<string, Value>

  /** `v` is the number `n`, as an integer or as a double. */
  predicate IsNumber(v: Value, n: real) {
    (v.I64? && v.n as real == n) || (v.F64? && v.r == n)
  }

  /** The operands evaluate to these, left and right. */
  predicate Operands(e: Expr, vars: Vars, l: Value, r: Value) {
    e.Cmp? && Eval(e.lhs, vars) == Ok(l) && Eval(e.rhs, vars) == Ok(r)
  }

  /** A comparison of operands that evaluate is the comparison of their values. */
  lemma ComparesValues(e: Expr, vars: Vars, l: Value, r: Value)
    requires Operands(e, vars, l, r)
    ensures Eval(e, vars) == match CmpValues(l, e.op, r)
                             case Err(err) => Err(err)
                             case Ok(c) => Ok(Bool(c))
  {
  }

  lemma NumberValuesCompare(l: Value, op: CmpOp, r: Value, a: real, b: real)
    requires IsNumber(l, a) && IsNumber(r, b)
    ensures CmpValues(l, op, r) == Ok(CmpReals(a, op, b))
  {
    if l.F64? && r.I64? {
      assert CmpValues(l, op, r) == CmpValues(r, op.Flip(), l);
      assert CmpValues(r, op.Flip(), l) == Ok(CmpReals(b, op.Flip(), a));
    }
  }

  /** Numbers compare as the numbers they are, whichever way each of them is written. */
  lemma NumbersCompare(e: Expr, vars: Vars, l: Value, r: Value, a: real, b: real)
    requires Operands(e, vars, l, r) && IsNumber(l, a) && IsNumber(r, b)
    ensures e.op == Eq ==> Eval(e, vars) == Ok(Bool(a == b))
    ensures e.op == Ne ==> Eval(e, vars) == Ok(Bool(a != b))
    ensures e.op == Lt ==> Eval(e, vars) == Ok(Bool(a < b))
    ensures e.op == Le ==> Eval(e, vars) == Ok(Bool(a <= b))
    ensures e.op == Gt ==> Eval(e, vars) == Ok(Bool(a > b))
    ensures e.op == Ge ==> Eval(e, vars) == Ok(Bool(a >= b))
  {
    ComparesValues(e, vars, l, r);
    NumberValuesCompare(l, e.op, r, a, b);
  }

  /** So integer literals compare as integers. */
  lemma IntegersCompare(a: int, op: CmpOp, b: int, vars: Vars)
    ensures var e := Cmp(Lit(I64(a)), op, Lit(I64(b)));
            && (op == Eq ==> Eval(e, vars) == Ok(Bool(a == b)))
            && (op == Ne ==> Eval(e, vars) == Ok(Bool(a != b)))
            && (op == Lt ==> Eval(e, vars) == Ok(Bool(a < b)))
            && (op == Le ==> Eval(e, vars) == Ok(Bool(a <= b)))
            && (op == Gt ==> Eval(e, vars) == Ok(Bool(a > b)))
            && (op == Ge ==> Eval(e, vars) == Ok(Bool(a >= b)))
  {
    NumbersCompare(Cmp(Lit(I64(a)), op, Lit(I64(b))), vars, I64(a), I64(b), a as real, b as real);
  }

  /** Strings compare by their first difference, a shorter one first. */
  lemma StringsCompare(e: Expr, vars: Vars, a: string, b: string)
    requires Operands(e, vars, String(a), String(b))
    ensures e.op == Eq ==> Eval(e, vars) == Ok(Bool(a == b))
    ensures e.op == Ne ==> Eval(e, vars) == Ok(Bool(a != b))
    ensures e.op == Lt ==> Eval(e, vars) == Ok(Bool(Precedes(a, b)))
    ensures e.op == Le ==> Eval(e, vars) == Ok(Bool(Precedes(a, b) || a == b))
    ensures e.op == Gt ==> Eval(e, vars) == Ok(Bool(Precedes(b, a)))
    ensures e.op == Ge ==> Eval(e, vars) == Ok(Bool(Precedes(b, a) || a == b))
  {
    StringLessIsLexicographic(a, b);
    StringLessIsLexicographic(b, a);
    StringLessTotal(a, b);
  }

  /** Bools are equal or not, and have no order; values of different kinds do not compare at all. */
  lemma OthersCompare(e: Expr, vars: Vars, l: Value, r: Value)
    requires Operands(e, vars, l, r)
    ensures l.Bool? && r.Bool? ==>
              Eval(e, vars) == if e.op == Eq then Ok(Bool(l.b == r.b))
                               else if e.op == Ne then Ok(Bool(l.b != r.b))
                               else Err(CannotOrderBools(e.op))
    ensures l.Bool? != r.Bool? || l.String? != r.String? ==> Eval(e, vars) == Err(CannotCompare(l, r))
  {
  }

  /** The error of the left operand comes out before that of the right one. */
  lemma ComparisonErrors(e: Expr, vars: Vars)
    requires e.Cmp?
    ensures Eval(e.lhs, vars).Err? ==> Eval(e, vars) == Err(Eval(e.lhs, vars).error)
    ensures Eval(e.lhs, vars).Ok? && Eval(e.rhs, vars).Err? ==> Eval(e, vars) == Err(Eval(e.rhs, vars).error)
  {
  }

  lemma AtomsEvaluate(vars: Vars, v: Value, name: string)
    ensures Eval(Lit(v), vars) == Ok(v)
    ensures Eval(Var(name), vars) == if name in vars then Ok(vars[name]) else Err(UndefinedVariable(name))
  {
  }

  /** The expression evaluates to this bool. */
  predicate Says(e: Expr, vars: Vars, b: bool) {
    Eval(e, vars) == Ok(Bool(b))
  }

  /** What it brings a connective to stop with: its own error, or that it is not a bool. */
  predicate FailsWith(e: Expr, vars: Vars, err: ExprError) {
    match Eval(e, vars)
    case Err(x) => x == err
    case Ok(v) => !v.Bool? && err == ExpectedBool(v)
  }

  lemma OperandIs(e: Expr, vars: Vars)
    ensures Says(e, vars, true) <==> EvalBool(e, vars) == Ok(true)
    ensures Says(e, vars, false) <==> EvalBool(e, vars) == Ok(false)
    ensures forall err :: FailsWith(e, vars, err) <==> EvalBool(e, vars) == Err(err)
  {
  }

  /** Negation turns a bool round and passes on what is wrong with its operand. */
  lemma NotTable(x: Expr, vars: Vars, b: bool, err: ExprError)
    ensures Says(x, vars, b) ==> Says(Not(x), vars, !b)
    ensures FailsWith(x, vars, err) ==> Eval(Not(x), vars) == Err(err)
  {
    OperandIs(x, vars);
  }

  /** "And": a false left side decides without the right one; otherwise the right one does. */
  lemma AndTable(x: Expr, y: Expr, vars: Vars, b: bool, err: ExprError)
    ensures Says(x, vars, false) ==> Says(And(x, y), vars, false)
    ensures Says(x, vars, true) && Says(y, vars, b) ==> Says(And(x, y), vars, b)
    ensures FailsWith(x, vars, err) ==> Eval(And(x, y), vars) == Err(err)
    ensures Says(x, vars, true) && FailsWith(y, vars, err) ==> Eval(And(x, y), vars) == Err(err)
  {
    OperandIs(x, vars);
    OperandIs(y, vars);
    assert Eval(And(x, y), vars) ==
      match EvalBool(x, vars)
      case Err(e) => Err(e)
      case Ok(l) => if !l then Ok(Bool(false)) else
        match EvalBool(y, vars)
        case Err(e) => Err(e)
        case Ok(r) => Ok(Bool(r));
  }

  /** "Or": a true left side decides without the right one; otherwise the right one does. */
  lemma OrTable(x: Expr, y: Expr, vars: Vars, b: bool, err: ExprError)
    ensures Says(x, vars, true) ==> Says(Or(x, y), vars, true)
    ensures Says(x, vars, false) && Says(y, vars, b) ==> Says(Or(x, y), vars, b)
    ensures FailsWith(x, vars, err) ==> Eval(Or(x, y), vars) == Err(err)
    ensures Says(x, vars, false) && FailsWith(y, vars, err) ==> Eval(Or(x, y), vars) == Err(err)
  {
    OperandIs(x, vars);
    OperandIs(y, vars);
    assert Eval(Or(x, y), vars) ==
      match EvalBool(x, vars)
      case Err(e) => Err(e)
      case Ok(l) => if l then Ok(Bool(true)) else
        match EvalBool(y, vars)
        case Err(e) => Err(e)
        case Ok(r) => Ok(Bool(r));
  }

  /**
   The law the tables add up to: over operands that are bools, an expression of connectives alone
   says what its propositional reading says; `truth` reads every other subexpression.
   */
  ghost predicate Reading(e: Expr, truth: Expr -> bool) {
    match e
    case Not(x) => !Reading(x, truth)
    case And(x, y) => Reading(x, truth) && Reading(y, truth)
    case Or(x, y) => Reading(x, truth) || Reading(y, truth)
    case _ => truth(e)
  }

  ghost predicate ReadsRight(e: Expr, vars: Vars, truth: Expr -> bool) {
    match e
    case Not(x) => ReadsRight(x, vars, truth)
    case And(x, y) => ReadsRight(x, vars, truth) && ReadsRight(y, vars, truth)
    case Or(x, y) => ReadsRight(x, vars, truth) && ReadsRight(y, vars, truth)
    case _ => Says(e, vars, truth(e))
  }

  lemma {:induction false} ConnectivesArePropositional(e: Expr, vars: Vars, truth: Expr -> bool)
    requires ReadsRight(e, vars, truth)
    ensures Says(e, vars, Reading(e, truth))
  {
    match e {
      case Not(x) =>
        ConnectivesArePropositional(x, vars, truth);
        NotTable(x, vars, Reading(x, truth), UnexpectedEnd);
      case And(x, y) =>
        ConnectivesArePropositional(x, vars, truth);
        ConnectivesArePropositional(y, vars, truth);
        AndTable(x, y, vars, Reading(y, truth), UnexpectedEnd);
      case Or(x, y) =>
        ConnectivesArePropositional(x, vars, truth);
        ConnectivesArePropositional(y, vars, truth);
        OrTable(x, y, vars, Reading(y, truth), UnexpectedEnd);
      case _ =>
    }
  }
}
