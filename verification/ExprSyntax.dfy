/** The rule-condition expression language: values, expressions, tokens, and evaluation. */
module ExprSyntax {
  import opened Basics

  /** Doubles are read as reals. */
  datatype Value = Bool(b: bool) | I64(n: int) | F64(r: real) | String(s: string)

  datatype CmpOp = Eq | Ne | Lt | Le | Gt | Ge
  {
    function Flip(): CmpOp {
      match this
      case Eq => Eq
      case Ne => Ne
      case Lt => Gt
      case Le => Ge
      case Gt => Lt
      case Ge => Le
    }
  }

  datatype Expr =
    | Var(name: string)
    | Lit(value: Value)
    | Not(operand: Expr)
    | And(left: Expr, right: Expr)
    | Or(left: Expr, right: Expr)
    | Cmp(lhs: Expr, op: CmpOp, rhs: Expr)

  datatype Token =
    | LParen | RParen
    | AndAnd | OrOr | Bang
    | Compare(op: CmpOp)
    | True | False
    | IntTok(n: int)
    | FloatTok(r: real)
    | StrTok(s: string)
    | Ident(name: string)

  const I64_MIN := -0x8000_0000_0000_0000
  const I64_MAX := 0x7fff_ffff_ffff_ffff

  datatype ExprError =
    | ExpectedAndAnd | ExpectedOrOr | ExpectedEqEq
    | UnterminatedString | InvalidFloat | InvalidInteger | UnexpectedCharacter(c: char)
    | ExpectedRParen | UnexpectedToken(token: Token) | UnexpectedEnd | TrailingToken(position: nat)
    | UndefinedVariable(name: string) | ExpectedBool(got: Value)
    | CannotOrderBools(op: CmpOp) | CannotCompare(lhs: Value, rhs: Value)

  // ---- Evaluation ----

  function AsBool(v: Value): Result<bool, ExprError> {
    if v.Bool? then Ok(v.b) else Err(ExpectedBool(v))
  }

  predicate CmpReals(a: real, op: CmpOp, b: real) {
    match op
    case Eq => a == b
    case Ne => a != b
    case Lt => a < b
    case Le => a <= b
    case Gt => a > b
    case Ge => a >= b
  }

  predicate CmpStrings(a: string, op: CmpOp, b: string) {
    match op
    case Eq => a == b
    case Ne => a != b
    case Lt => StringLess(a, b)
    case Le => !StringLess(b, a)
    case Gt => StringLess(b, a)
    case Ge => !StringLess(a, b)
  }

  function CmpValues(l: Value, op: CmpOp, r: Value): Result<bool, ExprError>
    decreases l.F64? && r.I64?
  {
    match (l, r)
    case (I64(a), I64(b)) => Ok(CmpReals(a as real, op, b as real))
    case (F64(a), F64(b)) => Ok(CmpReals(a, op, b))
    case (I64(a), F64(b)) => Ok(CmpReals(a as real, op, b))
    case (F64(_), I64(_)) => CmpValues(r, op.Flip(), l)
    case (String(a), String(b)) => Ok(CmpStrings(a, op, b))
    case (Bool(a), Bool(b)) =>
      if op == Eq then Ok(a == b) else if op == Ne then Ok(a != b) else Err(CannotOrderBools(op))
    case _ => Err(CannotCompare(l, r))
  }

  function Eval(e: Expr, vars: map<string, Value>): Result<Value, ExprError>
    decreases e, 0
  {
    match e
    case Lit(v) => Ok(v)
    case Var(name) => if name in vars then Ok(vars[name]) else Err(UndefinedVariable(name))
    case Not(x) =>
      (match EvalBool(x, vars)
       case Err(err) => Err(err)
       case Ok(b) => Ok(Bool(!b)))
    case And(a, b) =>
      (match EvalBool(a, vars)
       case Err(err) => Err(err)
       case Ok(l) => if !l then Ok(Bool(false)) else
         match EvalBool(b, vars)
         case Err(err) => Err(err)
         case Ok(r) => Ok(Bool(r)))
    case Or(a, b) =>
      (match EvalBool(a, vars)
       case Err(err) => Err(err)
       case Ok(l) => if l then Ok(Bool(true)) else
         match EvalBool(b, vars)
         case Err(err) => Err(err)
         case Ok(r) => Ok(Bool(r)))
    case Cmp(a, op, b) =>
      match Eval(a, vars)
      case Err(err) => Err(err)
      case Ok(l) =>
        match Eval(b, vars)
        case Err(err) => Err(err)
        case Ok(r) =>
          match CmpValues(l, op, r)
          case Err(err) => Err(err)
          case Ok(c) => Ok(Bool(c))
  }

  function EvalBool(e: Expr, vars: map<string, Value>): Result<bool, ExprError>
    decreases e, 1
  {
    match Eval(e, vars)
    case Err(err) => Err(err)
    case Ok(v) => AsBool(v)
  }

  /** Every variable occurrence, left to right. */
  function ReferencedVars(e: Expr): seq<string> {
    match e
    case Var(name) => [name]
    case Lit(_) => []
    case Not(x) => ReferencedVars(x)
    case And(a, b) => ReferencedVars(a) + ReferencedVars(b)
    case Or(a, b) => ReferencedVars(a) + ReferencedVars(b)
    case Cmp(a, _, b) => ReferencedVars(a) + ReferencedVars(b)
  }

  /** Swapping the sides of a comparison and flipping its operator changes nothing but the text of an error. */
  lemma CmpFlips(l: Value, op: CmpOp, r: Value)
    ensures CmpValues(l, op, r).Ok? <==> CmpValues(r, op.Flip(), l).Ok?
    ensures CmpValues(l, op, r).Ok? ==> CmpValues(r, op.Flip(), l).value == CmpValues(l, op, r).value
    ensures op.Flip().Flip() == op
  {
    if l.String? && r.String? {
      StringLessTotal(l.s, r.s);
    }
  }

  /** Mixed numbers compare as the numbers they are, so the six operators keep their usual meaning across types. */
  lemma CmpIsAnOrder(l: Value, r: Value)
    requires !l.Bool? && !r.Bool? && CmpValues(l, Eq, r).Ok?
    ensures forall op :: CmpValues(l, op, r).Ok?
    ensures CmpValues(l, Ne, r).value == !CmpValues(l, Eq, r).value
    ensures CmpValues(l, Ge, r).value == !CmpValues(l, Lt, r).value
    ensures CmpValues(l, Le, r).value == !CmpValues(l, Gt, r).value
    ensures CmpValues(l, Le, r).value == (CmpValues(l, Lt, r).value || CmpValues(l, Eq, r).value)
    ensures CmpValues(l, Eq, r).value ==> !CmpValues(l, Lt, r).value
  {
    if l.String? && r.String? {
      StringLessTotal(l.s, r.s);
      StringLessTotal(r.s, l.s);
    }
  }

  /** Evaluation reads no variable but those referenced. */
  lemma {:induction false} EvalReadsReferencedVars(e: Expr, v1: map<string, Value>, v2: map<string, Value>)
    requires forall x | x in ReferencedVars(e) :: Get(v1, x) == Get(v2, x)
    ensures Eval(e, v1) == Eval(e, v2)
  {
    match e {
      case Var(name) => assert name in ReferencedVars(e) && Get(v1, name) == Get(v2, name);
      case Lit(_) =>
      case Not(x) => EvalReadsReferencedVars(x, v1, v2);
      case And(a, b) => EvalReadsReferencedVars(a, v1, v2); EvalReadsReferencedVars(b, v1, v2);
      case Or(a, b) => EvalReadsReferencedVars(a, v1, v2); EvalReadsReferencedVars(b, v1, v2);
      case Cmp(a, _, b) => EvalReadsReferencedVars(a, v1, v2); EvalReadsReferencedVars(b, v1, v2);
    }
  }
}
