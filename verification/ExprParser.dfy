/**
 The expression parser: a recursive-descent parser over a token list, the grammar it is meant
 to accept, and that it accepts exactly that, with one tree for each token list.
 */
module ExprParser {
  import opened Basics
  import opened ExprSyntax

  // ---- What each parsing function does from a position ----

  /** The tree read, and the position of the next token. */
  type Parsed = Result<(Expr, nat), ExprError>

  ghost predicate Advances(r: Parsed, from: nat, bound: nat) {
    r.Ok? ==> from < r.value.1 <= bound
  }

  function ParseOr(ts: seq<Token>, i: nat): (r: Parsed)
    requires i <= |ts|
    ensures Advances(r, i, |ts|)
    decreases |ts| - i, 9
  {
    match ParseAnd(ts, i)
    case Err(e) => Err(e)
    case Ok((left, j)) => OrTail(ts, left, j)
  }

  /** `|| and || and ...`, folded to the left onto what came before. */
  function OrTail(ts: seq<Token>, left: Expr, i: nat): (r: Parsed)
    requires i <= |ts|
    ensures r.Ok? ==> i <= r.value.1 <= |ts|
    decreases |ts| - i, 10
  {
    if i == |ts| || ts[i] != OrOr then Ok((left, i))
    else match ParseAnd(ts, i + 1)
      case Err(e) => Err(e)
      case Ok((right, j)) => OrTail(ts, Or(left, right), j)
  }

  function ParseAnd(ts: seq<Token>, i: nat): (r: Parsed)
    requires i <= |ts|
    ensures Advances(r, i, |ts|)
    decreases |ts| - i, 7
  {
    match ParseComparison(ts, i)
    case Err(e) => Err(e)
    case Ok((left, j)) => AndTail(ts, left, j)
  }

  function AndTail(ts: seq<Token>, left: Expr, i: nat): (r: Parsed)
    requires i <= |ts|
    ensures r.Ok? ==> i <= r.value.1 <= |ts|
    decreases |ts| - i, 8
  {
    if i == |ts| || ts[i] != AndAnd then Ok((left, i))
    else match ParseComparison(ts, i + 1)
      case Err(e) => Err(e)
      case Ok((right, j)) => AndTail(ts, And(left, right), j)
  }

  function ParseComparison(ts: seq<Token>, i: nat): (r: Parsed)
    requires i <= |ts|
    ensures Advances(r, i, |ts|)
    decreases |ts| - i, 5
  {
    match ParseUnary(ts, i)
    case Err(e) => Err(e)
    case Ok((left, j)) =>
      if j == |ts| || !ts[j].Compare? then Ok((left, j))
      else match ParseUnary(ts, j + 1)
        case Err(e) => Err(e)
        case Ok((right, k)) => Ok((Cmp(left, ts[j].op, right), k))
  }

  function ParseUnary(ts: seq<Token>, i: nat): (r: Parsed)
    requires i <= |ts|
    ensures Advances(r, i, |ts|)
    decreases |ts| - i, 3
  {
    if i < |ts| && ts[i] == Bang then
      match ParseUnary(ts, i + 1)
      case Err(e) => Err(e)
      case Ok((x, j)) => Ok((Not(x), j))
    else ParseAtom(ts, i)
  }

  /** The expression a single token stands for. */
  function AtomOf(t: Token): Option<Expr> {
    match t
    case True => Some(Lit(Bool(true)))
    case False => Some(Lit(Bool(false)))
    case IntTok(n) => Some(Lit(I64(n)))
    case FloatTok(r) => Some(Lit(F64(r)))
    case StrTok(s) => Some(Lit(String(s)))
    case Ident(name) => Some(Var(name))
    case _ => None
  }

  function ParseAtom(ts: seq<Token>, i: nat): (r: Parsed)
    requires i <= |ts|
    ensures Advances(r, i, |ts|)
    decreases |ts| - i, 1
  {
    if i == |ts| then Err(UnexpectedEnd)
    else if ts[i] == LParen then
      match ParseOr(ts, i + 1)
      case Err(e) => Err(e)
      case Ok((x, j)) => if j == |ts| || ts[j] != RParen then Err(ExpectedRParen) else Ok((x, j + 1))
    else match AtomOf(ts[i])
      case None => Err(UnexpectedToken(ts[i]))
      case Some(x) => Ok((x, i + 1))
  }

  /** No tokens at all is the condition that always holds; tokens left over are an error. */
  function ParseTokens(ts: seq<Token>): Result<Expr, ExprError> {
    if ts == [] then Ok(Lit(Bool(true)))
    else match ParseOr(ts, 0)
      case Err(e) => Err(e)
      case Ok((x, j)) => if j == |ts| then Ok(x) else Err(TrailingToken(j))
  }

  // ---- The parser as it runs ----

  class Parser {
    const tokens: seq<Token>
    var pos: nat

    constructor (ts: seq<Token>)
      ensures tokens == ts && pos == 0
    {
      tokens, pos := ts, 0;
    }

    function Peek(): Option<Token>
      reads this
    {
      if pos < |tokens| then Some(tokens[pos]) else None
    }

    /** Steps past the end too; only an error follows then. */
    method Advance() returns (t: Option<Token>)
      modifies this
      ensures t == old(Peek()) && pos == old(pos) + 1
    {
      t := Peek();
      pos := pos + 1;
    }

    /** The parser ended where `want` says, with its tree or its error. */
    ghost predicate Did(want: Parsed, r: Result<Expr, ExprError>)
      reads this
    {
      if want.Err? then r == Err(want.error) else r == Ok(want.value.0) && pos == want.value.1
    }

    method RunOr() returns (r: Result<Expr, ExprError>)
      requires pos <= |tokens|
      modifies this
      ensures Did(ParseOr(tokens, old(pos)), r)
      decreases |tokens| - pos, 9
    {
      r := RunAnd();
      if r.Err? {
        return;
      }
      var left := r.value;
      while Peek() == Some(OrOr)
        invariant old(pos) < pos <= |tokens|
        invariant ParseOr(tokens, old(pos)) == OrTail(tokens, left, pos)
        decreases |tokens| - pos
      {
        var _ := Advance();
        r := RunAnd();
        if r.Err? {
          return;
        }
        left := Or(left, r.value);
      }
      return Ok(left);
    }

    method RunAnd() returns (r: Result<Expr, ExprError>)
      requires pos <= |tokens|
      modifies this
      ensures Did(ParseAnd(tokens, old(pos)), r)
      decreases |tokens| - pos, 7
    {
      r := RunComparison();
      if r.Err? {
        return;
      }
      var left := r.value;
      while Peek() == Some(AndAnd)
        invariant old(pos) < pos <= |tokens|
        invariant ParseAnd(tokens, old(pos)) == AndTail(tokens, left, pos)
        decreases |tokens| - pos
      {
        var _ := Advance();
        r := RunComparison();
        if r.Err? {
          return;
        }
        left := And(left, r.value);
      }
      return Ok(left);
    }

    method RunComparison() returns (r: Result<Expr, ExprError>)
      requires pos <= |tokens|
      modifies this
      ensures Did(ParseComparison(tokens, old(pos)), r)
      decreases |tokens| - pos, 5
    {
      r := RunUnary();
      if r.Err? {
        return;
      }
      var left := r.value;
      var next := Peek();
      if next.None? || !next.value.Compare? {
        return;
      }
      var _ := Advance();
      r := RunUnary();
      if r.Ok? {
        r := Ok(Cmp(left, next.value.op, r.value));
      }
    }

    method RunUnary() returns (r: Result<Expr, ExprError>)
      requires pos <= |tokens|
      modifies this
      ensures Did(ParseUnary(tokens, old(pos)), r)
      decreases |tokens| - pos, 3
    {
      if Peek() == Some(Bang) {
        var _ := Advance();
        r := RunUnary();
        if r.Ok? {
          r := Ok(Not(r.value));
        }
        return;
      }
      r := RunAtom();
    }

    method RunAtom() returns (r: Result<Expr, ExprError>)
      requires pos <= |tokens|
      modifies this
      ensures Did(ParseAtom(tokens, old(pos)), r)
      decreases |tokens| - pos, 1
    {
      var t := Advance();
      if t.None? {
        return Err(UnexpectedEnd);
      }
      if t.value == LParen {
        r := RunOr();
        if r.Err? {
          return;
        }
        var close := Advance();
        if close != Some(RParen) {
          return Err(ExpectedRParen);
        }
        return;
      }
      var atom := AtomOf(t.value);
      if atom.None? {
        return Err(UnexpectedToken(t.value));
      }
      return Ok(atom.value);
    }
  }

  method RunParser(ts: seq<Token>) returns (r: Result<Expr, ExprError>)
    ensures r == ParseTokens(ts)
  {
    if ts == [] {
      return Ok(Lit(Bool(true)));
    }
    var p := new Parser(ts);
    r := p.RunOr();
    if r.Err? {
      return;
    }
    if p.pos != |p.tokens| {
      return Err(TrailingToken(p.pos));
    }
  }

  // ---- The grammar: which trees the tokens from `i` up to `j` may stand for ----

  ghost predicate DerOr(ts: seq<Token>, i: nat, j: nat, e: Expr)
    requires i <= j <= |ts|
    decreases j - i, 9
  {
    DerAnd(ts, i, j, e) ||
    (e.Or? && exists k | i <= k < j :: ts[k] == OrOr && DerOr(ts, i, k, e.left) && DerAnd(ts, k + 1, j, e.right))
  }

  ghost predicate DerAnd(ts: seq<Token>, i: nat, j: nat, e: Expr)
    requires i <= j <= |ts|
    decreases j - i, 7
  {
    DerComparison(ts, i, j, e) ||
    (e.And? && exists k | i <= k < j ::
        ts[k] == AndAnd && DerAnd(ts, i, k, e.left) && DerComparison(ts, k + 1, j, e.right))
  }

  ghost predicate DerComparison(ts: seq<Token>, i: nat, j: nat, e: Expr)
    requires i <= j <= |ts|
    decreases j - i, 5
  {
    DerUnary(ts, i, j, e) ||
    (e.Cmp? && exists k | i <= k < j ::
        ts[k] == Compare(e.op) && DerUnary(ts, i, k, e.lhs) && DerUnary(ts, k + 1, j, e.rhs))
  }

  ghost predicate DerUnary(ts: seq<Token>, i: nat, j: nat, e: Expr)
    requires i <= j <= |ts|
    decreases j - i, 3
  {
    DerAtom(ts, i, j, e) || (i < j && ts[i] == Bang && e.Not? && DerUnary(ts, i + 1, j, e.operand))
  }

  ghost predicate DerAtom(ts: seq<Token>, i: nat, j: nat, e: Expr)
    requires i <= j <= |ts|
    decreases j - i, 1
  {
    || (j == i + 1 && AtomOf(ts[i]) == Some(e))
    || (i + 2 <= j && ts[i] == LParen && ts[j - 1] == RParen && DerOr(ts, i + 1, j - 1, e))
  }

  // ---- Whatever is accepted is derived ----

  lemma {:induction false} OrSound(ts: seq<Token>, i: nat)
    requires i <= |ts| && ParseOr(ts, i).Ok?
    ensures DerOr(ts, i, ParseOr(ts, i).value.1, ParseOr(ts, i).value.0)
    decreases |ts| - i, 9
  {
    AndSound(ts, i);
    var (left, j) := ParseAnd(ts, i).value;
    OrTailSound(ts, i, left, j);
  }

  lemma {:induction false} OrTailSound(ts: seq<Token>, start: nat, left: Expr, i: nat)
    requires start < i <= |ts| && DerOr(ts, start, i, left) && OrTail(ts, left, i).Ok?
    ensures DerOr(ts, start, OrTail(ts, left, i).value.1, OrTail(ts, left, i).value.0)
    decreases |ts| - i, 10
  {
    if i < |ts| && ts[i] == OrOr {
      AndSound(ts, i + 1);
      var (right, j) := ParseAnd(ts, i + 1).value;
      assert DerOr(ts, start, j, Or(left, right));
      OrTailSound(ts, start, Or(left, right), j);
    }
  }

  lemma {:induction false} AndSound(ts: seq<Token>, i: nat)
    requires i <= |ts| && ParseAnd(ts, i).Ok?
    ensures DerAnd(ts, i, ParseAnd(ts, i).value.1, ParseAnd(ts, i).value.0)
    decreases |ts| - i, 7
  {
    ComparisonSound(ts, i);
    var (left, j) := ParseComparison(ts, i).value;
    AndTailSound(ts, i, left, j);
  }

  lemma {:induction false} AndTailSound(ts: seq<Token>, start: nat, left: Expr, i: nat)
    requires start < i <= |ts| && DerAnd(ts, start, i, left) && AndTail(ts, left, i).Ok?
    ensures DerAnd(ts, start, AndTail(ts, left, i).value.1, AndTail(ts, left, i).value.0)
    decreases |ts| - i, 8
  {
    if i < |ts| && ts[i] == AndAnd {
      ComparisonSound(ts, i + 1);
      var (right, j) := ParseComparison(ts, i + 1).value;
      assert DerAnd(ts, start, j, And(left, right));
      AndTailSound(ts, start, And(left, right), j);
    }
  }

  lemma {:induction false} ComparisonSound(ts: seq<Token>, i: nat)
    requires i <= |ts| && ParseComparison(ts, i).Ok?
    ensures DerComparison(ts, i, ParseComparison(ts, i).value.1, ParseComparison(ts, i).value.0)
    decreases |ts| - i, 5
  {
    UnarySound(ts, i);
    var (left, j) := ParseUnary(ts, i).value;
    if j < |ts| && ts[j].Compare? {
      UnarySound(ts, j + 1);
      assert ts[j] == Compare(ts[j].op);
    }
  }

  lemma {:induction false} UnarySound(ts: seq<Token>, i: nat)
    requires i <= |ts| && ParseUnary(ts, i).Ok?
    ensures DerUnary(ts, i, ParseUnary(ts, i).value.1, ParseUnary(ts, i).value.0)
    decreases |ts| - i, 3
  {
    if i < |ts| && ts[i] == Bang {
      UnarySound(ts, i + 1);
    } else {
      AtomSound(ts, i);
    }
  }

  lemma {:induction false} AtomSound(ts: seq<Token>, i: nat)
    requires i <= |ts| && ParseAtom(ts, i).Ok?
    ensures DerAtom(ts, i, ParseAtom(ts, i).value.1, ParseAtom(ts, i).value.0)
    decreases |ts| - i, 1
  {
    if ts[i] == LParen {
      OrSound(ts, i + 1);
    }
  }

  // ---- Whatever is derived is accepted ----

  /** The token at `j`, if any, does not continue a comparison. */
  predicate EndsComparison(ts: seq<Token>, j: nat) {
    j >= |ts| || !ts[j].Compare?
  }

  predicate EndsAnd(ts: seq<Token>, j: nat) {
    EndsComparison(ts, j) && (j >= |ts| || ts[j] != AndAnd)
  }

  lemma {:induction false} OrComplete(ts: seq<Token>, i: nat, j: nat, e: Expr)
    requires i <= j <= |ts| && DerOr(ts, i, j, e) && EndsAnd(ts, j)
    ensures ParseOr(ts, i) == OrTail(ts, e, j)
    decreases j - i, 9
  {
    if DerAnd(ts, i, j, e) {
      AndComplete(ts, i, j, e);
    } else {
      var k :| i <= k < j && ts[k] == OrOr && DerOr(ts, i, k, e.left) && DerAnd(ts, k + 1, j, e.right);
      OrComplete(ts, i, k, e.left);
      AndComplete(ts, k + 1, j, e.right);
    }
  }

  lemma {:induction false} AndComplete(ts: seq<Token>, i: nat, j: nat, e: Expr)
    requires i <= j <= |ts| && DerAnd(ts, i, j, e) && EndsComparison(ts, j)
    ensures ParseAnd(ts, i) == AndTail(ts, e, j)
    decreases j - i, 7
  {
    if DerComparison(ts, i, j, e) {
      ComparisonComplete(ts, i, j, e);
    } else {
      var k :| i <= k < j && ts[k] == AndAnd && DerAnd(ts, i, k, e.left) && DerComparison(ts, k + 1, j, e.right);
      AndComplete(ts, i, k, e.left);
      ComparisonComplete(ts, k + 1, j, e.right);
    }
  }

  lemma {:induction false} ComparisonComplete(ts: seq<Token>, i: nat, j: nat, e: Expr)
    requires i <= j <= |ts| && DerComparison(ts, i, j, e) && EndsComparison(ts, j)
    ensures ParseComparison(ts, i) == Ok((e, j))
    decreases j - i, 5
  {
    if DerUnary(ts, i, j, e) {
      UnaryComplete(ts, i, j, e);
    } else {
      var k :| i <= k < j && ts[k] == Compare(e.op) && DerUnary(ts, i, k, e.lhs) && DerUnary(ts, k + 1, j, e.rhs);
      UnaryComplete(ts, i, k, e.lhs);
      UnaryComplete(ts, k + 1, j, e.rhs);
    }
  }

  lemma {:induction false} UnaryComplete(ts: seq<Token>, i: nat, j: nat, e: Expr)
    requires i <= j <= |ts| && DerUnary(ts, i, j, e)
    ensures ParseUnary(ts, i) == Ok((e, j))
    decreases j - i, 3
  {
    if DerAtom(ts, i, j, e) {
      AtomComplete(ts, i, j, e);
    } else {
      UnaryComplete(ts, i + 1, j, e.operand);
    }
  }

  lemma {:induction false} AtomComplete(ts: seq<Token>, i: nat, j: nat, e: Expr)
    requires i <= j <= |ts| && DerAtom(ts, i, j, e)
    ensures ParseAtom(ts, i) == Ok((e, j))
    decreases j - i, 1
  {
    if !(j == i + 1 && AtomOf(ts[i]) == Some(e)) {
      OrComplete(ts, i + 1, j - 1, e);
    }
  }

  /** A non-empty token list is accepted exactly when the grammar derives it, with the tree the grammar gives. */
  lemma ParserAcceptsTheGrammar(ts: seq<Token>, e: Expr)
    requires ts != []
    ensures ParseTokens(ts) == Ok(e) <==> DerOr(ts, 0, |ts|, e)
  {
    if DerOr(ts, 0, |ts|, e) {
      OrComplete(ts, 0, |ts|, e);
    }
    if ParseTokens(ts) == Ok(e) {
      OrSound(ts, 0);
    }
  }

  /** The grammar is unambiguous. */
  lemma GrammarIsUnambiguous(ts: seq<Token>, e1: Expr, e2: Expr)
    requires DerOr(ts, 0, |ts|, e1) && DerOr(ts, 0, |ts|, e2)
    ensures e1 == e2
  {
    OrComplete(ts, 0, |ts|, e1);
    OrComplete(ts, 0, |ts|, e2);
  }
}
