/** The canonical printer: parentheses only where precedence or left associativity asks for them. */
module ExprPrinter {
  import opened Basics
  import opened ExprSyntax
  import opened ExprParser

  /** Binding strength, loosest first: or, and, comparison, not, atom. */
  function Level(e: Expr): nat {
    match e
    case Or(_, _) => 1
    case And(_, _) => 2
    case Cmp(_, _, _) => 3
    case Not(_) => 4
    case _ => 5
  }

  function TokenOf(e: Expr): Token
    requires e.Var? || e.Lit?
  {
    match e
    case Var(name) => Ident(name)
    case Lit(Bool(b)) => if b then True else False
    case Lit(I64(n)) => IntTok(n)
    case Lit(F64(r)) => FloatTok(r)
    case Lit(String(s)) => StrTok(s)
  }

  function Print(e: Expr): (ts: seq<Token>)
    ensures ts != []
    decreases e, 0
  {
    match e
    case Or(a, b) => PrintAt(a, 1) + [OrOr] + PrintAt(b, 2)
    case And(a, b) => PrintAt(a, 2) + [AndAnd] + PrintAt(b, 3)
    case Cmp(a, op, b) => PrintAt(a, 4) + [Compare(op)] + PrintAt(b, 4)
    case Not(x) => [Bang] + PrintAt(x, 4)
    case _ => [TokenOf(e)]
  }

  /** Print an operand in a place that takes level `p` and tighter. */
  function PrintAt(e: Expr, p: nat): (ts: seq<Token>)
    ensures ts != []
    decreases e, 1
  {
    if Level(e) >= p then Print(e) else [LParen] + Print(e) + [RParen]
  }

  /** The tokens from `i` up to `j` derive `e` at level `p`. */
  ghost predicate DerAt(ts: seq<Token>, i: nat, j: nat, e: Expr, p: nat)
    requires i <= j <= |ts|
  {
    match p
    case 1 => DerOr(ts, i, j, e)
    case 2 => DerAnd(ts, i, j, e)
    case 3 => DerComparison(ts, i, j, e)
    case 4 => DerUnary(ts, i, j, e)
    case _ => DerAtom(ts, i, j, e)
  }

  /** Wherever the printed form of `e` sits, it derives `e`, at the level of `e`. */
  lemma {:induction false} PrintDerives(ts: seq<Token>, i: nat, j: nat, e: Expr)
    requires i <= j <= |ts| && ts[i..j] == Print(e)
    ensures DerAt(ts, i, j, e, Level(e))
    decreases e, 0
  {
    match e {
      case Or(a, b) =>
        var k := i + |PrintAt(a, 1)|;
        SplitAt(ts, i, j, PrintAt(a, 1), OrOr, PrintAt(b, 2));
        PrintAtDerives(ts, i, k, a, 1);
        PrintAtDerives(ts, k + 1, j, b, 2);
      case And(a, b) =>
        var k := i + |PrintAt(a, 2)|;
        SplitAt(ts, i, j, PrintAt(a, 2), AndAnd, PrintAt(b, 3));
        PrintAtDerives(ts, i, k, a, 2);
        PrintAtDerives(ts, k + 1, j, b, 3);
      case Cmp(a, op, b) =>
        var k := i + |PrintAt(a, 4)|;
        SplitAt(ts, i, j, PrintAt(a, 4), Compare(op), PrintAt(b, 4));
        PrintAtDerives(ts, i, k, a, 4);
        PrintAtDerives(ts, k + 1, j, b, 4);
      case Not(x) =>
        assert ts[i..j][0] == ts[i] && ts[i..j][1..] == ts[i + 1..j];
        PrintAtDerives(ts, i + 1, j, x, 4);
      case _ =>
        assert ts[i..j][0] == ts[i];
    }
  }

  lemma SplitAt(ts: seq<Token>, i: nat, j: nat, a: seq<Token>, t: Token, b: seq<Token>)
    requires i <= j <= |ts| && ts[i..j] == a + [t] + b
    ensures i + |a| < j && ts[i..i + |a|] == a && ts[i + |a|] == t && ts[i + |a| + 1..j] == b
  {
    var s := ts[i..j];
    assert |s| == |a| + 1 + |b|;
    assert s[..|a|] == a && s[|a|] == t && s[|a| + 1..] == b;
  }

  lemma {:induction false} PrintAtDerives(ts: seq<Token>, i: nat, j: nat, e: Expr, p: nat)
    requires i <= j <= |ts| && 1 <= p <= 4 && ts[i..j] == PrintAt(e, p)
    ensures DerAt(ts, i, j, e, p)
    decreases e, 1
  {
    if Level(e) >= p {
      PrintDerives(ts, i, j, e);
      DerLoosens(ts, i, j, e, Level(e), p);
    } else {
      var s := ts[i..j];
      assert s == [LParen] + Print(e) + [RParen] && |s| == j - i;
      assert forall k | i < k < j - 1 :: ts[k] == s[k - i];
      assert s[1..|s| - 1] == Print(e);
      assert ts[i + 1..j - 1] == Print(e);
      assert s[0] == ts[i] && s[|s| - 1] == ts[j - 1];
      PrintDerives(ts, i + 1, j - 1, e);
      DerLoosens(ts, i + 1, j - 1, e, Level(e), 1);
      DerLoosens(ts, i, j, e, 5, p);
    }
  }

  /** A tighter derivation is a looser one too. */
  lemma {:induction false} DerLoosens(ts: seq<Token>, i: nat, j: nat, e: Expr, from: nat, to: nat)
    requires i <= j <= |ts| && 1 <= to <= from <= 5 && DerAt(ts, i, j, e, from)
    ensures DerAt(ts, i, j, e, to)
    decreases from - to
  {
    if to < from {
      DerLoosens(ts, i, j, e, from - 1, to);
    }
  }

  /** The printed form parses back to the expression it was printed from. */
  lemma PrintParses(e: Expr)
    ensures ParseTokens(Print(e)) == Ok(e)
  {
    var ts := Print(e);
    assert ts[0..|ts|] == ts;
    PrintDerives(ts, 0, |ts|, e);
    DerLoosens(ts, 0, |ts|, e, Level(e), 1);
    ParserAcceptsTheGrammar(ts, e);
  }

  // ---- No shorter text means the same ----

  lemma {:induction false} OrNoShorter(ts: seq<Token>, i: nat, j: nat, e: Expr)
    requires i <= j <= |ts| && DerOr(ts, i, j, e)
    ensures |PrintAt(e, 1)| <= j - i
    decreases j - i, 9
  {
    if DerAnd(ts, i, j, e) {
      AndNoShorter(ts, i, j, e);
    } else {
      var k :| i <= k < j && ts[k] == OrOr && DerOr(ts, i, k, e.left) && DerAnd(ts, k + 1, j, e.right);
      OrNoShorter(ts, i, k, e.left);
      AndNoShorter(ts, k + 1, j, e.right);
    }
  }

  lemma {:induction false} AndNoShorter(ts: seq<Token>, i: nat, j: nat, e: Expr)
    requires i <= j <= |ts| && DerAnd(ts, i, j, e)
    ensures |PrintAt(e, 2)| <= j - i
    decreases j - i, 7
  {
    if DerComparison(ts, i, j, e) {
      ComparisonNoShorter(ts, i, j, e);
    } else {
      var k :| i <= k < j && ts[k] == AndAnd && DerAnd(ts, i, k, e.left) && DerComparison(ts, k + 1, j, e.right);
      AndNoShorter(ts, i, k, e.left);
      ComparisonNoShorter(ts, k + 1, j, e.right);
    }
  }

  lemma {:induction false} ComparisonNoShorter(ts: seq<Token>, i: nat, j: nat, e: Expr)
    requires i <= j <= |ts| && DerComparison(ts, i, j, e)
    ensures |PrintAt(e, 3)| <= j - i
    decreases j - i, 5
  {
    if DerUnary(ts, i, j, e) {
      UnaryNoShorter(ts, i, j, e);
    } else {
      var k :| i <= k < j && ts[k] == Compare(e.op) && DerUnary(ts, i, k, e.lhs) && DerUnary(ts, k + 1, j, e.rhs);
      UnaryNoShorter(ts, i, k, e.lhs);
      UnaryNoShorter(ts, k + 1, j, e.rhs);
    }
  }

  lemma {:induction false} UnaryNoShorter(ts: seq<Token>, i: nat, j: nat, e: Expr)
    requires i <= j <= |ts| && DerUnary(ts, i, j, e)
    ensures |PrintAt(e, 4)| <= j - i
    decreases j - i, 3
  {
    if DerAtom(ts, i, j, e) {
      AtomNoShorter(ts, i, j, e);
    } else {
      UnaryNoShorter(ts, i + 1, j, e.operand);
    }
  }

  lemma {:induction false} AtomNoShorter(ts: seq<Token>, i: nat, j: nat, e: Expr)
    requires i <= j <= |ts| && DerAtom(ts, i, j, e)
    ensures |PrintAt(e, 5)| <= j - i
    decreases j - i, 1
  {
    if !(j == i + 1 && AtomOf(ts[i]) == Some(e)) {
      OrNoShorter(ts, i + 1, j - 1, e);
    }
  }

  /** Among all the token lists that parse to an expression, the printed one is as short as any. */
  lemma PrintIsShortest(ts: seq<Token>, e: Expr)
    requires ts != [] && ParseTokens(ts) == Ok(e)
    ensures |Print(e)| <= |ts|
  {
    ParserAcceptsTheGrammar(ts, e);
    OrNoShorter(ts, 0, |ts|, e);
  }
}
