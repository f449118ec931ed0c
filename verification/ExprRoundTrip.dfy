/** The text of a canonically printed expression, and what the parser makes of it. */
module ExprRoundTrip {
  import opened Basics
  import opened ExprSyntax
  import opened ExprParser
  import opened ExprPrinter
  import opened ExprLexer

  // ---- Which tokens and expressions have a text ----

  predicate LegalToken(t: Token, unicode: char -> bool) {
    match t
    case IntTok(n) => I64_MIN <= n <= I64_MAX
    case StrTok(s) => '"' !in s || '\'' !in s
    case Ident(name) => LegalName(name, unicode)
    case _ => true
  }

  predicate LegalName(name: string, unicode: char -> bool) {
    && name != "" && !IsDigit(name[0])
    && (forall c | c in name :: IsWord(c, unicode))
    && name != "true" && name != "false"
  }

  predicate LegalExpr(e: Expr, unicode: char -> bool) {
    match e
    case Var(_) => LegalToken(TokenOf(e), unicode)
    case Lit(_) => LegalToken(TokenOf(e), unicode)
    case Not(x) => LegalExpr(x, unicode)
    case And(a, b) => LegalExpr(a, unicode) && LegalExpr(b, unicode)
    case Or(a, b) => LegalExpr(a, unicode) && LegalExpr(b, unicode)
    case Cmp(a, _, b) => LegalExpr(a, unicode) && LegalExpr(b, unicode)
  }

  predicate FloatFree(e: Expr) {
    match e
    case Var(_) => true
    case Lit(v) => !v.F64?
    case Not(x) => FloatFree(x)
    case And(a, b) => FloatFree(a) && FloatFree(b)
    case Or(a, b) => FloatFree(a) && FloatFree(b)
    case Cmp(a, _, b) => FloatFree(a) && FloatFree(b)
  }

  // ---- Text ----

  function DigitChar(d: nat): char
    requires d < 10
  {
    ('0' as nat + d) as char
  }

  function Digits(n: nat): (s: string)
    ensures s != "" && AllDigits(s)
  {
    if n < 10 then [DigitChar(n)] else Digits(n / 10) + [DigitChar(n % 10)]
  }

  lemma {:induction false} DigitsReadBack(n: nat)
    ensures NatOf(Digits(n)) == n
  {
    var s := Digits(n);
    if n >= 10 {
      assert s[..|s| - 1] == Digits(n / 10) && s[|s| - 1] == DigitChar(n % 10);
      DigitsReadBack(n / 10);
    } else {
      assert s[..0] == "";
    }
  }

  function QuoteFor(s: string): char {
    if '"' in s then '\'' else '"'
  }

  function OperatorText(op: CmpOp): string {
    match op
    case Eq => "=="
    case Ne => "!="
    case Lt => "<"
    case Le => "<="
    case Gt => ">"
    case Ge => ">="
  }

  function Text(t: Token): string
    requires !t.FloatTok?
  {
    match t
    case LParen => "("
    case RParen => ")"
    case AndAnd => "&&"
    case OrOr => "||"
    case Bang => "!"
    case Compare(op) => OperatorText(op)
    case True => "true"
    case False => "false"
    case IntTok(n) => if n < 0 then "-" + Digits(-n) else Digits(n)
    case StrTok(s) => [QuoteFor(s)] + s + [QuoteFor(s)]
    case Ident(name) => name
  }

  ghost predicate Renderable(ts: seq<Token>, unicode: char -> bool) {
    forall t | t in ts :: LegalToken(t, unicode) && !t.FloatTok?
  }

  /** The tokens with a blank between them. */
  function Render(ts: seq<Token>): string
    requires forall t | t in ts :: !t.FloatTok?
  {
    if ts == [] then "" else if |ts| == 1 then Text(ts[0]) else Text(ts[0]) + " " + Render(ts[1..])
  }

  // ---- Reading one token back ----

  lemma ReadString(s: string, rest: string)
    requires '"' !in s || '\'' !in s
    ensures FirstString(Text(StrTok(s)) + rest) == Ok((Some(StrTok(s)), |s| + 2))
  {
    var q := QuoteFor(s);
    var all := Text(StrTok(s)) + rest;
    assert all[1..] == s + [q] + rest;
    forall i | 0 <= i < |s|
      ensures NotChar(q)(all[1..][i])
    {
      assert all[1..][i] == s[i] && s[i] in s;
    }
    RunIs(all[1..], NotChar(q), |s|);
    assert all[1..|s| + 1] == s;
  }

  lemma DigitsToken(negative: bool, ds: string)
    requires ds != "" && AllDigits(ds)
    requires I64_MIN <= (if negative then -(NatOf(ds) as int) else NatOf(ds)) <= I64_MAX
    ensures NumberToken(negative, ds) == Ok(IntTok(if negative then -(NatOf(ds) as int) else NatOf(ds)))
  {
    assert '.' !in ds;
  }

  lemma ReadDigits(ds: string, rest: string)
    requires ds != "" && AllDigits(ds) && (rest == "" || !IsNumeric(rest[0]))
    ensures Run(ds + rest, IsNumeric) == |ds|
  {
    forall i | 0 <= i < |ds|
      ensures IsNumeric((ds + rest)[i])
    {
      assert (ds + rest)[i] == ds[i] && ds[i] in ds;
    }
    RunIs(ds + rest, IsNumeric, |ds|);
  }

  /** The number that starts at `sign` in `all` is its run of digits `ds`. */
  lemma ReadRun(all: string, sign: nat, ds: string, rest: string)
    requires sign <= |all| && all[sign..] == ds + rest
    requires ds != "" && AllDigits(ds) && (rest == "" || !IsNumeric(rest[0]))
    ensures sign < |all| && IsDigit(all[sign])
    ensures Run(all[sign..], IsNumeric) == |ds| && all[sign..sign + |ds|] == ds
  {
    assert ds[0] in ds && all[sign] == all[sign..][0] == ds[0];
    ReadDigits(ds, rest);
    assert all[sign..][..|ds|] == ds;
  }

  lemma ReadNatural(ds: string, rest: string)
    requires ds != "" && AllDigits(ds) && (rest == "" || !IsNumeric(rest[0]))
    requires NatOf(ds) <= I64_MAX
    ensures StartsNumber(ds + rest)
    ensures FirstNumber(ds + rest) == Ok((Some(IntTok(NatOf(ds))), |ds|))
  {
    var all := ds + rest;
    assert all[0..] == all;
    ReadRun(all, 0, ds, rest);
    DigitsToken(false, ds);
  }

  lemma ReadNegative(all: string, ds: string, rest: string)
    requires |all| > 1 && all[0] == '-' && all[1..] == ds + rest
    requires ds != "" && AllDigits(ds) && (rest == "" || !IsNumeric(rest[0]))
    requires I64_MIN <= -(NatOf(ds) as int)
    ensures StartsNumber(all)
    ensures FirstNumber(all) == Ok((Some(IntTok(-(NatOf(ds) as int))), 1 + |ds|))
  {
    ReadRun(all, 1, ds, rest);
    DigitsToken(true, ds);
  }

  lemma ReadSigned(n: int, ds: string, text: string, rest: string)
    requires I64_MIN <= n <= I64_MAX && (rest == "" || !IsNumeric(rest[0]))
    requires ds != "" && AllDigits(ds) && NatOf(ds) == (if n < 0 then -n else n)
    requires text == if n < 0 then "-" + ds else ds
    ensures StartsNumber(text + rest)
    ensures FirstNumber(text + rest) == Ok((Some(IntTok(n)), |text|))
  {
    if n < 0 {
      assert (text + rest)[0] == '-' && (text + rest)[1..] == ds + rest;
      ReadNegative(text + rest, ds, rest);
    } else {
      ReadNatural(ds, rest);
    }
  }

  lemma ReadInt(n: int, rest: string)
    requires I64_MIN <= n <= I64_MAX && (rest == "" || !IsNumeric(rest[0]))
    ensures StartsNumber(Text(IntTok(n)) + rest)
    ensures FirstNumber(Text(IntTok(n)) + rest) == Ok((Some(IntTok(n)), |Text(IntTok(n))|))
  {
    var size := if n < 0 then -n else n;
    DigitsReadBack(size);
    ReadSigned(n, Digits(size), Text(IntTok(n)), rest);
  }

  lemma ReadWord(w: string, rest: string, unicode: char -> bool)
    requires w != "" && (forall c | c in w :: IsWord(c, unicode)) && (rest == "" || !IsWord(rest[0], unicode))
    ensures FirstWord(w + rest, unicode) == Ok((Some(WordToken(w)), |w|))
  {
    forall i | 0 <= i < |w|
      ensures Words(unicode)((w + rest)[i])
    {
      assert (w + rest)[i] == w[i] && w[i] in w;
    }
    RunIs(w + rest, Words(unicode), |w|);
    assert (w + rest)[..|w|] == w;
  }

  predicate IsPunctuation(t: Token) {
    t.LParen? || t.RParen? || t.AndAnd? || t.OrOr? || t.Bang? || t.Compare?
  }

  lemma ReadPunctuation(t: Token, rest: string)
    requires IsPunctuation(t) && (rest == "" || rest[0] == ' ')
    ensures IsOperator(Text(t)[0])
    ensures FirstOperator(Text(t)[0], NextChar(Text(t) + rest)) == Ok((Some(t), |Text(t)|))
  {
    var text := Text(t);
    assert |text| == 1 || |text| == 2;
    if |text| == 2 {
      assert NextChar(text + rest) == Some(text[1]);
    } else {
      assert NextChar(text + rest) == if rest == "" then None else Some(' ');
    }
  }

  lemma ReadPunctuationToken(t: Token, rest: string, unicode: char -> bool)
    requires IsPunctuation(t) && (rest == "" || rest[0] == ' ')
    ensures First(Text(t) + rest, unicode) == Ok((Some(t), |Text(t)|))
  {
    ReadPunctuation(t, rest);
    assert (Text(t) + rest)[0] == Text(t)[0];
  }

  lemma ReadQuotedToken(s: string, rest: string, unicode: char -> bool)
    requires '"' !in s || '\'' !in s
    ensures First(Text(StrTok(s)) + rest, unicode) == Ok((Some(StrTok(s)), |s| + 2))
  {
    ReadString(s, rest);
    assert (Text(StrTok(s)) + rest)[0] == QuoteFor(s);
  }

  lemma ReadIntToken(n: int, rest: string, unicode: char -> bool)
    requires I64_MIN <= n <= I64_MAX && (rest == "" || rest[0] == ' ')
    ensures First(Text(IntTok(n)) + rest, unicode) == Ok((Some(IntTok(n)), |Text(IntTok(n))|))
  {
    ReadInt(n, rest);
    var c := (Text(IntTok(n)) + rest)[0];
    assert IsDigit(c) || c == '-';
  }

  lemma ReadToken(t: Token, rest: string, unicode: char -> bool)
    requires LegalToken(t, unicode) && !t.FloatTok? && (rest == "" || rest[0] == ' ')
    ensures First(Text(t) + rest, unicode) == Ok((Some(t), |Text(t)|))
  {
    if IsPunctuation(t) {
      ReadPunctuationToken(t, rest, unicode);
    } else if t.StrTok? {
      ReadQuotedToken(t.s, rest, unicode);
    } else if t.IntTok? {
      ReadIntToken(t.n, rest, unicode);
    } else {
      ReadWordToken(t, rest, unicode);
    }
  }

  lemma ReadWordToken(t: Token, rest: string, unicode: char -> bool)
    requires t.Ident? || t.True? || t.False?
    requires LegalToken(t, unicode) && (rest == "" || rest[0] == ' ')
    ensures First(Text(t) + rest, unicode) == Ok((Some(t), |Text(t)|))
  {
    ReadWord(Text(t), rest, unicode);
    assert (Text(t) + rest)[0] == Text(t)[0] && Text(t)[0] in Text(t);
  }

  lemma LexesToken(t: Token, rest: string, unicode: char -> bool)
    requires LegalToken(t, unicode) && !t.FloatTok? && (rest == "" || rest[0] == ' ')
    ensures Lex(Text(t) + rest, unicode) == Prepend([t], Lex(rest, unicode))
  {
    ReadToken(t, rest, unicode);
    assert (Text(t) + rest)[|Text(t)|..] == rest;
  }

  lemma LexesAfterBlank(rest: string, unicode: char -> bool)
    ensures Lex(" " + rest, unicode) == Lex(rest, unicode)
  {
    var all := " " + rest;
    assert all[0..] == all && all[1..] == rest;
    LexSkips(all, 0, unicode);
  }

  lemma Associates(a: string, b: string, c: string)
    ensures a + b + c == a + (b + c)
  {
  }

  lemma LexesTokenAndBlank(t: Token, rest: string, unicode: char -> bool)
    requires LegalToken(t, unicode) && !t.FloatTok?
    ensures Lex(Text(t) + " " + rest, unicode) == Prepend([t], Lex(rest, unicode))
  {
    Associates(Text(t), " ", rest);
    LexesToken(t, " " + rest, unicode);
    LexesAfterBlank(rest, unicode);
  }

  /** The tokenizer undoes the rendering. */
  lemma {:induction false} RenderLexes(ts: seq<Token>, unicode: char -> bool)
    requires Renderable(ts, unicode)
    ensures Lex(Render(ts), unicode) == Ok(ts)
  {
    if |ts| == 1 {
      LexesToken(ts[0], "", unicode);
      assert Text(ts[0]) + "" == Text(ts[0]) && [ts[0]] + [] == ts;
    } else if ts != [] {
      LexesTokenAndBlank(ts[0], Render(ts[1..]), unicode);
      RenderLexes(ts[1..], unicode);
      assert [ts[0]] + ts[1..] == ts;
    }
  }

  lemma {:induction false} PrintRenderable(e: Expr, unicode: char -> bool)
    requires LegalExpr(e, unicode) && FloatFree(e)
    ensures Renderable(Print(e), unicode)
  {
    match e {
      case Or(a, b) => PrintRenderable(a, unicode); PrintRenderable(b, unicode);
      case And(a, b) => PrintRenderable(a, unicode); PrintRenderable(b, unicode);
      case Cmp(a, _, b) => PrintRenderable(a, unicode); PrintRenderable(b, unicode);
      case Not(x) => PrintRenderable(x, unicode);
      case _ =>
    }
  }

  /** Printing and parsing again changes nothing: no identifier, string, number or grouping is lost. */
  lemma ExpressionRoundTrip(e: Expr, unicode: char -> bool)
    requires LegalExpr(e, unicode) && FloatFree(e)
    ensures Renderable(Print(e), unicode)
    ensures ParseText(Render(Print(e)), unicode) == Ok(e)
  {
    PrintRenderable(e, unicode);
    RenderLexes(Print(e), unicode);
    PrintParses(e);
  }

  // ---- Whatever parses is legal ----

  lemma {:induction false} RunAll(s: string, p: char -> bool)
    ensures forall c | c in s[..Run(s, p)] :: p(c)
  {
    if s != "" && p(s[0]) {
      RunAll(s[1..], p);
      assert s[..Run(s, p)] == [s[0]] + s[1..][..Run(s[1..], p)];
    }
  }

  lemma FirstIsLegal(s: string, unicode: char -> bool)
    requires s != "" && First(s, unicode).Ok? && First(s, unicode).value.0.Some?
    ensures LegalToken(First(s, unicode).value.0.value, unicode)
  {
    var c := s[0];
    if c == '"' || c == '\'' {
      RunAll(s[1..], NotChar(c));
      var n := Run(s[1..], NotChar(c));
      assert s[1..n + 1] == s[1..][..n];
    } else if !IsSpace(c) && !IsOperator(c) && !StartsNumber(s) && IsWord(c, unicode) {
      RunAll(s, Words(unicode));
      var w := s[..Run(s, Words(unicode))];
      assert w[0] == c;
    }
  }

  lemma {:induction false} LexIsLegal(s: string, unicode: char -> bool)
    requires Lex(s, unicode).Ok?
    ensures forall t | t in Lex(s, unicode).value :: LegalToken(t, unicode)
    decreases |s|
  {
    if s != "" {
      var (t, n) := First(s, unicode).value;
      LexIsLegal(s[n..], unicode);
      if t.Some? {
        FirstIsLegal(s, unicode);
      }
    }
  }

  ghost predicate AllLegal(ts: seq<Token>, unicode: char -> bool) {
    forall t | t in ts :: LegalToken(t, unicode)
  }

  lemma {:induction false} DerivedIsLegal(ts: seq<Token>, i: nat, j: nat, e: Expr, p: nat, unicode: char -> bool)
    requires i <= j <= |ts| && 1 <= p <= 5 && AllLegal(ts, unicode) && DerAt(ts, i, j, e, p)
    ensures LegalExpr(e, unicode)
    decreases j - i, 5 - p
  {
    if p < 5 && DerAt(ts, i, j, e, p + 1) {
      DerivedIsLegal(ts, i, j, e, p + 1, unicode);
    } else if p == 1 {
      var k :| i <= k < j && ts[k] == OrOr && DerOr(ts, i, k, e.left) && DerAnd(ts, k + 1, j, e.right);
      DerivedIsLegal(ts, i, k, e.left, 1, unicode);
      DerivedIsLegal(ts, k + 1, j, e.right, 2, unicode);
    } else if p == 2 {
      var k :| i <= k < j && ts[k] == AndAnd && DerAnd(ts, i, k, e.left) && DerComparison(ts, k + 1, j, e.right);
      DerivedIsLegal(ts, i, k, e.left, 2, unicode);
      DerivedIsLegal(ts, k + 1, j, e.right, 3, unicode);
    } else if p == 3 {
      var k :| i <= k < j && ts[k] == Compare(e.op) && DerUnary(ts, i, k, e.lhs) && DerUnary(ts, k + 1, j, e.rhs);
      DerivedIsLegal(ts, i, k, e.lhs, 4, unicode);
      DerivedIsLegal(ts, k + 1, j, e.rhs, 4, unicode);
    } else if p == 4 {
      DerivedIsLegal(ts, i + 1, j, e.operand, 4, unicode);
    } else if j == i + 1 && AtomOf(ts[i]) == Some(e) {
      assert ts[i] in ts;
    } else {
      DerivedIsLegal(ts, i + 1, j - 1, e, 1, unicode);
    }
  }

  /** Some text means `e`. */
  ghost predicate HasText(e: Expr, unicode: char -> bool) {
    exists s :: ParseText(s, unicode) == Ok(e)
  }

  /**
   * A float-free expression is what some text means exactly when it is legal,
   * so the round trip leaves out nothing the parser can produce.
   */
  lemma FloatFreeIsParsedIffLegal(e: Expr, unicode: char -> bool)
    requires FloatFree(e)
    ensures HasText(e, unicode) <==> LegalExpr(e, unicode)
  {
    if LegalExpr(e, unicode) {
      ExpressionRoundTrip(e, unicode);
      assert ParseText(Render(Print(e)), unicode) == Ok(e);
    }
    if HasText(e, unicode) {
      var s :| ParseText(s, unicode) == Ok(e);
      var ts := Lex(s, unicode).value;
      LexIsLegal(s, unicode);
      if ts != [] {
        ParserAcceptsTheGrammar(ts, e);
        DerivedIsLegal(ts, 0, |ts|, e, 1, unicode);
      }
    }
  }
}
