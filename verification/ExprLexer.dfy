/** The tokenizer, and the text of a canonically printed expression. */
module ExprLexer {
  import opened Basics
  import opened ExprSyntax
  import opened ExprParser

  predicate IsDigit(c: char) {
    '0' <= c <= '9'
  }

  predicate AllDigits(s: string) {
    forall c | c in s :: IsDigit(c)
  }

  predicate IsSpace(c: char) {
    c == ' ' || c == '\t' || c == '\n' || c == '\r'
  }

  /** Letters and digits; beyond ASCII, whatever `unicode` says is one. */
  predicate IsWord(c: char, unicode: char -> bool) {
    IsDigit(c) || 'a' <= c <= 'z' || 'A' <= c <= 'Z' || c == '_' || (c as int > 127 && unicode(c))
  }

  predicate IsNumeric(c: char) {
    IsDigit(c) || c == '.'
  }

  // ---- Runs of characters ----

  /** How many leading characters satisfy `p`. */
  function Run(s: string, p: char -> bool): (n: nat)
    ensures n <= |s|
  {
    if s == "" || !p(s[0]) then 0 else 1 + Run(s[1..], p)
  }

  lemma {:induction false} RunIs(s: string, p: char -> bool, n: nat)
    requires n <= |s| && (forall i | 0 <= i < n :: p(s[i])) && (n == |s| || !p(s[n]))
    ensures Run(s, p) == n
  {
    if n > 0 {
      RunIs(s[1..], p, n - 1);
    }
  }

  // ---- Numbers ----

  function Digit(c: char): nat
    requires IsDigit(c)
  {
    c as nat - '0' as nat
  }

  function NatOf(s: string): nat
    requires AllDigits(s)
  {
    if s == "" then 0 else NatOf(s[..|s| - 1]) * 10 + Digit(s[|s| - 1])
  }

  function Power10(n: nat): nat {
    if n == 0 then 1 else 10 * Power10(n - 1)
  }

  lemma {:induction false} Power10Positive(n: nat)
    ensures Power10(n) > 0
  {
    if n > 0 {
      Power10Positive(n - 1);
    }
  }

  /** A run of digits and dots is a double exactly when it has one dot. */
  function FloatOf(s: string): Result<real, ExprError> {
    var k := Run(s, IsDigit);
    if k < |s| && s[k] == '.' && AllDigits(s[k + 1..]) then
      RunIsAllDigits(s);
      Power10Positive(|s| - k - 1);
      Ok(NatOf(s[..k]) as real + NatOf(s[k + 1..]) as real / Power10(|s| - k - 1) as real)
    else Err(InvalidFloat)
  }

  lemma {:induction false} RunIsAllDigits(s: string)
    ensures AllDigits(s[..Run(s, IsDigit)])
  {
    if s != "" && IsDigit(s[0]) {
      RunIsAllDigits(s[1..]);
      assert s[..Run(s, IsDigit)] == [s[0]] + s[1..][..Run(s[1..], IsDigit)];
    }
  }

  /** The token for a number's text: a leading minus, then digits and dots. */
  function NumberToken(negative: bool, body: string): Result<Token, ExprError> {
    if '.' in body then
      match FloatOf(body)
      case Err(e) => Err(e)
      case Ok(r) => Ok(FloatTok(if negative then -r else r))
    else if body != "" && AllDigits(body) then
      var n := if negative then -(NatOf(body) as int) else NatOf(body);
      if I64_MIN <= n <= I64_MAX then Ok(IntTok(n)) else Err(InvalidInteger)
    else Err(InvalidInteger)
  }

  // ---- The tokenizer ----

  type Lexed = Result<seq<Token>, ExprError>

  function Prepend(ts: seq<Token>, r: Lexed): Lexed {
    match r
    case Err(e) => Err(e)
    case Ok(rest) => Ok(ts + rest)
  }

  predicate StartsNumber(s: string) {
    s != "" && (IsDigit(s[0]) || (s[0] == '-' && |s| > 1 && IsDigit(s[1])))
  }

  function WordToken(w: string): Token {
    if w == "true" then True else if w == "false" then False else Ident(w)
  }

  function NotChar(c: char): char -> bool {
    d => d != c
  }

  function Words(unicode: char -> bool): char -> bool {
    d => IsWord(d, unicode)
  }

  predicate IsOperator(c: char) {
    c in "()!&|=<>"
  }

  /** A token and how much text it takes; no token for a blank. */
  type FirstToken = Result<(Option<Token>, nat), ExprError>

  function FirstOperator(c: char, next: Option<char>): FirstToken
    requires IsOperator(c)
  {
    var twice := next == Some(c);
    var equals := next == Some('=');
    match c
    case '(' => Ok((Some(LParen), 1))
    case ')' => Ok((Some(RParen), 1))
    case '!' => if equals then Ok((Some(Compare(Ne)), 2)) else Ok((Some(Bang), 1))
    case '&' => if twice then Ok((Some(AndAnd), 2)) else Err(ExpectedAndAnd)
    case '|' => if twice then Ok((Some(OrOr), 2)) else Err(ExpectedOrOr)
    case '=' => if twice then Ok((Some(Compare(Eq)), 2)) else Err(ExpectedEqEq)
    case '<' => if equals then Ok((Some(Compare(Le)), 2)) else Ok((Some(Compare(Lt)), 1))
    case _ => if equals then Ok((Some(Compare(Ge)), 2)) else Ok((Some(Compare(Gt)), 1))
  }

  function FirstString(s: string): FirstToken
    requires s != ""
  {
    var n := Run(s[1..], NotChar(s[0]));
    if n == |s| - 1 then Err(UnterminatedString) else Ok((Some(StrTok(s[1..n + 1])), n + 2))
  }

  function FirstNumber(s: string): FirstToken
    requires StartsNumber(s)
  {
    var sign := if s[0] == '-' then 1 else 0;
    var n := Run(s[sign..], IsNumeric);
    match NumberToken(s[0] == '-', s[sign..sign + n])
    case Err(e) => Err(e)
    case Ok(t) => Ok((Some(t), sign + n))
  }

  function FirstWord(s: string, unicode: char -> bool): FirstToken {
    var n := Run(s, Words(unicode));
    Ok((Some(WordToken(s[..n])), n))
  }

  function NextChar(s: string): Option<char> {
    if |s| > 1 then Some(s[1]) else None
  }

  /** The token `s` starts with. */
  function First(s: string, unicode: char -> bool): (r: FirstToken)
    requires s != ""
    ensures r.Ok? ==> 0 < r.value.1 <= |s|
  {
    var c := s[0];
    if IsSpace(c) then Ok((None, 1))
    else if IsOperator(c) then FirstOperator(c, NextChar(s))
    else if c == '"' || c == '\'' then FirstString(s)
    else if StartsNumber(s) then FirstNumber(s)
    else if IsWord(c, unicode) then FirstWord(s, unicode)
    else Err(UnexpectedCharacter(c))
  }

  function Lex(s: string, unicode: char -> bool): Lexed
    decreases |s|
  {
    if s == "" then Ok([])
    else match First(s, unicode)
      case Err(e) => Err(e)
      case Ok((t, n)) => Prepend(if t.Some? then [t.value] else [], Lex(s[n..], unicode))
  }

  function ParseText(s: string, unicode: char -> bool): Result<Expr, ExprError> {
    match Lex(s, unicode)
    case Err(e) => Err(e)
    case Ok(ts) => ParseTokens(ts)
  }

  // ---- The tokenizer as it runs ----

  lemma PrependPrepend(a: seq<Token>, b: seq<Token>, r: Lexed)
    ensures Prepend(a + b, r) == Prepend(a, Prepend(b, r))
  {
    if r.Ok? {
      assert a + b + r.value == a + (b + r.value);
    }
  }

  /** Reads on from `from` while `p` holds, pushing what it reads. */
  method TakeRun(s: string, from: nat, p: char -> bool) returns (taken: string, i: nat)
    requires from <= |s|
    ensures i == from + Run(s[from..], p) && i <= |s| && taken == s[from..i]
  {
    taken, i := "", from;
    while i < |s| && p(s[i])
      invariant from <= i <= |s| && taken == s[from..i]
      invariant from + Run(s[from..], p) == i + Run(s[i..], p)
    {
      assert s[i..][1..] == s[i + 1..];
      taken := taken + [s[i]];
      i := i + 1;
    }
  }

  lemma LexSkips(s: string, i: nat, unicode: char -> bool)
    requires i < |s| && IsSpace(s[i])
    ensures Lex(s[i..], unicode) == Lex(s[i + 1..], unicode)
  {
    var rest := s[i..];
    assert rest[1..] == s[i + 1..];
    var r := Lex(rest[1..], unicode);
    assert r.Ok? ==> [] + r.value == r.value;
  }

  lemma LexAdvances(s: string, i: nat, t: Result<Token, ExprError>, n: nat, unicode: char -> bool)
    requires i < |s| && i <= n && First(s[i..], unicode) == Taken(t, i, n)
    ensures t.Err? ==> Lex(s[i..], unicode) == Err(t.error)
    ensures t.Ok? ==> n <= |s| && Lex(s[i..], unicode) == Prepend([t.value], Lex(s[n..], unicode))
  {
    if t.Ok? {
      assert s[i..][n - i..] == s[n..];
    }
  }

  method Tokenize(input: string, unicode: char -> bool) returns (r: Lexed)
    ensures r == Lex(input, unicode)
  {
    var tokens: seq<Token> := [];
    var i := 0;
    assert Lex(input, unicode) == Prepend([], Lex(input[0..], unicode)) by {
      assert input[0..] == input;
      assert Lex(input, unicode).Ok? ==> [] + Lex(input, unicode).value == Lex(input, unicode).value;
    }
    while i < |input|
      invariant i <= |input|
      invariant Lex(input, unicode) == Prepend(tokens, Lex(input[i..], unicode))
    {
      if IsSpace(input[i]) {
        LexSkips(input, i, unicode);
        i := i + 1;
        continue;
      }
      var t, n := NextToken(input, i, unicode);
      LexAdvances(input, i, t, n, unicode);
      if t.Err? {
        return Err(t.error);
      }
      PrependPrepend(tokens, [t.value], Lex(input[n..], unicode));
      tokens, i := tokens + [t.value], n;
    }
    assert tokens + [] == tokens;
    return Ok(tokens);
  }

  method NextOperator(input: string, i: nat) returns (t: Result<Token, ExprError>, n: nat)
    requires i < |input| && IsOperator(input[i])
    ensures n > i && FirstOperator(input[i], NextChar(input[i..])) == Taken(t, i, n)
  {
    var c := input[i];
    var next := if i + 1 < |input| then Some(input[i + 1]) else None;
    assert next == NextChar(input[i..]);
    n := i + 1;
    if c == '(' {
      t := Ok(LParen);
    } else if c == ')' {
      t := Ok(RParen);
    } else if c == '!' {
      t := Ok(Bang);
      if next == Some('=') {
        t, n := Ok(Compare(Ne)), i + 2;
      }
    } else if c == '&' {
      t, n := if next == Some('&') then Ok(AndAnd) else Err(ExpectedAndAnd), i + 2;
    } else if c == '|' {
      t, n := if next == Some('|') then Ok(OrOr) else Err(ExpectedOrOr), i + 2;
    } else if c == '=' {
      t, n := if next == Some('=') then Ok(Compare(Eq)) else Err(ExpectedEqEq), i + 2;
    } else if c == '<' {
      t := Ok(Compare(Lt));
      if next == Some('=') {
        t, n := Ok(Compare(Le)), i + 2;
      }
    } else {
      t := Ok(Compare(Gt));
      if next == Some('=') {
        t, n := Ok(Compare(Ge)), i + 2;
      }
    }
  }

  /** The outcome of a turn that started at `i` and left the cursor at `n`. */
  function Taken(t: Result<Token, ExprError>, i: nat, n: nat): FirstToken
    requires i <= n
  {
    match t
    case Err(e) => Err(e)
    case Ok(tok) => Ok((Some(tok), n - i))
  }

  method NextString(input: string, i: nat) returns (t: Result<Token, ExprError>, n: nat)
    requires i < |input|
    ensures n > i && FirstString(input[i..]) == Taken(t, i, n)
  {
    assert input[i..][1..] == input[i + 1..];
    var body, close := TakeRun(input, i + 1, NotChar(input[i]));
    if close == |input| {
      return Err(UnterminatedString), close;
    }
    assert body == input[i..][1..close - i];
    return Ok(StrTok(body)), close + 1;
  }

  method NextNumber(input: string, i: nat) returns (t: Result<Token, ExprError>, n: nat)
    requires i < |input| && StartsNumber(input[i..])
    ensures n > i && FirstNumber(input[i..]) == Taken(t, i, n)
  {
    var sign := if input[i] == '-' then 1 else 0;
    assert input[i..][sign..] == input[i + sign..];
    assert IsNumeric(input[i + sign..][0]);
    var body, end := TakeRun(input, i + sign, IsNumeric);
    assert body == input[i..][sign..end - i];
    return NumberToken(input[i] == '-', body), end;
  }

  method NextWord(input: string, i: nat, unicode: char -> bool) returns (t: Result<Token, ExprError>, n: nat)
    requires i < |input| && IsWord(input[i], unicode)
    ensures n > i && FirstWord(input[i..], unicode) == Taken(t, i, n)
  {
    var word, end := TakeRun(input, i, Words(unicode));
    assert word == input[i..][..end - i];
    return Ok(WordToken(word)), end;
  }

  /** One turn of the loop: the token at `i`, and where the next turn starts. */
  method NextToken(input: string, i: nat, unicode: char -> bool) returns (t: Result<Token, ExprError>, n: nat)
    requires i < |input| && !IsSpace(input[i])
    ensures n > i && First(input[i..], unicode) == Taken(t, i, n)
  {
    var c := input[i];
    if IsOperator(c) {
      t, n := NextOperator(input, i);
    } else if c == '"' || c == '\'' {
      t, n := NextString(input, i);
    } else if IsDigit(c) || (c == '-' && i + 1 < |input| && IsDigit(input[i + 1])) {
      t, n := NextNumber(input, i);
    } else if IsWord(c, unicode) {
      t, n := NextWord(input, i, unicode);
    } else {
      t, n := Err(UnexpectedCharacter(c)), i + 1;
    }
  }

  method ParseExpression(input: string, unicode: char -> bool) returns (r: Result<Expr, ExprError>)
    ensures r == ParseText(input, unicode)
  {
    var tokens := Tokenize(input, unicode);
    if tokens.Err? {
      return Err(tokens.error);
    }
    r := RunParser(tokens.value);
  }
}
