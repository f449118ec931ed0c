/** What can be written in an expression besides its canonical text: blanks, names and decimals. */
module ExprText {
  import opened Basics
  import opened ExprSyntax
  import opened ExprLexer
  import opened ExprRoundTrip

  /** Blanks, tabs and line ends between tokens mean nothing. */
  lemma BlanksAreSkipped(c: char, rest: string, unicode: char -> bool)
    requires c in " \t\n\r"
    ensures Lex([c] + rest, unicode) == Lex(rest, unicode)
  {
    var all := [c] + rest;
    assert all[0..] == all && all[1..] == rest;
    LexSkips(all, 0, unicode);
  }

  predicate AsciiWordChar(c: char) {
    'a' <= c <= 'z' || 'A' <= c <= 'Z' || '0' <= c <= '9' || c == '_'
  }

  predicate AsciiName(name: string) {
    name != "" && !('0' <= name[0] <= '9') && forall c | c in name :: AsciiWordChar(c)
  }

  lemma AsciiNamesAreLegal(name: string, unicode: char -> bool)
    requires AsciiName(name) && name != "true" && name != "false"
    ensures LegalName(name, unicode)
  {
    forall c | c in name
      ensures IsWord(c, unicode)
    {
      assert AsciiWordChar(c);
    }
  }

  /** ASCII letters, digits and underscores, no digit first, are one name, whatever else counts as a letter. */
  lemma AsciiNamesAreNames(name: string, unicode: char -> bool)
    requires AsciiName(name) && name != "true" && name != "false"
    ensures Lex(name, unicode) == Ok([Ident(name)])
  {
    AsciiNamesAreLegal(name, unicode);
    var ts := [Ident(name)];
    assert Render(ts) == Text(Ident(name));
    RenderLexes(ts, unicode);
  }

  // ---- Decimals ----

  lemma {:induction false} NatOfConcat(a: string, b: string)
    requires AllDigits(a) && AllDigits(b)
    ensures AllDigits(a + b) && NatOf(a + b) == NatOf(a) * Power10(|b|) + NatOf(b)
  {
    if b == "" {
      assert a + b == a;
    } else {
      var front, last := b[..|b| - 1], b[|b| - 1];
      var all := a + b;
      assert b == front + [last];
      NatOfConcat(a, front);
      assert all[..|all| - 1] == a + front && all[|all| - 1] == last;
      assert Power10(|b|) == 10 * Power10(|front|);
      ShiftedSum(NatOf(a), Power10(|front|), NatOf(front));
    }
  }

  lemma ShiftedSum(x: nat, p: nat, y: nat)
    ensures (x * p + y) * 10 == x * (10 * p) + y * 10
  {
  }

  /** `r` is the number `n` with the point moved `places` to the left. */
  ghost predicate MovesThePoint(r: real, places: nat, n: nat) {
    r * Power10(places) as real == n as real
  }

  lemma PointMoved(a: nat, b: nat, places: nat)
    ensures Power10(places) > 0
    ensures MovesThePoint(a as real + b as real / Power10(places) as real, places, a * Power10(places) + b)
  {
    Power10Positive(places);
    ScaledFraction(a, b, Power10(places));
  }

  lemma ScaledFraction(x: nat, y: nat, p: nat)
    requires p > 0
    ensures (x as real + y as real / p as real) * p as real == (x * p + y) as real
  {
    var q := y as real / p as real;
    assert q * p as real == y as real;
    assert (x * p) as real == x as real * p as real;
  }

  /** The digits `a`, a dot, and the digits `b`. */
  ghost predicate IsDecimal(s: string, a: string, b: string) {
    && a != "" && AllDigits(a) && AllDigits(b)
    && |s| == |a| + 1 + |b| && s[..|a|] == a && s[|a|] == '.' && s[|a| + 1..] == b
  }

  lemma DecimalIsNumeric(s: string, a: string, b: string)
    requires IsDecimal(s, a, b)
    ensures forall i | 0 <= i < |a| :: IsDigit(s[i])
    ensures forall i | 0 <= i < |s| :: IsNumeric(s[i])
  {
    forall i | 0 <= i < |a|
      ensures IsDigit(s[i])
    {
      assert s[i] == s[..|a|][i] == a[i] && a[i] in a;
    }
    forall i | |a| < i < |s|
      ensures IsDigit(s[i])
    {
      assert s[i] == s[|a| + 1..][i - |a| - 1] == b[i - |a| - 1] && b[i - |a| - 1] in b;
    }
  }

  lemma FloatOfDecimal(s: string, a: string, b: string)
    requires IsDecimal(s, a, b)
    ensures Power10(|b|) > 0
    ensures FloatOf(s) == Ok(NatOf(a) as real + NatOf(b) as real / Power10(|b|) as real)
  {
    Power10Positive(|b|);
    DecimalIsNumeric(s, a, b);
    RunIs(s, IsDigit, |a|);
  }

  lemma DecimalOf(s: string, a: string, b: string)
    requires IsDecimal(s, a, b)
    ensures AllDigits(a + b) && FloatOf(s).Ok? && MovesThePoint(FloatOf(s).value, |b|, NatOf(a + b))
  {
    FloatOfDecimal(s, a, b);
    NatOfConcat(a, b);
    PointMoved(NatOf(a), NatOf(b), |b|);
  }

  lemma DecimalToken(s: string, a: string, b: string)
    requires IsDecimal(s, a, b)
    ensures FloatOf(s).Ok? && StartsNumber(s)
    ensures FirstNumber(s) == Ok((Some(FloatTok(FloatOf(s).value)), |s|))
  {
    DecimalIsNumeric(s, a, b);
    DecimalOf(s, a, b);
    RunIs(s, IsNumeric, |s|);
    assert IsDigit(s[0]) && s[0..] == s && s[0..|s|] == s;
    assert s[|a|] in s;
  }

  lemma LexesWhole(s: string, t: Token, unicode: char -> bool)
    requires s != "" && First(s, unicode) == Ok((Some(t), |s|))
    ensures Lex(s, unicode) == Ok([t])
  {
    assert s[|s|..] == "" && [t] + [] == [t];
  }

  lemma FirstOfDecimal(s: string, unicode: char -> bool)
    requires s != "" && IsDigit(s[0])
    ensures First(s, unicode) == FirstNumber(s)
  {
  }

  /** A number with one dot is read as its digits' number, moved as many places as there are digits after the dot. */
  lemma DecimalsAreRead(s: string, a: string, b: string, unicode: char -> bool) returns (r: real)
    requires IsDecimal(s, a, b)
    ensures Lex(s, unicode) == Ok([FloatTok(r)])
    ensures AllDigits(a + b) && MovesThePoint(r, |b|, NatOf(a + b))
  {
    DecimalIsNumeric(s, a, b);
    DecimalToken(s, a, b);
    DecimalOf(s, a, b);
    r := FloatOf(s).value;
    FirstOfDecimal(s, unicode);
    LexesWhole(s, FloatTok(r), unicode);
  }

  /** With a minus in front it is the negative of that number. */
  lemma NegativeDecimalsAreRead(s: string, a: string, b: string, unicode: char -> bool) returns (r: real)
    requires |s| > 0 && s[0] == '-' && IsDecimal(s[1..], a, b)
    ensures Lex(s, unicode) == Ok([FloatTok(-r)])
    ensures AllDigits(a + b) && MovesThePoint(r, |b|, NatOf(a + b))
  {
    var body := s[1..];
    DecimalIsNumeric(body, a, b);
    DecimalOf(body, a, b);
    r := FloatOf(body).value;
    RunIs(body, IsNumeric, |body|);
    assert s[1] == body[0] && body[|a|] in body;
    NegativeToken(s, body);
    LexesWhole(s, FloatTok(-r), unicode);
  }

  lemma SignedFloat(negative: bool, body: string)
    requires '.' in body && FloatOf(body).Ok?
    ensures NumberToken(negative, body) == Ok(FloatTok(if negative then -FloatOf(body).value else FloatOf(body).value))
  {
  }

  lemma NegativeToken(s: string, body: string)
    requires |s| > 1 && s[0] == '-' && s[1..] == body && IsDigit(s[1]) && '.' in body
    requires Run(body, IsNumeric) == |body| && FloatOf(body).Ok?
    ensures StartsNumber(s) && FirstNumber(s) == Ok((Some(FloatTok(-FloatOf(body).value)), |s|))
  {
    SignedFloat(true, body);
    assert s[1..1 + |body|] == body;
  }
}
