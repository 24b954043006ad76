/** Which texts are the tokens of the division check, and that the longest one is always taken. */
module SqlTokens {
  import opened Characters
  import opened Decimals
  import opened SqlStrip

  // ----- The texts of the tokens -----

  predicate IsFraction(t: string) {
    t == "" || (t[0] == '.' && AllDigits(t[1..]))
  }

  predicate IsSign(c: char) {
    c == '+' || c == '-'
  }

  predicate IsExponent(t: string) {
    t == "" || ((t[0] == 'e' || t[0] == 'E') && (AllDigits(t[1..]) || (IsSign(t[1]) && AllDigits(t[2..]))))
  }

  /** Digits, then a point and digits or nothing, then an exponent or nothing. */
  predicate IsNumeral(t: string, whole: string, fraction: string, exponent: string) {
    t == whole + (fraction + exponent) && AllDigits(whole) && IsFraction(fraction) && IsExponent(exponent)
  }

  predicate IsWord(t: string) {
    t != "" && IsIdentifierStart(t[0]) && forall i :: 0 <= i < |t| ==> IsIdentifierChar(t[i])
  }

  ghost predicate IsFloat(t: string) {
    exists whole, fraction, exponent ::
      IsNumeral(t, whole, fraction, exponent) && whole != "" && (fraction != "" || exponent != "")
  }

  ghost predicate IsToken(t: Token) {
    match t.kind
    case Identifier => IsWord(t.text)
    case IntegerLiteral => t.text != "" && AllDigits(t.text)
    case FloatLiteral => IsFloat(t.text)
    case Slash => t.text == "/"
    case Other =>
      |t.text| == 1 && !IsSpace(t.text[0]) && !IsIdentifierStart(t.text[0]) && !IsDigit(t.text[0]) && t.text[0] != '/'
  }

  /** A token the text begins with, where no longer beginning is any token. */
  ghost predicate Longest(s: string, t: Token) {
    && IsToken(t) && t.text <= s
    && forall k: int, kind: Kind :: |t.text| < k <= |s| ==> !IsToken(Token(kind, s[..k]))
  }

  // ----- Numbers -----

  lemma {:induction false} MoreDigits(c: char, digits: string)
    requires IsDigit(c) && AllDigits(digits)
    ensures AllDigits([c] + digits)
  {
  }

  lemma {:induction false} FewerDigits(digits: string)
    requires AllDigits(digits) && digits != ""
    ensures IsDigit(digits[0]) && AllDigits(digits[1..])
  {
  }

  lemma {:induction false} DigitInFront(c: char, t: string, whole: string, fraction: string, exponent: string)
    requires IsDigit(c) && IsNumeral(t, whole, fraction, exponent)
    ensures IsNumeral([c] + t, [c] + whole, fraction, exponent)
  {
    MoreDigits(c, whole);
    assert [c] + (whole + (fraction + exponent)) == [c] + whole + (fraction + exponent);
  }

  lemma {:induction false} PointInFront(t: string, whole: string, exponent: string)
    requires IsNumeral(t, whole, "", exponent)
    ensures IsNumeral(['.'] + t, "", ['.'] + whole, exponent)
  {
    assert "" + exponent == exponent;
    assert (['.'] + whole)[1..] == whole;
    assert ['.'] + (whole + exponent) == "" + (['.'] + whole + exponent);
  }

  /** The mark of an exponent, with a sign or without. */
  predicate IsMark(m: string) {
    (|m| == 1 || (|m| == 2 && IsSign(m[1]))) && (m[0] == 'e' || m[0] == 'E')
  }

  lemma {:induction false} MarkInFront(m: string, t: string, whole: string)
    requires IsMark(m) && IsNumeral(t, whole, "", "")
    ensures IsNumeral(m + t, "", "", m + whole)
  {
    assert whole + ("" + "") == whole;
    assert (m + whole)[|m|..] == whole;
    assert m + t == "" + ("" + (m + whole));
  }

  lemma {:induction false} TakenApart(s: string, k: nat, n: nat)
    requires k <= n <= |s|
    ensures s[..n] == s[..k] + s[k..][..n - k]
  {
  }

  /** What a number goes on with has digits, a fraction and an exponent, as far as they have not been read. */
  lemma {:induction false} NumberShape(s: string, dot: bool, exp: bool)
    returns (whole: string, fraction: string, exponent: string)
    ensures IsNumeral(s[..NumberEnd(s, dot, exp).length], whole, fraction, exponent)
    ensures (dot || exp ==> fraction == "") && (exp ==> exponent == "")
    ensures NumberEnd(s, dot, exp).float <==> dot || exp || fraction != "" || exponent != ""
    decreases |s|
  {
    whole, fraction, exponent := "", "", "";
    var n := NumberEnd(s, dot, exp).length;
    if n == 0 {
      assert s[..0] == "" + ("" + "");
    } else if IsDigit(s[0]) {
      whole, fraction, exponent := NumberShape(s[1..], dot, exp);
      DigitInFront(s[0], s[1..][..n - 1], whole, fraction, exponent);
      TakenApart(s, 1, n);
      assert s[..1] == [s[0]];
      whole := [s[0]] + whole;
    } else if s[0] == '.' {
      whole, fraction, exponent := NumberShape(s[1..], true, exp);
      PointInFront(s[1..][..n - 1], whole, exponent);
      TakenApart(s, 1, n);
      assert s[..1] == ['.'];
      whole, fraction := "", ['.'] + whole;
    } else {
      var k := if |s| > 1 && IsSign(s[1]) then 2 else 1;
      whole, fraction, exponent := NumberShape(s[k..], dot, true);
      MarkInFront(s[..k], s[k..][..n - k], whole);
      TakenApart(s, k, n);
      whole, exponent := "", s[..k] + whole;
    }
  }

  lemma {:induction false} DigitDropped(t: string, whole: string, fraction: string, exponent: string)
    requires IsNumeral(t, whole, fraction, exponent) && whole != ""
    ensures IsDigit(t[0]) && IsNumeral(t[1..], whole[1..], fraction, exponent)
  {
    FewerDigits(whole);
    assert (whole + (fraction + exponent))[1..] == whole[1..] + (fraction + exponent);
  }

  lemma {:induction false} PointDropped(t: string, fraction: string, exponent: string)
    requires IsNumeral(t, "", fraction, exponent) && fraction != ""
    ensures t[0] == '.' && IsNumeral(t[1..], fraction[1..], "", exponent)
  {
    assert t == fraction + exponent;
    assert t[1..] == fraction[1..] + ("" + exponent);
  }

  lemma {:induction false} MarkDropped(t: string, exponent: string)
    requires IsNumeral(t, "", "", exponent) && exponent != ""
    ensures var k := if |t| > 1 && IsSign(t[1]) then 2 else 1;
            (t[0] == 'e' || t[0] == 'E') && IsNumeral(t[k..], t[k..], "", "")
  {
    assert t == exponent;
    var k := if |t| > 1 && IsSign(t[1]) then 2 else 1;
    if |t| > 1 { assert t[1] == t[1..][0]; }
    assert t[k..] == t[k..] + ("" + "");
  }

  lemma {:induction false} RestOfBeginning(s: string, j: nat, k: nat)
    requires j <= k <= |s|
    ensures s[..k][j..] == s[j..][..k - j]
    ensures forall i :: 0 <= i < k ==> s[..k][i] == s[i]
  {
  }

  /** No such text that the rest begins with is longer. */
  lemma {:induction false} NumberLongest(s: string, k: nat, dot: bool, exp: bool, whole: string, fraction: string,
                                         exponent: string)
    requires k <= |s| && IsNumeral(s[..k], whole, fraction, exponent)
    requires (dot || exp ==> fraction == "") && (exp ==> exponent == "")
    ensures k <= NumberEnd(s, dot, exp).length
    decreases |s|
  {
    if whole != "" {
      DigitDropped(s[..k], whole, fraction, exponent);
      RestOfBeginning(s, 1, k);
      NumberLongest(s[1..], k - 1, dot, exp, whole[1..], fraction, exponent);
    } else if fraction != "" {
      PointDropped(s[..k], fraction, exponent);
      RestOfBeginning(s, 1, k);
      NumberLongest(s[1..], k - 1, true, exp, fraction[1..], "", exponent);
    } else if exponent != "" {
      MarkDropped(s[..k], exponent);
      MarkLongest(s, k, dot, exp);
    }
  }

  lemma {:induction false} MarkLongest(s: string, k: nat, dot: bool, exp: bool)
    requires 1 <= k <= |s| && (s[0] == 'e' || s[0] == 'E') && !exp
    requires var t := s[..k]; var j := if |t| > 1 && IsSign(t[1]) then 2 else 1; IsNumeral(t[j..], t[j..], "", "")
    ensures k <= NumberEnd(s, dot, exp).length
    decreases |s|, 0
  {
    if k > 1 {
      var j := if IsSign(s[1]) then 2 else 1;
      RestOfBeginning(s, j, k);
      NumberLongest(s[j..], k - j, dot, true, s[j..][..k - j], "", "");
    }
  }

  // ----- The longest token -----

  lemma {:induction false} FirstTokenIsToken(s: string)
    requires s != "" && !IsSpace(s[0])
    ensures IsToken(FirstToken(s))
  {
    if !IsIdentifierStart(s[0]) && IsDigit(s[0]) {
      var n := NumberEnd(s[1..], false, false);
      var whole, fraction, exponent := NumberShape(s[1..], false, false);
      DigitInFront(s[0], s[1..][..n.length], whole, fraction, exponent);
      TakenApart(s, 1, 1 + n.length);
      assert s[..1] == [s[0]];
      if !n.float {
        assert [s[0]] + whole + ("" + "") == [s[0]] + whole;
      } else {
        assert IsNumeral(s[..1 + n.length], [s[0]] + whole, fraction, exponent);
      }
    }
  }

  lemma {:induction false} WordIsLongest(s: string, k: nat)
    requires k <= |s| && IsWord(s[..k])
    ensures k <= 1 + WordLength(s[1..])
  {
    var n := WordLength(s[1..]);
    assert forall i :: 1 <= i < k ==> s[..k][i] == s[1..][i - 1];
  }

  lemma {:induction false} NumeralIsLongest(s: string, k: nat, whole: string, fraction: string, exponent: string)
    requires k <= |s| && IsNumeral(s[..k], whole, fraction, exponent) && whole != ""
    ensures s != "" && IsDigit(s[0]) && k <= 1 + NumberEnd(s[1..], false, false).length
  {
    DigitDropped(s[..k], whole, fraction, exponent);
    RestOfBeginning(s, 1, k);
    NumberLongest(s[1..], k - 1, false, false, whole[1..], fraction, exponent);
  }

  lemma {:induction false} FirstTokenIsLongest(s: string, k: nat, kind: Kind)
    requires s != "" && !IsSpace(s[0]) && k <= |s| && IsToken(Token(kind, s[..k]))
    ensures k <= |FirstToken(s).text|
  {
    var t := s[..k];
    match kind
    case Identifier => WordIsLongest(s, k);
    case IntegerLiteral =>
      assert t == t + ("" + "");
      NumeralIsLongest(s, k, t, "", "");
    case FloatLiteral =>
      var whole, fraction, exponent :|
        IsNumeral(t, whole, fraction, exponent) && whole != "" && (fraction != "" || exponent != "");
      NumeralIsLongest(s, k, whole, fraction, exponent);
    case _ =>
  }

  lemma {:induction false} FloatHasMore(t: string)
    requires IsFloat(t)
    ensures t != "" && IsDigit(t[0]) && !AllDigits(t)
  {
    var whole, fraction, exponent :|
      IsNumeral(t, whole, fraction, exponent) && whole != "" && (fraction != "" || exponent != "");
    FewerDigits(whole);
    assert t[0] == whole[0];
    assert !IsDigit((fraction + exponent)[0]) && t[|whole|] == (fraction + exponent)[0];
  }

  /** A text is a token of one kind at most. */
  lemma {:induction false} OneKind(a: Token, b: Token)
    requires IsToken(a) && IsToken(b) && a.text == b.text
    ensures a == b
  {
    if a.kind == FloatLiteral { FloatHasMore(a.text); }
    if b.kind == FloatLiteral { FloatHasMore(b.text); }
    if a.kind == IntegerLiteral || b.kind == IntegerLiteral { assert AllDigits(a.text) ==> IsDigit(a.text[0]); }
  }

  /** The token taken first is the longest one the text begins with. */
  lemma {:induction false} FirstTokenIs(s: string, t: Token)
    requires s != "" && !IsSpace(s[0])
    ensures Longest(s, t) <==> t == FirstToken(s)
  {
    var first := FirstToken(s);
    FirstTokenIsToken(s);
    assert first == Token(first.kind, s[..|first.text|]);
    forall k: int, kind: Kind | |first.text| < k <= |s| ensures !IsToken(Token(kind, s[..k])) {
      if IsToken(Token(kind, s[..k])) { FirstTokenIsLongest(s, k, kind); }
    }
    if Longest(s, t) {
      assert t == Token(t.kind, s[..|t.text|]);
      FirstTokenIsLongest(s, |t.text|, t.kind);
      OneKind(t, first);
    }
  }

  /** The text cut into tokens, the longest one each time, with whitespace between them. */
  ghost predicate Cuts(s: string, tokens: seq<Token>)
    decreases |s|
  {
    if s == "" then tokens == []
    else if IsSpace(s[0]) then Cuts(s[1..], tokens)
    else
      tokens != [] && tokens[0].text != "" && Longest(s, tokens[0]) && Cuts(s[|tokens[0].text|..], tokens[1..])
  }

  /** Every text can be cut in one way only, and that is what the check works on. */
  lemma {:induction false} TokensCut(s: string, tokens: seq<Token>)
    ensures Cuts(s, tokens) <==> tokens == Tokens(s)
    decreases |s|
  {
    if s == "" {
    } else if IsSpace(s[0]) {
      TokensCut(s[1..], tokens);
    } else {
      var t := FirstToken(s);
      FirstTokenIs(s, t);
      var rest := s[|t.text|..];
      if tokens != [] {
        FirstTokenIs(s, tokens[0]);
        TokensCut(rest, tokens[1..]);
        assert tokens == [tokens[0]] + tokens[1..];
      }
      assert ([t] + Tokens(rest))[0] == t && ([t] + Tokens(rest))[1..] == Tokens(rest);
    }
  }

  // ----- A quotient of two operands -----

  predicate Spaces(w: string) {
    forall i :: 0 <= i < |w| ==> IsSpace(w[i])
  }

  ghost predicate IsOperand(t: Token) {
    IsToken(t) && (t.kind == Identifier || t.kind == IntegerLiteral || t.kind == FloatLiteral)
  }

  /** Characters of words and numbers. */
  predicate Solid(t: string) {
    forall i :: 0 <= i < |t| ==> IsIdentifierChar(t[i]) || t[i] == '.' || IsSign(t[i])
  }

  lemma {:induction false} NumeralSolid(t: string, whole: string, fraction: string, exponent: string)
    requires IsNumeral(t, whole, fraction, exponent)
    ensures Solid(t) && OpensNothing(t)
  {
    assert OpensNothing(whole) && OpensNothing(fraction) by {
      forall i | 0 <= i < |fraction| ensures fraction[i] == '.' || IsDigit(fraction[i]) {
        if i > 0 { assert fraction[i] == fraction[1..][i - 1]; }
      }
    }
    forall i | 0 <= i < |exponent|
      ensures exponent[i] == 'e' || exponent[i] == 'E' || IsDigit(exponent[i]) || (i == 1 && IsSign(exponent[i]))
    {
      if i == 1 {
        assert exponent[1..][0] == exponent[1];
      } else if i > 1 {
        assert exponent[1..][i - 1] == exponent[i] && exponent[2..][i - 2] == exponent[i];
      }
    }
    OpensNothingJoin(fraction, exponent);
    OpensNothingJoin(whole, fraction + exponent);
  }

  lemma {:induction false} OperandSolid(t: Token)
    requires IsOperand(t)
    ensures t.text != "" && Solid(t.text) && OpensNothing(t.text)
  {
    match t.kind
    case IntegerLiteral =>
      assert t.text == t.text + ("" + "");
      NumeralSolid(t.text, t.text, "", "");
    case FloatLiteral =>
      var whole, fraction, exponent :|
        IsNumeral(t.text, whole, fraction, exponent) && whole != "" && (fraction != "" || exponent != "");
      NumeralSolid(t.text, whole, fraction, exponent);
    case _ =>
  }

  /** No token has a slash or whitespace in it, but for the slash itself. */
  lemma {:induction false} NoToken(t: Token, i: nat)
    requires i < |t.text| && |t.text| > 1 && (IsSpace(t.text[i]) || t.text[i] == '/')
    ensures !IsToken(t)
  {
    if IsOperand(t) { OperandSolid(t); }
  }

  /** Before whitespace, a slash or the end an operand is the longest token. */
  lemma {:induction false} OperandIsLongest(t: Token, rest: string)
    requires IsOperand(t) && (rest == "" || IsSpace(rest[0]) || rest[0] == '/')
    ensures Longest(t.text + rest, t)
  {
    var s := t.text + rest;
    OperandSolid(t);
    forall k: int, kind: Kind | |t.text| < k <= |s| ensures !IsToken(Token(kind, s[..k])) {
      assert s[..k][|t.text|] == rest[0];
      NoToken(Token(kind, s[..k]), |t.text|);
    }
  }

  lemma {:induction false} SlashIsLongest(rest: string)
    ensures Longest("/" + rest, Token(Slash, "/"))
  {
    var s := "/" + rest;
    forall k: int, kind: Kind | 1 < k <= |s| ensures !IsToken(Token(kind, s[..k])) {
      assert s[..k][0] == '/';
      NoToken(Token(kind, s[..k]), 0);
    }
  }

  lemma {:induction false} SpacesCut(w: string, s: string, tokens: seq<Token>)
    requires Spaces(w)
    ensures Cuts(w + s, tokens) <==> Cuts(s, tokens)
  {
    if w == "" {
      assert w + s == s;
    } else {
      assert (w + s)[1..] == w[1..] + s;
      SpacesCut(w[1..], s, tokens);
    }
  }

  lemma {:induction false} TokenCut(t: Token, s: string, tokens: seq<Token>)
    requires t.text != "" && Longest(t.text + s, t) && !IsSpace(t.text[0]) && Cuts(s, tokens)
    ensures Cuts(t.text + s, [t] + tokens)
  {
    assert (t.text + s)[|t.text|..] == s && ([t] + tokens)[1..] == tokens;
  }

  function Quotient(x: string, v: string, w: string, y: string): string {
    x + (v + ("/" + (w + y)))
  }

  lemma {:induction false} DivisorCut(w: string, y: Token)
    requires IsOperand(y) && Spaces(w)
    ensures Cuts("/" + (w + y.text), [Token(Slash, "/"), y])
  {
    OperandSolid(y);
    OperandIsLongest(y, "");
    assert y.text + "" == y.text && [y] + [] == [y];
    TokenCut(y, "", []);
    SpacesCut(w, y.text, [y]);
    SlashIsLongest(w + y.text);
    TokenCut(Token(Slash, "/"), w + y.text, [y]);
    assert [Token(Slash, "/")] + [y] == [Token(Slash, "/"), y];
  }

  lemma {:induction false} DividendCut(x: Token, v: string, rest: string, tokens: seq<Token>)
    requires IsOperand(x) && Spaces(v) && rest != "" && rest[0] == '/' && Cuts(rest, tokens)
    ensures Cuts(x.text + (v + rest), [x] + tokens)
  {
    OperandSolid(x);
    SpacesCut(v, rest, tokens);
    assert (v + rest)[0] == if v == "" then '/' else v[0];
    OperandIsLongest(x, v + rest);
    TokenCut(x, v + rest, tokens);
  }

  lemma {:induction false} QuotientCut(x: Token, v: string, w: string, y: Token)
    requires IsOperand(x) && IsOperand(y) && Spaces(v) && Spaces(w)
    ensures Tokens(Quotient(x.text, v, w, y.text)) == [x, Token(Slash, "/"), y]
  {
    var rest, tokens := "/" + (w + y.text), [Token(Slash, "/"), y];
    DivisorCut(w, y);
    DividendCut(x, v, rest, tokens);
    assert [x] + tokens == [x, Token(Slash, "/"), y];
    TokensCut(Quotient(x.text, v, w, y.text), [x, Token(Slash, "/"), y]);
  }

  lemma {:induction false} SpacesOpenNothing(w: string)
    requires Spaces(w)
    ensures OpensNothing(w)
  {
  }

  lemma {:induction false} QuotientStripped(x: Token, v: string, w: string, y: Token)
    requires IsOperand(x) && IsOperand(y) && Spaces(v) && Spaces(w)
    ensures Stripped(Normal, Quotient(x.text, v, w, y.text)) == Quotient(x.text, v, w, y.text)
  {
    OperandSolid(x);
    OperandSolid(y);
    SpacesOpenNothing(v);
    SpacesOpenNothing(w);
    OpensNothingJoin(w, y.text);
    assert (w + y.text)[0] == if w == "" then y.text[0] else w[0];
    OpensNothingJoin("/", w + y.text);
    OpensNothingJoin(v, "/" + (w + y.text));
    assert (v + ("/" + (w + y.text)))[0] == if v == "" then '/' else v[0];
    OpensNothingJoin(x.text, v + ("/" + (w + y.text)));
    StripsNothing(Quotient(x.text, v, w, y.text));
  }

  /** A quotient of names and numbers is reported precisely when neither of the two is a number with a point or an
      exponent. */
  lemma {:induction false} QuotientReported(x: Token, v: string, w: string, y: Token)
    requires IsOperand(x) && IsOperand(y) && Spaces(v) && Spaces(w)
    ensures (exists i :: DividesIntegers(Tokens(Stripped(Normal, Quotient(x.text, v, w, y.text))), i))
            <==> x.kind != FloatLiteral && y.kind != FloatLiteral
  {
    QuotientStripped(x, v, w, y);
    QuotientCut(x, v, w, y);
    var tokens := [x, Token(Slash, "/"), y];
    if x.kind != FloatLiteral && y.kind != FloatLiteral {
      assert DividesIntegers(tokens, 1);
    }
  }
}
