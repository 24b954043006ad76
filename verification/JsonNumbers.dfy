/** JSON numbers as a machine that reads one character at a time: just the spellings of the grammar. */
module JsonNumbers {
  import opened Characters
  import opened Decimals
  import opened JsonGrammar
  import opened JsonReader

  // ----- Numbers -----

  /** How far a number has come: at its start, after the sign, after a zero in front, in the digits, after the point, in
      the fraction, after the mark, after its sign, in the exponent, or beyond what a number can be. */
  datatype At = Start | Signed | Zero | Whole | Point | Fraction | Mark | MarkSigned | Power | Off

  function FirstDigit(c: char): At {
    if c == '0' then Zero else if IsDigit(c) then Whole else Off
  }

  function AfterInteger(c: char): At {
    if c == '.' then Point else AfterFraction(c)
  }

  function AfterFraction(c: char): At {
    if c == 'e' || c == 'E' then Mark else Off
  }

  function OrDigit(c: char, at: At, other: At): At {
    if IsDigit(c) then at else other
  }

  function Next(at: At, c: char): At {
    match at
    case Start => if c == '-' then Signed else FirstDigit(c)
    case Signed => FirstDigit(c)
    case Zero => AfterInteger(c)
    case Whole => OrDigit(c, Whole, AfterInteger(c))
    case Point => OrDigit(c, Fraction, Off)
    case Fraction => OrDigit(c, Fraction, AfterFraction(c))
    case Mark => if c == '+' || c == '-' then MarkSigned else OrDigit(c, Power, Off)
    case MarkSigned => OrDigit(c, Power, Off)
    case Power => OrDigit(c, Power, Off)
    case Off => Off
  }

  predicate Accepts(at: At, s: string)
    decreases |s|
  {
    if s == "" then at in {Zero, Whole, Fraction, Power} else Accepts(Next(at, s[0]), s[1..])
  }

  /** Section 6 of RFC 8259. */
  predicate IsNumber(s: string) {
    Accepts(Start, s)
  }

  lemma {:induction false} OffStays(s: string)
    ensures !Accepts(Off, s)
  {
    if s != "" { OffStays(s[1..]); }
  }

  lemma {:induction false} DigitsStay(at: At, d: string, rest: string)
    requires at in {Whole, Fraction, Power} && AllDigits(d)
    ensures Accepts(at, d + rest) == Accepts(at, rest)
  {
    if d == "" {
      assert d + rest == rest;
    } else {
      assert (d + rest)[1..] == d[1..] + rest && (d + rest)[0] == d[0] && IsDigit(d[0]);
      DigitsStay(at, d[1..], rest);
    }
  }

  /** Every spelling of the grammar is a number. */
  lemma {:induction false} SpellingIsNumber(n: NumberSyntax)
    requires NumberOk(n)
    ensures IsNumber(NumberText(n, ""))
  {
    var m := MagnitudeText(n, "");
    MagnitudeAccepted(n);
    assert n.integer[0] == m[0] && IsDigit(n.integer[0]);
    if n.minus {
      assert ("-" + m)[1..] == m && ("-" + m)[0] == '-';
    }
  }

  lemma {:induction false} MagnitudeAccepted(n: NumberSyntax)
    requires NumberOk(n)
    ensures MagnitudeText(n, "") != "" && Accepts(Signed, MagnitudeText(n, ""))
  {
    var rest := FractionText(n.frac, n.mark + (n.exponent + ""));
    assert IsDigit(n.integer[0]);
    if n.integer == "0" {
      FractionAccepted(Zero, n);
      assert ("0" + rest)[1..] == rest;
    } else {
      FractionAccepted(Whole, n);
      DigitsStay(Whole, n.integer[1..], rest);
      assert (n.integer + rest)[1..] == n.integer[1..] + rest;
    }
  }

  lemma {:induction false} FractionAccepted(at: At, n: NumberSyntax)
    requires NumberOk(n) && at in {Zero, Whole}
    ensures Accepts(at, FractionText(n.frac, n.mark + (n.exponent + "")))
  {
    var rest := n.mark + (n.exponent + "");
    if n.frac == "" {
      MarkAccepted(at, n);
    } else {
      MarkAccepted(Fraction, n);
      DigitsStay(Fraction, n.frac[1..], rest);
      var s := "." + (n.frac + rest);
      assert s[0] == '.' && s[1..] == n.frac + rest;
      assert (n.frac + rest)[0] == n.frac[0] && IsDigit(n.frac[0]);
      assert (n.frac + rest)[1..] == n.frac[1..] + rest;
    }
  }

  lemma {:induction false} MarkAccepted(at: At, n: NumberSyntax)
    requires NumberOk(n) && at in {Zero, Whole, Fraction}
    ensures Accepts(at, n.mark + (n.exponent + ""))
  {
    var e := n.exponent;
    assert e + "" == e;
    if n.mark == "" {
      assert n.mark + (e + "") == "";
    } else {
      ExponentAccepted(e);
      var s := n.mark + e;
      assert s[0] == n.mark[0] && (s[0] == 'e' || s[0] == 'E');
      if |n.mark| == 1 {
        assert s[1..] == e;
      } else {
        assert s[1..][0] == n.mark[1] && s[1..][1..] == e;
      }
    }
  }

  lemma {:induction false} ExponentAccepted(e: string)
    requires AllDigits(e) && e != ""
    ensures Accepts(MarkSigned, e) && Accepts(Mark, e)
  {
    DigitsStay(Power, e[1..], "");
    assert e[1..] + "" == e[1..] && IsDigit(e[0]);
  }

  /** Digits to the end. */
  lemma {:induction false} ExponentDigits(s: string)
    requires Accepts(Power, s)
    ensures AllDigits(s)
  {
    if s != "" {
      if !IsDigit(s[0]) { OffStays(s[1..]); }
      ExponentDigits(s[1..]);
      assert s == [s[0]] + s[1..];
    }
  }

  lemma {:induction false} SignedExponent(s: string)
    requires Accepts(MarkSigned, s)
    ensures AllDigits(s) && s != ""
  {
    if s != "" {
      if !IsDigit(s[0]) { OffStays(s[1..]); }
      ExponentDigits(s[1..]);
      assert s == [s[0]] + s[1..];
    }
  }

  /** The sign of an exponent, and its digits. */
  lemma {:induction false} SplitMark(s: string) returns (sign: string, e: string)
    requires Accepts(Mark, s)
    ensures s == sign + e && (sign == "" || sign == "+" || sign == "-") && AllDigits(e) && e != ""
  {
    if s != "" && (s[0] == '+' || s[0] == '-') {
      SignedExponent(s[1..]);
      sign, e := if s[0] == '+' then "+" else "-", s[1..];
      assert s == sign + e;
    } else {
      assert "" + s == s;
      assert s != "" && Next(Mark, s[0]) == Next(MarkSigned, s[0]);
      assert Accepts(MarkSigned, s);
      SignedExponent(s);
      sign, e := "", s;
    }
  }

  lemma {:induction false} MarkIs(e: char, sign: string)
    requires (e == 'e' || e == 'E') && (sign == "" || sign == "+" || sign == "-")
    ensures [e] + sign in ["", "e", "E", "e+", "e-", "E+", "E-"] && [e] + sign != ""
  {
    var all := ["", "e", "E", "e+", "e-", "E+", "E-"];
    if sign == "" {
      assert [e] + sign == all[if e == 'e' then 1 else 2];
    } else if sign == "+" {
      assert [e] + sign == all[if e == 'e' then 3 else 5];
    } else {
      assert [e] + sign == all[if e == 'e' then 4 else 6];
    }
  }

  /** An exponent, or nothing. */
  lemma {:induction false} SplitExponent(s: string) returns (mark: string, e: string)
    requires s == "" || ((s[0] == 'e' || s[0] == 'E') && Accepts(Mark, s[1..]))
    ensures s == mark + e && AllDigits(e) && (mark == "" <==> e == "")
    ensures mark in ["", "e", "E", "e+", "e-", "E+", "E-"]
  {
    if s == "" {
      mark, e := "", "";
    } else {
      var sign;
      sign, e := SplitMark(s[1..]);
      mark := [s[0]] + sign;
      MarkIs(s[0], sign);
    }
  }

  lemma {:induction false} SplitFraction(s: string) returns (frac: string, rest: string)
    requires Accepts(Fraction, s)
    ensures s == frac + rest && AllDigits(frac)
    ensures rest == "" || ((rest[0] == 'e' || rest[0] == 'E') && Accepts(Mark, rest[1..]))
  {
    if s == "" {
      frac, rest := "", "";
    } else if IsDigit(s[0]) {
      frac, rest := SplitFraction(s[1..]);
      frac := [s[0]] + frac;
    } else {
      if s[0] != 'e' && s[0] != 'E' { OffStays(s[1..]); }
      frac, rest := "", s;
    }
  }

  /** A point with its fraction, or nothing, and what follows. */
  lemma {:induction false} SplitPoint(s: string) returns (frac: string, rest: string)
    requires Accepts(Zero, s)
    ensures s == FractionText(frac, rest) && AllDigits(frac)
    ensures rest == "" || ((rest[0] == 'e' || rest[0] == 'E') && Accepts(Mark, rest[1..]))
  {
    if s != "" && s[0] == '.' {
      frac, rest := SplitDigits(s[1..]);
      assert s == "." + s[1..];
    } else {
      if s != "" && s[0] != 'e' && s[0] != 'E' { OffStays(s[1..]); }
      frac, rest := "", s;
    }
  }

  lemma {:induction false} SplitDigits(t: string) returns (frac: string, rest: string)
    requires Accepts(Point, t)
    ensures t == frac + rest && AllDigits(frac) && frac != ""
    ensures rest == "" || ((rest[0] == 'e' || rest[0] == 'E') && Accepts(Mark, rest[1..]))
  {
    if !IsDigit(t[0]) { OffStays(t[1..]); }
    frac, rest := SplitFraction(t[1..]);
    frac := [t[0]] + frac;
    assert t == [t[0]] + t[1..];
  }

  lemma {:induction false} SplitWhole(s: string) returns (digits: string, rest: string)
    requires Accepts(Whole, s)
    ensures s == digits + rest && AllDigits(digits) && Accepts(Zero, rest)
  {
    if s != "" && IsDigit(s[0]) {
      digits, rest := SplitWhole(s[1..]);
      digits := [s[0]] + digits;
    } else {
      digits, rest := "", s;
    }
  }

  lemma {:induction false} SplitInteger(s: string) returns (integer: string, rest: string)
    requires Accepts(Signed, s)
    ensures s == integer + rest && AllDigits(integer) && integer != "" && (integer[0] == '0' ==> integer == "0")
    ensures Accepts(Zero, rest)
  {
    assert s != "";
    if s[0] == '0' {
      integer, rest := "0", s[1..];
    } else {
      if !IsDigit(s[0]) { OffStays(s[1..]); }
      integer, rest := SplitWhole(s[1..]);
      integer := [s[0]] + integer;
    }
  }

  lemma {:induction false} MagnitudeIsSpelling(m: string, minus: bool) returns (n: NumberSyntax)
    requires Accepts(Signed, m)
    ensures NumberOk(n) && n.minus == minus && MagnitudeText(n, "") == m
  {
    var integer, t := SplitInteger(m);
    var frac, u := SplitPoint(t);
    var mark, exponent := SplitExponent(u);
    n := NumberSyntax(minus, integer, frac, mark, exponent);
    assert exponent + "" == exponent;
  }

  /** Every number is a spelling of the grammar. */
  lemma {:induction false} NumberIsSpelling(s: string) returns (n: NumberSyntax)
    requires IsNumber(s)
    ensures NumberOk(n) && NumberText(n, "") == s
  {
    assert s != "";
    if s[0] == '-' {
      n := MagnitudeIsSpelling(s[1..], true);
      assert s == "-" + s[1..];
    } else {
      assert Next(Start, s[0]) == Next(Signed, s[0]);
      n := MagnitudeIsSpelling(s, false);
    }
  }

  /** A number is a text of its own, and no other text gives a number but one that is spelled so. */
  lemma {:induction false} NumberMeans(s: string, v: JsonValue)
    requires IsNumber(s)
    ensures Means(s, v) <==> v == Number(s)
  {
    var n := NumberIsSpelling(s);
    TreeMeans(NumberLiteral(n), v);
  }

  lemma {:induction false} MeantIsNumber(text: string, s: string)
    requires Means(text, Number(s))
    ensures IsNumber(s)
  {
    var doc :| DocumentOk(doc) && DocumentText(doc) == text && Value(doc.value) == Number(s);
    SpellingIsNumber(doc.value.number);
  }
}
