/** Reading a JSON text back into its syntax tree. Each `Read` function takes the text still to be read. The tree it
    returns spells out what was taken (`Taken` lemmas), and the text of every tree is read back as that tree (`Read`
    lemmas). Together, a text is readable exactly when the grammar generates it. */
module JsonReader {
  import opened Characters
  import opened Decimals
  import opened JsonGrammar

  datatype Parse<+T> = Fail | Parsed(value: T, rest: string)

  lemma {:induction false} PrefixGrows(s: string, w: string)
    requires s != "" && w <= s[1..]
    ensures [s[0]] + w <= s
    ensures [s[0]] + w < s ==> w < s[1..] && s[|w| + 1] == s[1..][|w|]
  {
    assert s == [s[0]] + s[1..];
    assert ([s[0]] + w) == s[..|w| + 1];
  }

  lemma {:induction false} JoinedTail(w: string, rest: string)
    requires w != ""
    ensures (w + rest)[0] == w[0] && (w + rest)[1..] == w[1..] + rest && w == [w[0]] + w[1..]
  {
  }

  /** The whitespace a text begins with. */
  function Blank(s: string): (w: string)
    ensures w <= s && AllSpace(w)
    ensures w < s ==> !IsSpace(s[|w|])
  {
    if s != "" && IsSpace(s[0]) then
      var w := Blank(s[1..]);
      assert forall i :: 0 <= i < |w| ==> IsSpace(w[i]);
      PrefixGrows(s, w);
      [s[0]] + w
    else ""
  }

  function Skip(s: string): (rest: string)
    ensures |rest| <= |s| && Blank(s) + rest == s
    ensures rest != "" ==> !IsSpace(rest[0])
  {
    s[|Blank(s)|..]
  }

  predicate Starts(s: string, c: char) {
    s != "" && s[0] == c
  }

  lemma {:induction false} BlankOf(w: string, rest: string)
    requires AllSpace(w)
    requires rest != "" ==> !IsSpace(rest[0])
    ensures Blank(w + rest) == w && Skip(w + rest) == rest
  {
    if w == "" {
      assert w + rest == rest;
    } else {
      BlankOf(w[1..], rest);
      JoinedTail(w, rest);
    }
  }

  lemma {:induction false} SkipTwice(s: string)
    ensures Skip(Skip(s)) == Skip(s)
  {
    BlankOf("", Skip(s));
    assert "" + Skip(s) == Skip(s);
  }

  // ----- Strings -----

  function ReadHex(s: string): (r: Parse<string>)
    ensures r.Parsed? ==> IsHex4(r.value) && s == r.value + r.rest
  {
    if |s| >= 4 && IsHex4(s[..4]) then Parsed(s[..4], s[4..]) else Fail
  }

  /** The escape after a backslash and a `u`: a surrogate pair when the first half calls for one. */
  function ReadUnicode(s: string): (r: Parse<Piece>)
    ensures r.Parsed? ==> PieceOk(r.value) && "\\u" + s == PieceText(r.value) + r.rest
    ensures r.Parsed? ==> r.value.Unicode? || r.value.Pair?
  {
    match ReadHex(s)
    case Fail => Fail
    case Parsed(hex, t) =>
      if !IsHigh(Hex4Value(hex)) then Parsed(Unicode(hex), t)
      else if |t| < 6 || t[0] != '\\' || t[1] != 'u' then Fail
      else
        match ReadHex(t[2..])
        case Fail => Fail
        case Parsed(low, rest) =>
          if IsLow(Hex4Value(low)) then
            assert t == "\\u" + t[2..];
            Parsed(Pair(hex, low), rest)
          else Fail
  }

  function ReadPiece(s: string): (r: Parse<Piece>)
    ensures r.Parsed? ==> PieceOk(r.value) && s == PieceText(r.value) + r.rest && s[0] != '"'
  {
    if s == "" || s[0] == '"' || s[0] as int < 0x20 then Fail
    else if s[0] != '\\' then Parsed(Raw(s[0]), s[1..])
    else if |s| < 2 then Fail
    else if IsEscapeLetter(s[1]) then Parsed(Escaped(s[1]), s[2..])
    else if s[1] == 'u' then
      assert s == "\\u" + s[2..];
      ReadUnicode(s[2..])
    else Fail
  }

  lemma {:induction false} PieceTextNotEmpty(p: Piece)
    ensures PieceText(p) != ""
  {
  }

  /** The pieces of a string, after its opening quote. */
  function ReadPieces(s: string): (r: Parse<seq<Piece>>)
    ensures r.Parsed? ==> PiecesOk(r.value) && s == PiecesText(r.value, r.rest) && |r.rest| < |s|
    decreases |s|
  {
    if Starts(s, '"') then Parsed([], s[1..])
    else
      match ReadPiece(s)
      case Fail => Fail
      case Parsed(p, t) =>
        PieceTextNotEmpty(p);
        match ReadPieces(t)
        case Fail => Fail
        case Parsed(ps, rest) => MorePieces(p, ps, rest); Parsed([p] + ps, rest)
  }

  lemma {:induction false} MorePieces(p: Piece, ps: seq<Piece>, rest: string)
    requires PieceOk(p) && PiecesOk(ps)
    ensures PiecesOk([p] + ps)
    ensures PiecesText([p] + ps, rest) == PieceText(p) + PiecesText(ps, rest)
    ensures PiecesValue([p] + ps) == PieceValue(p) + PiecesValue(ps)
  {
    assert ([p] + ps)[1..] == ps;
  }

  lemma {:induction false} HexRead(hex: string, rest: string)
    requires IsHex4(hex)
    ensures ReadHex(hex + rest) == Parsed(hex, rest)
  {
    assert (hex + rest)[..4] == hex && (hex + rest)[4..] == rest;
  }

  lemma {:induction false} PairRead(high: string, low: string, rest: string)
    requires PieceOk(Pair(high, low))
    ensures ReadUnicode(high + ("\\u" + low + rest)) == Parsed(Pair(high, low), rest)
  {
    var t := "\\u" + low + rest;
    HexRead(high, t);
    assert t[2..] == low + rest;
    HexRead(low, rest);
  }

  lemma {:induction false} RawRead(c: char, rest: string)
    requires PieceOk(Raw(c))
    ensures ReadPiece([c] + rest) == Parsed(Raw(c), rest)
  {
    assert ([c] + rest)[1..] == rest;
  }

  lemma {:induction false} EscapedRead(letter: char, rest: string)
    requires PieceOk(Escaped(letter))
    ensures ReadPiece(['\\', letter] + rest) == Parsed(Escaped(letter), rest)
  {
    assert (['\\', letter] + rest)[2..] == rest;
  }

  lemma {:induction false} UnicodeRead(p: Piece, digits: string, rest: string)
    requires PieceOk(p) && ReadUnicode(digits + rest) == Parsed(p, rest)
    ensures ReadPiece("\\u" + (digits + rest)) == Parsed(p, rest)
  {
    assert ("\\u" + (digits + rest))[2..] == digits + rest;
  }

  lemma {:induction false} PieceRead(p: Piece, rest: string)
    requires PieceOk(p)
    ensures ReadPiece(PieceText(p) + rest) == Parsed(p, rest)
  {
    var s := PieceText(p) + rest;
    match p
    case Raw(c) => RawRead(c, rest);
    case Escaped(letter) => EscapedRead(letter, rest);
    case Unicode(hex) =>
      HexRead(hex, rest);
      UnicodeRead(p, hex, rest);
      assert s == "\\u" + (hex + rest);
    case Pair(high, low) =>
      var digits := high + "\\u" + low;
      assert digits + rest == high + ("\\u" + low + rest);
      PairRead(high, low, rest);
      UnicodeRead(p, digits, rest);
      assert s == "\\u" + (digits + rest);
  }

  lemma {:induction false} PiecesRead(ps: seq<Piece>, rest: string)
    requires PiecesOk(ps)
    ensures ReadPieces(PiecesText(ps, rest)) == Parsed(ps, rest)
  {
    if ps == [] {
      assert ("\"" + rest)[1..] == rest;
    } else {
      PieceRead(ps[0], PiecesText(ps[1..], rest));
      PiecesRead(ps[1..], rest);
      assert [ps[0]] + ps[1..] == ps;
    }
  }

  // ----- Numbers -----

  /** The digits a text begins with. */
  function Digits(s: string): (d: string)
    ensures d <= s && AllDigits(d)
    ensures d < s ==> !IsDigit(s[|d|])
  {
    if s != "" && IsDigit(s[0]) then
      var d := Digits(s[1..]);
      assert forall i :: 0 <= i < |d| ==> IsDigit(d[i]);
      PrefixGrows(s, d);
      [s[0]] + d
    else ""
  }

  lemma {:induction false} DigitsOf(d: string, rest: string)
    requires AllDigits(d)
    requires rest != "" ==> !IsDigit(rest[0])
    ensures Digits(d + rest) == d && (d + rest)[|d|..] == rest
  {
    if d == "" {
      assert d + rest == rest;
    } else {
      DigitsOf(d[1..], rest);
      JoinedTail(d, rest);
    }
  }

  /** The digits of the integer part; a leading zero stands alone. */
  function ReadInteger(s: string): (r: Parse<string>)
    ensures r.Parsed? ==>
      (&& s == r.value + r.rest && AllDigits(r.value) && r.value != "" && (r.value[0] == '0' ==> r.value == "0"))
  {
    if Starts(s, '0') then Parsed("0", s[1..])
    else if s != "" && IsDigit(s[0]) then Parsed(Digits(s), s[|Digits(s)|..])
    else Fail
  }

  function ReadFraction(s: string): (r: Parse<string>)
    ensures r.Parsed? ==> s == FractionText(r.value, r.rest) && AllDigits(r.value)
  {
    if !Starts(s, '.') then Parsed("", s)
    else
      var t := s[1..];
      assert s == "." + t;
      var d := Digits(t);
      assert d + t[|d|..] == t;
      if d == "" then Fail else Parsed(d, t[|d|..])
  }

  datatype Exponent = Exponent(mark: string, digits: string)

  predicate MarkOk(mark: string) {
    mark in ["", "e", "E", "e+", "e-", "E+", "E-"]
  }

  function Mark(s: string): (mark: string)
    ensures mark <= s && MarkOk(mark)
  {
    if Starts(s, 'e') || Starts(s, 'E') then
      if |s| > 1 && s[1] in "+-" then
        assert s[..2] == [s[0], s[1]];
        s[..2]
      else
        assert s[..1] == [s[0]];
        s[..1]
    else ""
  }

  function ReadExponent(s: string): (r: Parse<Exponent>)
    ensures r.Parsed? ==>
      (&& s == r.value.mark + (r.value.digits + r.rest) && AllDigits(r.value.digits) && MarkOk(r.value.mark)
       && (r.value.mark == "" <==> r.value.digits == ""))
  {
    var mark := Mark(s);
    if mark == "" then Parsed(Exponent("", ""), s)
    else
      var t := s[|mark|..];
      assert mark + t == s;
      var d := Digits(t);
      assert d + t[|d|..] == t;
      if d == "" then Fail else Parsed(Exponent(mark, d), t[|d|..])
  }

  /** A number after its sign. */
  function ReadMagnitude(minus: bool, s: string): (r: Parse<NumberSyntax>)
    ensures r.Parsed? ==> NumberOk(r.value) && r.value.minus == minus && |r.rest| < |s|
  {
    match ReadInteger(s)
    case Fail => Fail
    case Parsed(integer, t) =>
      match ReadFraction(t)
      case Fail => Fail
      case Parsed(frac, u) =>
        match ReadExponent(u)
        case Fail => Fail
        case Parsed(exponent, rest) =>
          Parsed(NumberSyntax(minus, integer, frac, exponent.mark, exponent.digits), rest)
  }

  function ReadNumber(s: string): (r: Parse<NumberSyntax>)
    ensures r.Parsed? ==> NumberOk(r.value) && |r.rest| < |s|
  {
    if Starts(s, '-') then
      ReadMagnitude(true, s[1..])
    else ReadMagnitude(false, s)
  }

  /** What may follow a value: the end, whitespace or a separator. */
  predicate Ends(rest: string) {
    rest == "" || IsSpace(rest[0]) || rest[0] in ",]}"
  }

  lemma {:induction false} MarkRead(mark: string, rest: string)
    requires MarkOk(mark)
    requires if mark == "" then !Starts(rest, 'e') && !Starts(rest, 'E') else rest != "" && rest[0] !in "+-"
    ensures Mark(mark + rest) == mark
  {
    var s := mark + rest;
    if mark == "" {
      assert s == rest;
    } else if |mark| == 1 {
      assert s[1] == rest[0];
      assert s[..1] == mark;
    } else {
      assert s[..2] == mark;
    }
  }

  lemma {:induction false} ExponentRead(mark: string, digits: string, rest: string)
    requires MarkOk(mark) && AllDigits(digits) && (mark == "" <==> digits == "") && Ends(rest)
    ensures ReadExponent(mark + (digits + rest)) == Parsed(Exponent(mark, digits), rest)
  {
    var t := digits + rest;
    if mark == "" {
      assert t == rest;
      MarkRead(mark, rest);
      assert mark + t == rest;
    } else {
      assert IsDigit(digits[0]) && t[0] == digits[0];
      MarkRead(mark, t);
      assert (mark + t)[|mark|..] == t;
      DigitsOf(digits, rest);
    }
  }

  lemma {:induction false} FractionRead(frac: string, rest: string)
    requires AllDigits(frac)
    requires rest == "" || !(IsDigit(rest[0]) || rest[0] == '.')
    ensures ReadFraction(FractionText(frac, rest)) == Parsed(frac, rest)
  {
    if frac != "" {
      assert ("." + (frac + rest))[1..] == frac + rest;
      DigitsOf(frac, rest);
    }
  }

  lemma {:induction false} IntegerRead(integer: string, rest: string)
    requires AllDigits(integer) && integer != "" && (integer[0] == '0' ==> integer == "0")
    requires rest == "" || !IsDigit(rest[0])
    ensures ReadInteger(integer + rest) == Parsed(integer, rest)
  {
    var s := integer + rest;
    assert s[0] == integer[0] && IsDigit(integer[0]);
    if integer[0] == '0' {
      assert s[1..] == rest;
    } else {
      DigitsOf(integer, rest);
    }
  }

  lemma {:induction false} AfterInteger(n: NumberSyntax, rest: string)
    requires NumberOk(n) && Ends(rest)
    ensures var u := n.mark + (n.exponent + rest);
            && (u == "" || !(IsDigit(u[0]) || u[0] == '.'))
            && var t := FractionText(n.frac, u); t == "" || !IsDigit(t[0])
  {
    var u := n.mark + (n.exponent + rest);
    if n.mark == "" { assert u == rest; } else { assert u[0] == n.mark[0]; }
  }

  lemma {:induction false} MagnitudeRead(n: NumberSyntax, rest: string)
    requires NumberOk(n) && Ends(rest)
    ensures ReadMagnitude(n.minus, MagnitudeText(n, rest)) == Parsed(n, rest)
  {
    var u := n.mark + (n.exponent + rest);
    AfterInteger(n, rest);
    ExponentRead(n.mark, n.exponent, rest);
    FractionRead(n.frac, u);
    IntegerRead(n.integer, FractionText(n.frac, u));
  }

  lemma {:induction false} NumberRead(n: NumberSyntax, rest: string)
    requires NumberOk(n) && Ends(rest)
    ensures ReadNumber(NumberText(n, rest)) == Parsed(n, rest)
  {
    MagnitudeRead(n, rest);
    var m := MagnitudeText(n, rest);
    if n.minus {
      assert ("-" + m)[1..] == m;
    } else {
      assert m[0] == n.integer[0] && IsDigit(n.integer[0]);
    }
  }

  lemma {:induction false} NumberTextSplits(n: NumberSyntax, rest: string)
    ensures NumberText(n, rest) == NumberText(n, "") + rest
  {
    var e := n.exponent;
    assert n.mark + (e + rest) == n.mark + (e + "") + rest;
    var u := n.mark + (e + "");
    assert FractionText(n.frac, u + rest) == FractionText(n.frac, u) + rest;
    var t := FractionText(n.frac, u);
    assert n.integer + (t + rest) == n.integer + t + rest;
    var m := n.integer + t;
    assert "-" + (m + rest) == "-" + m + rest;
  }

  // ----- Values -----

  function ReadValue(s: string): (r: Parse<Syntax>)
    ensures r.Parsed? ==> SyntaxOk(r.value) && |r.rest| < |s|
    decreases |s|, 1
  {
    if s == "" then Fail
    else if s[0] == '[' then ReadArray(s)
    else if s[0] == '{' then ReadObject(s)
    else ReadScalar(s)
  }

  /** A value that holds no others. */
  function ReadScalar(s: string): (r: Parse<Syntax>)
    requires s != ""
    ensures r.Parsed? ==> SyntaxOk(r.value) && |r.rest| < |s|
  {
    if s[0] == '-' || IsDigit(s[0]) then ReadNumberValue(s)
    else match s[0]
      case 'n' => ReadWord(s, "null", NullText)
      case 't' => ReadWord(s, "true", BoolText(true))
      case 'f' => ReadWord(s, "false", BoolText(false))
      case '"' =>
        (match ReadPieces(s[1..])
         case Fail => Fail
         case Parsed(ps, rest) => Parsed(StringText(ps), rest))
      case _ => Fail
  }

  function ReadNumberValue(s: string): (r: Parse<Syntax>)
    ensures r.Parsed? ==> SyntaxOk(r.value) && |r.rest| < |s|
  {
    match ReadNumber(s)
    case Fail => Fail
    case Parsed(n, rest) => Parsed(NumberLiteral(n), rest)
  }

  function ReadWord(s: string, word: string, y: Syntax): (r: Parse<Syntax>)
    requires word != ""
    ensures r.Parsed? ==> r.value == y && s == word + r.rest
  {
    if word <= s then Parsed(y, s[|word|..]) else Fail
  }

  function ReadArray(s: string): (r: Parse<Syntax>)
    requires Starts(s, '[')
    ensures r.Parsed? ==> SyntaxOk(r.value) && |r.rest| < |s|
    decreases |s|, 0
  {
    var t := s[1..];
    if Starts(Skip(t), ']') then Parsed(EmptyArray(Blank(t)), Skip(t)[1..])
    else
      match ReadElements(t)
      case Fail => Fail
      case Parsed(es, rest) => Parsed(ArrayText(es), rest)
  }

  function ReadObject(s: string): (r: Parse<Syntax>)
    requires Starts(s, '{')
    ensures r.Parsed? ==> SyntaxOk(r.value) && |r.rest| < |s|
    decreases |s|, 0
  {
    var t := s[1..];
    if Starts(Skip(t), '}') then Parsed(EmptyObject(Blank(t)), Skip(t)[1..])
    else
      match ReadMembers(t)
      case Fail => Fail
      case Parsed(ms, rest) => ObjectOk(ms); Parsed(ObjectText(ms), rest)
  }

  lemma {:induction false} ObjectOk(ms: Members)
    ensures SyntaxOk(ObjectText(ms)) == MembersOk(ms)
  {
  }

  datatype Item = Item(before: string, value: Syntax, after: string)

  /** A value and the whitespace around it. */
  function ReadItem(s: string): (r: Parse<Item>)
    ensures r.Parsed? ==>
      AllSpace(r.value.before) && SyntaxOk(r.value.value) && AllSpace(r.value.after) && |r.rest| < |s|
    decreases |s|, 2
  {
    match ReadValue(Skip(s))
    case Fail => Fail
    case Parsed(y, u) => Parsed(Item(Blank(s), y, Blank(u)), Skip(u))
  }

  /** The elements of a non-empty array, after its opening bracket. */
  function ReadElements(s: string): (r: Parse<Elements>)
    ensures r.Parsed? ==> ElementsOk(r.value) && |r.rest| < |s|
    decreases |s|, 3
  {
    match ReadItem(s)
    case Fail => Fail
    case Parsed(item, v) =>
      if Starts(v, ']') then
        Parsed(LastElement(item.before, item.value, item.after), v[1..])
      else if Starts(v, ',') then
        match ReadElements(v[1..])
        case Fail => Fail
        case Parsed(es, rest) => Parsed(MoreElements(item.before, item.value, item.after, es), rest)
      else Fail
  }

  datatype Head = Head(before: string, key: seq<Piece>, colon: string)

  /** The name of a member and the colon after it. */
  function ReadHead(s: string): (r: Parse<Head>)
    ensures r.Parsed? ==>
      AllSpace(r.value.before) && PiecesOk(r.value.key) && AllSpace(r.value.colon) && |r.rest| < |s|
  {
    var t := Skip(s);
    if !Starts(t, '"') then Fail
    else
      match ReadPieces(t[1..])
      case Fail => Fail
      case Parsed(key, u) =>
        var v := Skip(u);
        if Starts(v, ':') then
          Parsed(Head(Blank(s), key, Blank(u)), v[1..])
        else Fail
  }

  /** The members of a non-empty object, after its opening brace. */
  function ReadMembers(s: string): (r: Parse<Members>)
    ensures r.Parsed? ==> MembersOk(r.value) && |r.rest| < |s|
    decreases |s|, 3
  {
    match ReadHead(s)
    case Fail => Fail
    case Parsed(h, s1) =>
      match ReadItem(s1)
      case Fail => Fail
      case Parsed(item, v) =>
        if Starts(v, '}') then
          Parsed(LastMember(h.before, h.key, h.colon, item.before, item.value, item.after), v[1..])
        else if Starts(v, ',') then
          match ReadMembers(v[1..])
          case Fail => Fail
          case Parsed(ms, rest) =>
            Parsed(MoreMembers(h.before, h.key, h.colon, item.before, item.value, item.after, ms), rest)
        else Fail
  }

  /** The characters a value can begin with. */
  predicate Begin(c: char) {
    c in "ntf\"[{-" || IsDigit(c)
  }

  lemma {:induction false} TextBegins(y: Syntax, rest: string)
    requires SyntaxOk(y)
    ensures Text(y, rest) != "" && Begin(Text(y, rest)[0]) && !Starts(Text(y, rest), ']')
  {
    if y.NumberLiteral? { assert IsDigit(y.number.integer[0]); }
  }

  lemma {:induction false} ValueRead(y: Syntax, rest: string)
    requires SyntaxOk(y) && Ends(rest)
    ensures ReadValue(Text(y, rest)) == Parsed(y, rest)
    decreases y, 0
  {
    match y
    case NullText => NullRead(rest);
    case BoolText(b) => BoolRead(b, rest);
    case NumberLiteral(n) => NumberValueRead(n, rest);
    case StringText(ps) => StringRead(ps, rest);
    case EmptyArray(blank) => EmptyArrayRead(blank, rest);
    case ArrayText(es) =>
      ElementsRead(es, rest);
      ArrayRead(Text(y, rest), ElementsText(es, rest), es, rest);
    case EmptyObject(blank) => EmptyObjectRead(blank, rest);
    case ObjectText(ms) =>
      MembersRead(ms, rest);
      ObjectTextIs(ms, rest);
      ObjectRead(Text(y, rest), MembersText(ms, rest), ms, rest);
  }

  lemma {:induction false} NullRead(rest: string)
    ensures ReadValue(Text(NullText, rest)) == Parsed(NullText, rest)
  {
    assert ("null" + rest)[4..] == rest;
  }

  lemma {:induction false} BoolRead(b: bool, rest: string)
    ensures ReadValue(Text(BoolText(b), rest)) == Parsed(BoolText(b), rest)
  {
    if b {
      assert ("true" + rest)[4..] == rest;
    } else {
      assert ("false" + rest)[5..] == rest;
    }
  }

  lemma {:induction false} ScalarCase(s: string)
    requires s != "" && s[0] != '[' && s[0] != '{'
    ensures ReadValue(s) == ReadScalar(s)
  {
  }

  lemma {:induction false} NumberCase(s: string, n: NumberSyntax, rest: string)
    requires s != "" && (s[0] == '-' || IsDigit(s[0])) && ReadNumber(s) == Parsed(n, rest)
    ensures ReadScalar(s) == Parsed(NumberLiteral(n), rest)
  {
  }

  lemma {:induction false} NumberBegins(n: NumberSyntax, rest: string)
    requires NumberOk(n)
    ensures var s := NumberText(n, rest); s != "" && (s[0] == '-' || IsDigit(s[0]))
  {
    assert IsDigit(n.integer[0]);
  }

  lemma {:induction false} NumberValueRead(n: NumberSyntax, rest: string)
    requires NumberOk(n) && Ends(rest)
    ensures ReadValue(NumberText(n, rest)) == Parsed(NumberLiteral(n), rest)
  {
    var s := NumberText(n, rest);
    NumberRead(n, rest);
    NumberBegins(n, rest);
    NumberCase(s, n, rest);
    ScalarCase(s);
  }

  lemma {:induction false} StringCase(s: string)
    requires Starts(s, '"') && ReadPieces(s[1..]).Parsed?
    ensures ReadScalar(s) == Parsed(StringText(ReadPieces(s[1..]).value), ReadPieces(s[1..]).rest)
  {
  }

  lemma {:induction false} StringRead(ps: seq<Piece>, rest: string)
    requires PiecesOk(ps)
    ensures ReadValue(Text(StringText(ps), rest)) == Parsed(StringText(ps), rest)
  {
    PiecesRead(ps, rest);
    var t := PiecesText(ps, rest);
    assert ("\"" + t)[1..] == t;
    StringCase("\"" + t);
    ScalarCase("\"" + t);
  }

  lemma {:induction false} ArrayRead(s: string, t: string, es: Elements, rest: string)
    requires s == "[" + t && ReadElements(t) == Parsed(es, rest) && !Starts(Skip(t), ']')
    ensures ReadValue(s) == Parsed(ArrayText(es), rest)
  {
    assert s[1..] == t;
  }

  lemma {:induction false} ObjectRead(s: string, t: string, ms: Members, rest: string)
    requires s == "{" + t && ReadMembers(t) == Parsed(ms, rest) && !Starts(Skip(t), '}')
    ensures ReadValue(s) == Parsed(ObjectText(ms), rest)
  {
    assert Starts(s, '{');
    ObjectCase(s);
    assert s[1..] == t;
  }

  lemma {:induction false} ObjectCase(s: string)
    requires Starts(s, '{')
    ensures ReadValue(s) == ReadObject(s)
  {
  }

  lemma {:induction false} EmptyArrayRead(blank: string, rest: string)
    requires AllSpace(blank)
    ensures ReadValue(Text(EmptyArray(blank), rest)) == Parsed(EmptyArray(blank), rest)
  {
    var t := blank + ("]" + rest);
    assert ("[" + t)[1..] == t;
    BlankOf(blank, "]" + rest);
    assert ("]" + rest)[1..] == rest;
  }

  lemma {:induction false} EmptyObjectRead(blank: string, rest: string)
    requires AllSpace(blank)
    ensures ReadValue(Text(EmptyObject(blank), rest)) == Parsed(EmptyObject(blank), rest)
  {
    var t := blank + ("}" + rest);
    assert ("{" + t)[1..] == t;
    BlankOf(blank, "}" + rest);
    assert ("}" + rest)[1..] == rest;
  }

  lemma {:induction false} ItemRead(before: string, y: Syntax, after: string, tail: string)
    requires AllSpace(before) && SyntaxOk(y) && AllSpace(after) && tail != "" && tail[0] in ",]}"
    ensures var s := before + Text(y, after + tail);
            ReadItem(s) == Parsed(Item(before, y, after), tail) && !Starts(Skip(s), ']')
    decreases y, 1
  {
    TextBegins(y, after + tail);
    BlankOf(before, Text(y, after + tail));
    BlankOf(after, tail);
    assert Ends(after + tail) by { if after != "" { assert IsSpace(after[0]); } }
    ValueRead(y, after + tail);
  }

  lemma {:induction false} MoreElementsRead(s: string, item: Item, more: string, es: Elements, rest: string)
    requires ReadItem(s) == Parsed(item, "," + more) && ReadElements(more) == Parsed(es, rest)
    ensures ReadElements(s) == Parsed(MoreElements(item.before, item.value, item.after, es), rest)
  {
    assert ("," + more)[1..] == more;
  }

  lemma {:induction false} LastElementRead(s: string, item: Item, rest: string)
    requires ReadItem(s) == Parsed(item, "]" + rest)
    ensures ReadElements(s) == Parsed(LastElement(item.before, item.value, item.after), rest)
  {
    assert ("]" + rest)[1..] == rest;
  }

  lemma {:induction false} ElementsRead(es: Elements, rest: string)
    requires ElementsOk(es)
    ensures ReadElements(ElementsText(es, rest)) == Parsed(es, rest)
    ensures !Starts(Skip(ElementsText(es, rest)), ']')
    decreases es, 2
  {
    var s := ElementsText(es, rest);
    var item := Item(es.before, es.value, es.after);
    if es.MoreElements? {
      var more := ElementsText(es.rest, rest);
      ItemRead(es.before, es.value, es.after, "," + more);
      ElementsRead(es.rest, rest);
      MoreElementsRead(s, item, more, es.rest, rest);
    } else {
      ItemRead(es.before, es.value, es.after, "]" + rest);
      LastElementRead(s, item, rest);
    }
  }

  lemma {:induction false} HeadRead(before: string, key: seq<Piece>, colon: string, rest: string)
    requires AllSpace(before) && PiecesOk(key) && AllSpace(colon)
    ensures var s := HeadText(before, key, colon, rest);
            ReadHead(s) == Parsed(Head(before, key, colon), rest) && !Starts(Skip(s), '}')
  {
    var t := PiecesText(key, colon + (":" + rest));
    BlankOf(before, "\"" + t);
    assert ("\"" + t)[1..] == t;
    PiecesRead(key, colon + (":" + rest));
    BlankOf(colon, ":" + rest);
    assert (":" + rest)[1..] == rest;
  }

  lemma {:induction false} MoreMembersRead(s: string, h: Head, body: string, item: Item, v: string, ms: Members,
                                           rest: string)
    requires ReadHead(s) == Parsed(h, body) && ReadItem(body) == Parsed(item, v)
    requires Starts(v, ',') && !Starts(v, '}') && ReadMembers(v[1..]) == Parsed(ms, rest)
    ensures ReadMembers(s) ==
            Parsed(MoreMembers(h.before, h.key, h.colon, item.before, item.value, item.after, ms), rest)
  {
  }

  lemma {:induction false} LastMemberRead(s: string, h: Head, body: string, item: Item, rest: string)
    requires ReadHead(s) == Parsed(h, body) && ReadItem(body) == Parsed(item, "}" + rest)
    ensures ReadMembers(s) ==
            Parsed(LastMember(h.before, h.key, h.colon, item.before, item.value, item.after), rest)
  {
    assert ("}" + rest)[1..] == rest;
  }

  lemma {:induction false} MembersRead(ms: Members, rest: string)
    requires MembersOk(ms)
    ensures ReadMembers(MembersText(ms, rest)) == Parsed(ms, rest)
    ensures !Starts(Skip(MembersText(ms, rest)), '}')
    decreases ms, 2
  {
    var s := MembersText(ms, rest);
    var h := Head(ms.before, ms.key, ms.colon);
    var item := Item(ms.space, ms.value, ms.after);
    if ms.MoreMembers? {
      var more := MembersText(ms.rest, rest);
      var body := ms.space + Text(ms.value, ms.after + ("," + more));
      HeadRead(ms.before, ms.key, ms.colon, body);
      ItemRead(ms.space, ms.value, ms.after, "," + more);
      MembersRead(ms.rest, rest);
      assert ("," + more)[1..] == more;
      MoreMembersRead(s, h, body, item, "," + more, ms.rest, rest);
    } else {
      var body := ms.space + Text(ms.value, ms.after + ("}" + rest));
      HeadRead(ms.before, ms.key, ms.colon, body);
      ItemRead(ms.space, ms.value, ms.after, "}" + rest);
      LastMemberRead(s, h, body, item, rest);
    }
  }

  // ----- What was taken -----

  lemma {:induction false} NumberTaken(s: string)
    ensures ReadNumber(s).Parsed? ==> s == NumberText(ReadNumber(s).value, ReadNumber(s).rest)
  {
    if Starts(s, '-') { StartsWith(s, '-'); }
  }

  lemma {:induction false} StartsWith(s: string, c: char)
    requires Starts(s, c)
    ensures s == [c] + s[1..]
  {
  }

  lemma {:induction false} ValueTaken(s: string)
    ensures ReadValue(s).Parsed? ==> s == Text(ReadValue(s).value, ReadValue(s).rest)
    decreases |s|, 1
  {
    if s == "" {
    } else if s[0] == '-' || IsDigit(s[0]) {
      NumberTaken(s);
    } else if s[0] == '"' {
      StartsWith(s, '"');
    } else if s[0] == '[' {
      ArrayTaken(s);
    } else if s[0] == '{' {
      ObjectTaken(s);
    }
  }

  lemma {:induction false} ArrayTaken(s: string)
    requires Starts(s, '[')
    ensures ReadArray(s).Parsed? ==> s == Text(ReadArray(s).value, ReadArray(s).rest)
    decreases |s|, 0
  {
    var t := s[1..];
    StartsWith(s, '[');
    if Starts(Skip(t), ']') {
      StartsWith(Skip(t), ']');
      assert t == Blank(t) + ("]" + Skip(t)[1..]);
    } else {
      ElementsTaken(t);
    }
  }

  lemma {:induction false} ObjectTaken(s: string)
    requires Starts(s, '{')
    ensures ReadObject(s).Parsed? ==> s == Text(ReadObject(s).value, ReadObject(s).rest)
    decreases |s|, 0
  {
    var t := s[1..];
    StartsWith(s, '{');
    if Starts(Skip(t), '}') {
      StartsWith(Skip(t), '}');
      assert t == Blank(t) + ("}" + Skip(t)[1..]);
    } else {
      MembersTaken(t);
      if ReadMembers(t).Parsed? { ObjectTextIs(ReadMembers(t).value, ReadMembers(t).rest); }
    }
  }

  lemma {:induction false} ObjectTextIs(ms: Members, rest: string)
    ensures Text(ObjectText(ms), rest) == "{" + MembersText(ms, rest)
  {
  }

  lemma {:induction false} ItemTaken(s: string)
    ensures ReadItem(s).Parsed? ==>
              var item := ReadItem(s).value; s == item.before + Text(item.value, item.after + ReadItem(s).rest)
    decreases |s|, 2
  {
    ValueTaken(Skip(s));
  }

  lemma {:induction false} ElementsTaken(s: string)
    ensures ReadElements(s).Parsed? ==> s == ElementsText(ReadElements(s).value, ReadElements(s).rest)
    decreases |s|, 3
  {
    ItemTaken(s);
    if ReadElements(s).Parsed? {
      var v := ReadItem(s).rest;
      if Starts(v, ']') {
        StartsWith(v, ']');
      } else {
        StartsWith(v, ',');
        ElementsTaken(v[1..]);
      }
    }
  }

  lemma {:induction false} HeadTaken(s: string)
    ensures ReadHead(s).Parsed? ==>
              var h := ReadHead(s).value; s == HeadText(h.before, h.key, h.colon, ReadHead(s).rest)
  {
    if ReadHead(s).Parsed? {
      var t := Skip(s);
      StartsWith(t, '"');
      StartsWith(Skip(ReadPieces(t[1..]).rest), ':');
    }
  }

  lemma {:induction false} MembersTaken(s: string)
    ensures ReadMembers(s).Parsed? ==> s == MembersText(ReadMembers(s).value, ReadMembers(s).rest)
    decreases |s|, 3
  {
    HeadTaken(s);
    if ReadMembers(s).Parsed? {
      var s1 := ReadHead(s).rest;
      ItemTaken(s1);
      var v := ReadItem(s1).rest;
      if Starts(v, '}') {
        StartsWith(v, '}');
      } else {
        StartsWith(v, ',');
        MembersTaken(v[1..]);
      }
    }
  }

  // ----- Whole texts -----

  /** The byte order marks of UTF-16. */
  predicate SeemsUtf16(text: string) {
    |text| >= 2 && ((text[0] == '\U{FF}' && text[1] == '\U{FE}') || (text[0] == '\U{FE}' && text[1] == '\U{FF}'))
  }

  function AfterMark(text: string): string {
    if BOM <= text then text[3..] else text
  }

  function ReadDocument(text: string): (r: Parse<Document>)
    ensures r.Parsed? ==> DocumentOk(r.value) && r.rest == ""
  {
    if SeemsUtf16(text) then Fail
    else
      var s := AfterMark(text);
      match ReadValue(Skip(s))
      case Fail => Fail
      case Parsed(y, u) =>
        if Skip(u) == "" then Parsed(Document(BOM <= text, Blank(s), y, Blank(u)), "") else Fail
  }

  lemma {:induction false} SpacesEnd(w: string)
    requires AllSpace(w)
    ensures Ends(w) && Blank(w) == w && Skip(w) == ""
  {
    BlankOf(w, "");
    assert w + "" == w;
    if w != "" { assert IsSpace(w[0]); }
  }

  lemma {:induction false} BodyRead(doc: Document)
    requires DocumentOk(doc)
    ensures var s := doc.before + Text(doc.value, doc.after);
            && Blank(s) == doc.before && ReadValue(Skip(s)) == Parsed(doc.value, doc.after)
            && s != "" && s[0] as int < 0x80
  {
    TextBegins(doc.value, doc.after);
    BlankOf(doc.before, Text(doc.value, doc.after));
    SpacesEnd(doc.after);
    ValueRead(doc.value, doc.after);
    if doc.before != "" { assert IsSpace(doc.before[0]); }
  }

  lemma {:induction false} DocumentRead(doc: Document)
    requires DocumentOk(doc)
    ensures ReadDocument(DocumentText(doc)) == Parsed(doc, "")
  {
    BodyRead(doc);
    MarkSkipped(doc.marked, doc.before + Text(doc.value, doc.after));
    SpacesEnd(doc.after);
  }

  lemma {:induction false} MarkSkipped(marked: bool, s: string)
    requires s != "" && s[0] as int < 0x80
    ensures var text := (if marked then BOM else "") + s;
            AfterMark(text) == s && (BOM <= text <==> marked) && !SeemsUtf16(text)
  {
    var text := (if marked then BOM else "") + s;
    if marked {
      assert text[3..] == s;
    } else {
      assert text == s && BOM[0] != s[0];
    }
  }

  lemma {:induction false} DocumentTaken(text: string)
    ensures ReadDocument(text).Parsed? ==> DocumentText(ReadDocument(text).value) == text
  {
    if ReadDocument(text).Parsed? {
      var s := AfterMark(text);
      ValueTaken(Skip(s));
      var u := ReadValue(Skip(s)).rest;
      assert Skip(u) == "";
      assert Blank(u) == u;
      assert text == (if BOM <= text then BOM else "") + s;
    }
  }

  /** The value of a text, if it has one. */
  ghost predicate Means(text: string, v: JsonValue) {
    exists doc :: DocumentOk(doc) && DocumentText(doc) == text && Value(doc.value) == v
  }

  /** A text is read exactly when the grammar generates it, and then it has one value: the value of its tree. */
  lemma {:induction false} ReadMeans(text: string, v: JsonValue)
    ensures Means(text, v) <==> ReadDocument(text).Parsed? && Value(ReadDocument(text).value.value) == v
  {
    if Means(text, v) {
      var doc :| DocumentOk(doc) && DocumentText(doc) == text && Value(doc.value) == v;
      DocumentRead(doc);
    }
    DocumentTaken(text);
  }

  /** The text of a tree without anything around it has just the value of the tree. */
  lemma {:induction false} TreeMeans(y: Syntax, v: JsonValue)
    requires SyntaxOk(y)
    ensures Means(Text(y, ""), v) <==> v == Value(y)
  {
    var doc := Document(false, "", y, "");
    assert DocumentText(doc) == Text(y, "");
    DocumentRead(doc);
    ReadMeans(Text(y, ""), v);
  }
}
