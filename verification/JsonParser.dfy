/** The recursive-descent parser: a position that moves through the text. `None` stands for the exception a failed
    parse throws; its message and byte offset are not modelled. */
module JsonParser {
  import opened Outcomes
  import opened Characters
  import opened JsonGrammar
  import opened JsonReader

  /** `r` is what reading gave, with `rest` left over. */
  predicate Yields(r: Option<JsonValue>, read: Parse<Syntax>, rest: string) {
    match read
    case Fail => r.None?
    case Parsed(y, u) => SyntaxOk(y) && r == Some(Value(y)) && rest == u
  }

  predicate YieldsString(r: Option<string>, read: Parse<seq<Piece>>, rest: string) {
    match read
    case Fail => r.None?
    case Parsed(ps, u) => PiecesOk(ps) && r == Some(PiecesValue(ps)) && rest == u
  }

  predicate YieldsPiece(r: Option<string>, read: Parse<Piece>, rest: string) {
    match read
    case Fail => r.None?
    case Parsed(p, u) => PieceOk(p) && r == Some(PieceValue(p)) && rest == u
  }

  // ----- Loops in progress: what was read so far, followed by what reading on gives, is the whole -----

  predicate StringSoFar(start: string, value: string, here: string) {
    match ReadPieces(here)
    case Fail => ReadPieces(start).Fail?
    case Parsed(ps, rest) =>
      var whole := ReadPieces(start);
      whole.Parsed? && whole.rest == rest && PiecesValue(whole.value) == value + PiecesValue(ps)
  }

  lemma {:induction false} StringStarts(start: string)
    ensures StringSoFar(start, "", start)
  {
    if ReadPieces(start).Parsed? {
      assert "" + PiecesValue(ReadPieces(start).value) == PiecesValue(ReadPieces(start).value);
    }
  }

  lemma {:induction false} StringGoesOn(start: string, value: string, here: string)
    requires StringSoFar(start, value, here) && !Starts(here, '"')
    ensures ReadPiece(here).Fail? ==> ReadPieces(start).Fail?
    ensures ReadPiece(here).Parsed? ==>
              StringSoFar(start, value + PieceValue(ReadPiece(here).value), ReadPiece(here).rest)
  {
    PiecesGoOn(here);
    if ReadPiece(here).Parsed? && ReadPieces(ReadPiece(here).rest).Parsed? {
      Joins(value, PieceValue(ReadPiece(here).value), PiecesValue(ReadPieces(ReadPiece(here).rest).value));
    }
  }

  /** The pieces of a text that does not begin with a quote: its first piece and those of the rest. */
  lemma {:induction false} PiecesGoOn(here: string)
    requires !Starts(here, '"')
    ensures ReadPiece(here).Fail? ==> ReadPieces(here).Fail?
    ensures ReadPiece(here).Parsed? ==>
              var more := ReadPieces(ReadPiece(here).rest);
              if more.Fail? then ReadPieces(here).Fail?
              else
                && ReadPieces(here).Parsed? && ReadPieces(here).rest == more.rest
                && PiecesValue(ReadPieces(here).value) == PieceValue(ReadPiece(here).value) + PiecesValue(more.value)
  {
    if ReadPiece(here).Parsed? && ReadPieces(ReadPiece(here).rest).Parsed? {
      MorePieces(ReadPiece(here).value, ReadPieces(ReadPiece(here).rest).value, "");
    }
  }

  lemma {:induction false} Joins(a: string, b: string, c: string)
    ensures a + (b + c) == a + b + c
  {
  }

  /** What reading gives after `done` was read before it. */
  function After<T>(done: seq<T>, r: Parse<seq<T>>): Parse<seq<T>> {
    match r
    case Fail => Fail
    case Parsed(more, rest) => Parsed(done + more, rest)
  }

  lemma {:induction false} AfterBoth<T>(done: seq<T>, x: T, r: Parse<seq<T>>)
    ensures After(done, After([x], r)) == After(done + [x], r)
  {
    if r.Parsed? { assert done + ([x] + r.value) == done + [x] + r.value; }
  }

  lemma {:induction false} AfterNone<T>(r: Parse<seq<T>>)
    ensures After([], r) == r
  {
    if r.Parsed? { assert [] + r.value == r.value; }
  }

  /** The values of the elements. */
  function ReadItems(s: string): (r: Parse<seq<JsonValue>>) {
    match ReadElements(s)
    case Fail => Fail
    case Parsed(es, rest) => Parsed(ElementValues(es), rest)
  }

  lemma {:induction false} ItemsStep(s: string)
    ensures ReadItems(s) ==
      match ReadItem(s)
      case Fail => Fail
      case Parsed(item, v) =>
        if Starts(v, ']') then Parsed([Value(item.value)], v[1..])
        else if Starts(v, ',') then After([Value(item.value)], ReadItems(v[1..]))
        else Fail
  {
    if ReadItem(s).Parsed? && Starts(ReadItem(s).rest, ']') {
      var value := Value(ReadItem(s).value.value);
      assert [value] + [] == [value];
    }
  }

  lemma {:induction false} ItemsSkip(s: string)
    ensures ReadItems(Skip(s)) == ReadItems(s)
  {
    SkipTwice(s);
    ItemsStep(s);
    ItemsStep(Skip(s));
  }

  /** The names and values of the members. */
  function ReadFields(s: string): (r: Parse<seq<Field>>) {
    match ReadMembers(s)
    case Fail => Fail
    case Parsed(ms, rest) => Parsed(MemberValues(ms), rest)
  }

  lemma {:induction false} FieldsStep(s: string)
    ensures ReadFields(s) ==
      match ReadHead(s)
      case Fail => Fail
      case Parsed(h, t) =>
        match ReadItem(t)
        case Fail => Fail
        case Parsed(item, v) =>
          var field := Field(PiecesValue(h.key), Value(item.value));
          if Starts(v, '}') then Parsed([field], v[1..])
          else if Starts(v, ',') then After([field], ReadFields(v[1..]))
          else Fail
  {
    var h := ReadHead(s);
    if h.Parsed? && ReadItem(h.rest).Parsed? {
      var item := ReadItem(h.rest);
      var field := Field(PiecesValue(h.value.key), Value(item.value.value));
      if Starts(item.rest, '}') { assert [field] + [] == [field]; }
    }
  }

  /** The items of an array, with its brackets taken. */
  function ArrayItems(s: string): Parse<seq<JsonValue>>
    requires s != ""
  {
    var t := Skip(s[1..]);
    if Starts(t, ']') then Parsed([], t[1..]) else ReadItems(s[1..])
  }

  /** The fields of an object, with its braces taken. */
  function ObjectFields(s: string): Parse<seq<Field>>
    requires s != ""
  {
    var t := Skip(s[1..]);
    if Starts(t, '}') then Parsed([], t[1..]) else ReadFields(s[1..])
  }

  lemma {:induction false} ArrayOf(s: string)
    requires Starts(s, '[') && !Starts(Skip(s[1..]), ']')
    ensures var es := ReadElements(s[1..]);
            if es.Fail? then ReadArray(s).Fail? else ReadArray(s) == Parsed(ArrayText(es.value), es.rest)
  {
  }

  lemma {:induction false} ObjectOf(s: string)
    requires Starts(s, '{') && !Starts(Skip(s[1..]), '}')
    ensures var ms := ReadMembers(s[1..]);
            if ms.Fail? then ReadObject(s).Fail? else ReadObject(s) == Parsed(ObjectText(ms.value), ms.rest)
  {
  }

  /** What was read, as a loop gives it. */
  ghost predicate Gives<T>(r: Option<seq<T>>, read: Parse<seq<T>>, rest: string) {
    match read
    case Fail => r.None?
    case Parsed(xs, u) => r == Some(xs) && rest == u
  }

  lemma {:induction false} ArrayYields(s: string, items: Option<seq<JsonValue>>, rest: string)
    requires Starts(s, '[') && Gives(items, ArrayItems(s), rest)
    ensures Yields(if items.Some? then Some(Array(items.value)) else None, ReadArray(s), rest)
  {
    if !Starts(Skip(s[1..]), ']') { ArrayOf(s); }
  }

  lemma {:induction false} EmptyObjectOf(s: string)
    requires Starts(s, '{') && Starts(Skip(s[1..]), '}')
    ensures ReadObject(s) == Parsed(EmptyObject(Blank(s[1..])), Skip(s[1..])[1..])
  {
  }

  /** An object was read with these fields. */
  predicate HasFields(read: Parse<Syntax>, fields: Parse<seq<Field>>) {
    match fields
    case Fail => read.Fail?
    case Parsed(fs, u) => read.Parsed? && SyntaxOk(read.value) && Value(read.value) == Object(fs) && read.rest == u
  }

  lemma {:induction false} MembersAre(ms: Members, rest: string)
    requires MembersOk(ms)
    ensures HasFields(Parsed(ObjectText(ms), rest), Parsed(MemberValues(ms), rest))
  {
  }

  lemma {:induction false} ObjectHasFields(s: string)
    requires Starts(s, '{')
    ensures HasFields(ReadObject(s), ObjectFields(s))
  {
    if Starts(Skip(s[1..]), '}') {
      EmptyObjectOf(s);
    } else {
      ObjectOf(s);
      var ms := ReadMembers(s[1..]);
      if ms.Parsed? { MembersAre(ms.value, ms.rest); }
    }
  }

  lemma {:induction false} FieldsYield(read: Parse<Syntax>, all: Parse<seq<Field>>, fields: Option<seq<Field>>,
                                       rest: string)
    requires HasFields(read, all) && Gives(fields, all, rest)
    ensures Yields(if fields.Some? then Some(Object(fields.value)) else None, read, rest)
  {
  }

  lemma {:induction false} ObjectYields(s: string, fields: Option<seq<Field>>, rest: string)
    requires Starts(s, '{') && Gives(fields, ObjectFields(s), rest)
    ensures Yields(if fields.Some? then Some(Object(fields.value)) else None, ReadObject(s), rest)
  {
    ObjectHasFields(s);
    FieldsYield(ReadObject(s), ObjectFields(s), fields, rest);
  }

  lemma {:induction false} HeadSteps(s: string)
    ensures var t := Skip(s); !Starts(t, '"') ==> ReadHead(s).Fail?
    ensures var t := Skip(s); Starts(t, '"') ==>
      match ReadPieces(t[1..])
      case Fail => ReadHead(s).Fail?
      case Parsed(key, u) =>
        if Starts(Skip(u), ':') then
          ReadHead(s).Parsed? && ReadHead(s).value.key == key && ReadHead(s).rest == Skip(u)[1..]
        else ReadHead(s).Fail?
  {
  }

  lemma {:induction false} FieldsSkip(s: string)
    ensures ReadFields(Skip(s)) == ReadFields(s)
  {
    HeadSkips(s);
    FieldsStep(s);
    FieldsStep(Skip(s));
  }

  lemma {:induction false} HeadSkips(s: string)
    ensures ReadHead(Skip(s)).Fail? <==> ReadHead(s).Fail?
    ensures ReadHead(s).Parsed? ==> ReadHead(Skip(s)).rest == ReadHead(s).rest
    ensures ReadHead(s).Parsed? ==> ReadHead(Skip(s)).value.key == ReadHead(s).value.key
  {
    SkipTwice(s);
  }

  lemma {:induction false} DigitsSkip(s: string)
    requires s != "" && IsDigit(s[0])
    ensures Digits(s) != "" && s[|Digits(s)|..] == s[1..][|Digits(s[1..])|..]
  {
  }

  function AfterDigits(s: string): string {
    s[|Digits(s)|..]
  }

  /** A number is read part by part. */
  lemma {:induction false} NumberSteps(s: string)
    ensures var a := ReadInteger(if Starts(s, '-') then s[1..] else s);
            if a.Fail? then ReadNumber(s).Fail?
            else var b := ReadFraction(a.rest);
            if b.Fail? then ReadNumber(s).Fail?
            else var c := ReadExponent(b.rest);
            if c.Fail? then ReadNumber(s).Fail?
            else ReadNumber(s).Parsed? && ReadNumber(s).rest == c.rest
  {
  }

  class JsonParser {
    const text: string
    var pos: nat

    constructor (text: string)
      ensures this.text == text && pos == 0
    {
      this.text := text;
      pos := 0;
    }

    predicate Valid()
      reads this
    {
      pos <= |text|
    }

    function Rest(): string
      requires Valid()
      reads this
    {
      text[pos..]
    }

    /** The value of the text: the one value the grammar gives it, or none. */
    method Parse() returns (r: Option<JsonValue>)
      requires pos == 0
      modifies this
      ensures forall v :: Means(text, v) <==> r == Some(v)
    {
      r := ParseDocument();
      forall v ensures Means(text, v) <==> r == Some(v) {
        ReadMeans(text, v);
      }
    }

    method ParseDocument() returns (r: Option<JsonValue>)
      requires pos == 0
      modifies this
      ensures match ReadDocument(text)
              case Fail => r.None?
              case Parsed(doc, _) => r == Some(Value(doc.value))
    {
      assert Rest() == text;
      if SeemsUtf16(text) { return None; }
      if BOM <= text { pos := 3; }
      assert Rest() == AfterMark(text);
      SkipSpace();
      r := ParseValue();
      if r.Some? {
        SkipSpace();
        if pos != |text| { r := None; }
      }
    }

    method SkipSpace()
      requires Valid()
      modifies this
      ensures Valid() && old(pos) <= pos && Rest() == Skip(old(Rest()))
    {
      while pos < |text| && IsSpace(text[pos])
        invariant Valid() && old(pos) <= pos && Skip(Rest()) == Skip(old(Rest()))
      {
        assert Rest()[1..] == text[pos + 1..];
        pos := pos + 1;
      }
    }

    method ParseValue() returns (r: Option<JsonValue>)
      requires Valid()
      modifies this
      ensures Valid() && old(pos) <= pos && (r.Some? ==> old(pos) < pos)
      ensures Yields(r, ReadValue(Skip(old(Rest()))), Rest())
      decreases |text| - pos, 2
    {
      SkipSpace();
      if pos == |text| { return None; }
      match text[pos]
      case 'n' => r := ParseWord("null", NullText);
      case 't' => r := ParseWord("true", BoolText(true));
      case 'f' => r := ParseWord("false", BoolText(false));
      case '"' =>
        var s := ParseString();
        r := if s.Some? then Some(String(s.value)) else None;
      case '[' => r := ParseArray();
      case '{' => r := ParseObject();
      case c =>
        if c == '-' || IsDigit(c) {
          r := ParseNumber();
        } else {
          r := None;
        }
    }

    method ParseWord(word: string, y: Syntax) returns (r: Option<JsonValue>)
      requires Valid() && word != ""
      requires y.NullText? || y.BoolText?
      requires forall rest :: Text(y, rest) == word + rest
      modifies this
      ensures Valid() && old(pos) <= pos && (r.Some? ==> old(pos) < pos)
      ensures Yields(r, ReadWord(old(Rest()), word, y), Rest())
    {
      if word <= text[pos..] {
        assert Rest()[|word|..] == text[pos + |word|..];
        pos := pos + |word|;
        r := Some(Value(y));
      } else {
        r := None;
      }
    }

    /** The value of four hex digits. */
    method ParseHex4() returns (r: Option<nat>)
      requires Valid()
      modifies this
      ensures Valid() && old(pos) <= pos
      ensures match ReadHex(old(Rest()))
              case Fail => r.None?
              case Parsed(hex, rest) => r == Some(Hex4Value(hex)) && Rest() == rest
    {
      if pos + 4 > |text| { return None; }
      ghost var s := Rest();
      var value, i := 0, 0;
      while i < 4
        invariant 0 <= i <= 4 && pos == old(pos) + i
        invariant forall k :: 0 <= k < i ==> IsHex(s[k])
        invariant i == 0 ==> value == 0
        invariant i == 1 ==> value == HexValue(s[0])
        invariant i == 2 ==> value == HexValue(s[0]) * 16 + HexValue(s[1])
        invariant i == 3 ==> value == (HexValue(s[0]) * 16 + HexValue(s[1])) * 16 + HexValue(s[2])
        invariant i == 4 ==> IsHex4(s[..4]) && value == Hex4Value(s[..4])
      {
        var ch := text[pos];
        assert ch == s[i];
        pos := pos + 1;
        if !IsHex(ch) {
          assert s[..4][i] == ch;
          return None;
        }
        value := value * 16 + HexValue(ch);
        i := i + 1;
      }
      assert s[4..] == text[pos..];
      r := Some(value);
    }

    /** The code point after a backslash and a `u`, written as UTF-8. */
    method ParseUnicode() returns (r: Option<string>)
      requires Valid()
      modifies this
      ensures Valid() && old(pos) <= pos
      ensures YieldsPiece(r, ReadUnicode(old(Rest())), Rest())
    {
      var first := ParseHex4();
      if first.None? { return None; }
      var codepoint := first.value;
      if IsHigh(codepoint) {
        if pos + 6 > |text| || text[pos] != '\\' || text[pos + 1] != 'u' { return None; }
        assert Rest()[2..] == text[pos + 2..];
        pos := pos + 2;
        var low := ParseHex4();
        if low.None? || !IsLow(low.value) { return None; }
        codepoint := PairValue(codepoint, low.value);
      }
      r := Some(Utf8(codepoint));
    }

    /** The rest of an escape, after its backslash. */
    method ParseEscape() returns (r: Option<string>)
      requires Valid()
      modifies this
      ensures Valid() && old(pos) <= pos
      ensures YieldsPiece(r, ReadPiece("\\" + old(Rest())), Rest())
    {
      ghost var s := "\\" + Rest();
      if pos == |text| { return None; }
      var escaped := text[pos];
      assert s[1] == escaped && s[2..] == text[pos + 1..];
      pos := pos + 1;
      if IsEscapeLetter(escaped) {
        r := Some([EscapeValue(escaped)]);
      } else if escaped == 'u' {
        r := ParseUnicode();
      } else {
        r := None;
      }
    }

    method ParseString() returns (r: Option<string>)
      requires Valid() && Starts(Rest(), '"')
      modifies this
      ensures Valid() && old(pos) < pos
      ensures YieldsString(r, ReadPieces(old(Rest())[1..]), Rest())
    {
      pos := pos + 1;
      ghost var start := Rest();
      var value := "";
      StringStarts(start);
      while pos < |text|
        invariant Valid() && old(pos) < pos && StringSoFar(start, value, Rest())
        decreases |text| - pos
      {
        ghost var here := Rest();
        var ch := text[pos];
        pos := pos + 1;
        assert here == [ch] + Rest() && here[1..] == Rest();
        if ch == '"' {
          assert value + PiecesValue([]) == value;
          return Some(value);
        }
        StringGoesOn(start, value, here);
        if ch as int < 0x20 { return None; }
        if ch != '\\' {
          value := value + [ch];
        } else {
          var piece := ParseEscape();
          if piece.None? { return None; }
          value := value + piece.value;
        }
      }
      r := None;
    }

    /** Moves over digits. */
    method SkipDigits()
      requires Valid()
      modifies this
      ensures Valid() && old(pos) <= pos && Rest() == AfterDigits(old(Rest()))
    {
      while pos < |text| && IsDigit(text[pos])
        invariant Valid() && old(pos) <= pos && AfterDigits(Rest()) == AfterDigits(old(Rest()))
      {
        assert Rest()[1..] == text[pos + 1..];
        DigitsSkip(Rest());
        pos := pos + 1;
      }
    }

    method SkipInteger() returns (ok: bool)
      requires Valid()
      modifies this
      ensures Valid() && old(pos) <= pos
      ensures match ReadInteger(old(Rest()))
              case Fail => !ok
              case Parsed(_, rest) => ok && Rest() == rest
    {
      if pos >= |text| { return false; }
      ok := true;
      if text[pos] == '0' {
        assert Rest()[1..] == text[pos + 1..];
        pos := pos + 1;
      } else if IsDigit(text[pos]) {
        SkipDigits();
      } else {
        ok := false;
      }
    }

    method SkipFraction() returns (ok: bool)
      requires Valid()
      modifies this
      ensures Valid() && old(pos) <= pos
      ensures match ReadFraction(old(Rest()))
              case Fail => !ok
              case Parsed(_, rest) => ok && Rest() == rest
    {
      if pos < |text| && text[pos] == '.' {
        assert Rest()[1..] == text[pos + 1..];
        pos := pos + 1;
        if pos >= |text| || !IsDigit(text[pos]) { return false; }
        SkipDigits();
      }
      ok := true;
    }

    method SkipExponent() returns (ok: bool)
      requires Valid()
      modifies this
      ensures Valid() && old(pos) <= pos
      ensures match ReadExponent(old(Rest()))
              case Fail => !ok
              case Parsed(_, rest) => ok && Rest() == rest
    {
      ghost var s := Rest();
      if pos < |text| && (text[pos] == 'e' || text[pos] == 'E') {
        pos := pos + 1;
        if pos < |text| && (text[pos] == '+' || text[pos] == '-') { pos := pos + 1; }
        assert pos == old(pos) + |Mark(s)| && Rest() == s[|Mark(s)|..];
        if pos >= |text| || !IsDigit(text[pos]) { return false; }
        SkipDigits();
      }
      ok := true;
    }

    /** Moves over a number. */
    method SkipNumber() returns (ok: bool)
      requires Valid()
      modifies this
      ensures Valid() && old(pos) <= pos
      ensures match ReadNumber(old(Rest()))
              case Fail => !ok
              case Parsed(_, rest) => ok && Rest() == rest
    {
      NumberSteps(Rest());
      if pos < |text| && text[pos] == '-' { var _ := Consume(); }
      ok := SkipInteger();
      if !ok { return; }
      ok := SkipFraction();
      if !ok { return; }
      ok := SkipExponent();
    }

    method ParseNumber() returns (r: Option<JsonValue>)
      requires Valid()
      modifies this
      ensures Valid() && old(pos) <= pos && (r.Some? ==> old(pos) < pos)
      ensures Yields(r, ReadNumberValue(old(Rest())), Rest())
    {
      var start := pos;
      ghost var s := Rest();
      var ok := SkipNumber();
      if !ok { return None; }
      NumberYields(s, text, start, pos);
      r := Some(Number(text[start..pos]));
    }

    /** The next character, taken. */
    method Consume() returns (c: Option<char>)
      requires Valid()
      modifies this
      ensures Valid() && old(pos) <= pos
      ensures if old(Rest()) == "" then c.None? && pos == old(pos)
              else old(pos) < pos && c == Some(old(Rest())[0]) && Rest() == old(Rest())[1..]
    {
      if pos >= |text| { return None; }
      assert Rest()[1..] == text[pos + 1..];
      pos := pos + 1;
      c := Some(text[pos - 1]);
    }

    /** A value and the whitespace around it. */
    method ParseItem() returns (r: Option<JsonValue>)
      requires Valid()
      modifies this
      ensures Valid() && old(pos) <= pos && (r.Some? ==> old(pos) < pos)
      ensures match ReadItem(old(Rest()))
              case Fail => r.None?
              case Parsed(item, v) => r == Some(Value(item.value)) && Rest() == v
      decreases |text| - pos, 3
    {
      r := ParseValue();
      if r.Some? { SkipSpace(); }
    }

    method ParseArray() returns (r: Option<JsonValue>)
      requires Valid() && Starts(Rest(), '[')
      modifies this
      ensures Valid() && old(pos) < pos
      ensures Yields(r, ReadArray(old(Rest())), Rest())
      decreases |text| - pos, 1
    {
      var _ := Consume();
      ghost var start := Rest();
      SkipSpace();
      ItemsSkip(start);
      var items := Some([]);
      if pos < |text| && text[pos] == ']' {
        var _ := Consume();
      } else {
        items := ParseItems();
      }
      ArrayYields(old(Rest()), items, Rest());
      r := if items.Some? then Some(Array(items.value)) else None;
    }

    /** The elements of a non-empty array and the closing bracket. */
    method ParseItems() returns (r: Option<seq<JsonValue>>)
      requires Valid()
      modifies this
      ensures Valid() && old(pos) <= pos
      ensures Gives(r, ReadItems(old(Rest())), Rest())
      decreases |text| - pos, 4
    {
      ghost var start := Rest();
      var items := [];
      AfterNone(ReadItems(start));
      while true
        invariant Valid() && old(pos) <= pos && ReadItems(start) == After(items, ReadItems(Rest()))
        decreases |text| - pos
      {
        ItemsStep(Rest());
        var value := ParseItem();
        if value.None? { return None; }
        ghost var v := Rest();
        var ch := Consume();
        if ch == Some(']') { return Some(items + [value.value]); }
        if ch != Some(',') { return None; }
        AfterBoth(items, value.value, ReadItems(v[1..]));
        items := items + [value.value];
      }
    }

    method ParseObject() returns (r: Option<JsonValue>)
      requires Valid() && Starts(Rest(), '{')
      modifies this
      ensures Valid() && old(pos) < pos
      ensures Yields(r, ReadObject(old(Rest())), Rest())
      decreases |text| - pos, 1
    {
      var _ := Consume();
      ghost var start := Rest();
      SkipSpace();
      FieldsSkip(start);
      var fields := Some([]);
      if pos < |text| && text[pos] == '}' {
        var _ := Consume();
      } else {
        fields := ParseFields();
      }
      ObjectYields(old(Rest()), fields, Rest());
      r := if fields.Some? then Some(Object(fields.value)) else None;
    }

    /** The members of a non-empty object and the closing brace. */
    method ParseFields() returns (r: Option<seq<Field>>)
      requires Valid()
      modifies this
      ensures Valid() && old(pos) <= pos
      ensures Gives(r, ReadFields(old(Rest())), Rest())
      decreases |text| - pos, 4
    {
      ghost var start := Rest();
      var fields := [];
      AfterNone(ReadFields(start));
      while true
        invariant Valid() && old(pos) <= pos && ReadFields(start) == After(fields, ReadFields(Rest()))
        decreases |text| - pos
      {
        FieldsStep(Rest());
        var key := ParseKey();
        if key.None? { return None; }
        var value := ParseItem();
        if value.None? { return None; }
        ghost var v := Rest();
        var field := Field(key.value, value.value);
        var ch := Consume();
        if ch == Some('}') { return Some(fields + [field]); }
        if ch != Some(',') { return None; }
        AfterBoth(fields, field, ReadFields(v[1..]));
        fields := fields + [field];
      }
    }

    /** A member's name and the colon after it. */
    method ParseKey() returns (r: Option<string>)
      requires Valid()
      modifies this
      ensures Valid() && old(pos) <= pos
      ensures match ReadHead(old(Rest()))
              case Fail => r.None?
              case Parsed(h, rest) => old(pos) < pos && r == Some(PiecesValue(h.key)) && Rest() == rest
    {
      HeadSteps(Rest());
      SkipSpace();
      if pos == |text| || text[pos] != '"' { return None; }
      r := ParseString();
      if r.None? { return None; }
      SkipSpace();
      var ch := Consume();
      if ch != Some(':') { r := None; }
    }
  }

  /** The characters a number takes are its text. */
  lemma {:induction false} NumberSlice(s: string, text: string, start: nat, end: nat)
    requires start <= end <= |text| && s == text[start..]
    requires ReadNumber(s).Parsed? && ReadNumber(s).rest == text[end..]
    ensures text[start..end] == NumberText(ReadNumber(s).value, "") && start < end
  {
    var n := ReadNumber(s).value;
    NumberTaken(s);
    NumberTextSplits(n, text[end..]);
    SliceOf(NumberText(n, ""), text, start, end);
  }

  lemma {:induction false} LiteralYields(n: NumberSyntax, w: string, read: Parse<Syntax>, rest: string)
    requires read == Parsed(NumberLiteral(n), rest) && SyntaxOk(NumberLiteral(n)) && w == NumberText(n, "")
    ensures Yields(Some(Number(w)), read, rest)
  {
  }

  lemma {:induction false} NumberYields(s: string, text: string, start: nat, end: nat)
    requires start <= end <= |text| && s == text[start..]
    requires ReadNumber(s).Parsed? && ReadNumber(s).rest == text[end..]
    ensures Yields(Some(Number(text[start..end])), ReadNumberValue(s), text[end..]) && start < end
  {
    NumberSlice(s, text, start, end);
    LiteralYields(ReadNumber(s).value, text[start..end], ReadNumberValue(s), text[end..]);
  }

  lemma {:induction false} SliceOf(w: string, text: string, start: nat, end: nat)
    requires start <= end <= |text| && text[start..] == w + text[end..]
    ensures text[start..end] == w
  {
    assert |w| == end - start;
    assert text[start..end] == text[start..][..|w|];
  }
}
