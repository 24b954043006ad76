/** JSON texts as sections 2 to 7 of RFC 8259 describe them and the parser takes them: vertical tab and form feed are
    whitespace too, and escaped high surrogates come in pairs. A syntax tree keeps every choice this leaves open:
    whitespace, escapes and the spelling of numbers. The text functions take what follows as an argument, so that
    `Text(y, rest)` is the text of `y` and then `rest`. A `char` stands for one byte, and string values are UTF-8. */
module JsonGrammar {
  import opened Characters
  import opened Decimals

  datatype JsonValue =
    | Null
    | Bool(text: string)
    | Number(text: string)
    | String(text: string)
    | Array(items: seq<JsonValue>)
    | Object(fields: seq<Field>)

  datatype Field = Field(key: string, value: JsonValue)

  // ----- UTF-8 -----

  function Byte(b: nat): char
    requires b < 0x100
  {
    b as char
  }

  /** The bytes of a code point. */
  function Utf8(codepoint: nat): string
    requires codepoint <= 0x10FFFF
  {
    if codepoint <= 0x7F then [Byte(codepoint)]
    else if codepoint <= 0x7FF then [Byte(0xC0 + codepoint / 0x40), Byte(0x80 + codepoint % 0x40)]
    else if codepoint <= 0xFFFF then
      [Byte(0xE0 + codepoint / 0x1000), Byte(0x80 + codepoint / 0x40 % 0x40), Byte(0x80 + codepoint % 0x40)]
    else
      [Byte(0xF0 + codepoint / 0x40000), Byte(0x80 + codepoint / 0x1000 % 0x40),
       Byte(0x80 + codepoint / 0x40 % 0x40), Byte(0x80 + codepoint % 0x40)]
  }

  predicate Tail(c: char) {
    0x80 <= c as int <= 0xBF
  }

  /** The byte sequences of section 4 of RFC 3629: no overlong form, no surrogate, nothing above U+10FFFF. */
  predicate WellFormedUtf8(s: string) {
    || (|s| == 1 && s[0] as int <= 0x7F)
    || (|s| == 2 && 0xC2 <= s[0] as int <= 0xDF && Tail(s[1]))
    || (|s| == 3 && Tail(s[2]) && (
         || (s[0] as int == 0xE0 && 0xA0 <= s[1] as int <= 0xBF)
         || (0xE1 <= s[0] as int <= 0xEC && Tail(s[1]))
         || (s[0] as int == 0xED && 0x80 <= s[1] as int <= 0x9F)
         || (0xEE <= s[0] as int <= 0xEF && Tail(s[1]))))
    || (|s| == 4 && Tail(s[2]) && Tail(s[3]) && (
         || (s[0] as int == 0xF0 && 0x90 <= s[1] as int <= 0xBF)
         || (0xF1 <= s[0] as int <= 0xF3 && Tail(s[1]))
         || (s[0] as int == 0xF4 && 0x80 <= s[1] as int <= 0x8F)))
  }

  function Bits(c: char, marker: int): int {
    c as int - marker
  }

  /** The code point of a byte sequence, by the bit layout of section 3 of RFC 3629. */
  function DecodeUtf8(s: string): int {
    if |s| == 1 then s[0] as int
    else if |s| == 2 then Bits(s[0], 0xC0) * 0x40 + Bits(s[1], 0x80)
    else if |s| == 3 then Bits(s[0], 0xE0) * 0x1000 + Bits(s[1], 0x80) * 0x40 + Bits(s[2], 0x80)
    else if |s| == 4 then
      Bits(s[0], 0xF0) * 0x40000 + Bits(s[1], 0x80) * 0x1000 + Bits(s[2], 0x80) * 0x40 + Bits(s[3], 0x80)
    else -1
  }

  /** Decoding returns the code point, and the bytes are well formed exactly for scalar values. */
  lemma {:induction false} Utf8RoundTrip(codepoint: nat)
    requires codepoint <= 0x10FFFF
    ensures DecodeUtf8(Utf8(codepoint)) == codepoint
    ensures WellFormedUtf8(Utf8(codepoint)) <==> !(0xD800 <= codepoint <= 0xDFFF)
  {
    if codepoint <= 0x7FF {
    } else if codepoint <= 0xFFFF {
      ThreeBytes(codepoint);
    } else {
      FourBytes(codepoint);
    }
  }

  lemma {:induction false} ThreeBytes(codepoint: nat)
    requires 0x7FF < codepoint <= 0xFFFF
    ensures DecodeUtf8(Utf8(codepoint)) == codepoint
    ensures WellFormedUtf8(Utf8(codepoint)) <==> !(0xD800 <= codepoint <= 0xDFFF)
  {
    assert codepoint / 0x40 == codepoint / 0x1000 * 0x40 + codepoint / 0x40 % 0x40;
  }

  lemma {:induction false} FourBytes(codepoint: nat)
    requires 0xFFFF < codepoint <= 0x10FFFF
    ensures DecodeUtf8(Utf8(codepoint)) == codepoint && WellFormedUtf8(Utf8(codepoint))
  {
    assert codepoint / 0x1000 == codepoint / 0x40000 * 0x40 + codepoint / 0x1000 % 0x40;
    assert codepoint / 0x40 == codepoint / 0x1000 * 0x40 + codepoint / 0x40 % 0x40;
  }

  // ----- Strings -----

  predicate IsHex(c: char) {
    IsDigit(c) || 'a' <= c <= 'f' || 'A' <= c <= 'F'
  }

  function HexValue(c: char): (v: nat)
    requires IsHex(c)
    ensures v < 16
  {
    if IsDigit(c) then c as int - '0' as int
    else if 'a' <= c <= 'f' then 10 + c as int - 'a' as int
    else 10 + c as int - 'A' as int
  }

  predicate IsHex4(s: string) {
    |s| == 4 && forall i :: 0 <= i < 4 ==> IsHex(s[i])
  }

  function Hex4Value(s: string): (v: nat)
    requires IsHex4(s)
    ensures v <= 0xFFFF
  {
    ((HexValue(s[0]) * 16 + HexValue(s[1])) * 16 + HexValue(s[2])) * 16 + HexValue(s[3])
  }

  predicate IsHigh(code: nat) {
    0xD800 <= code <= 0xDBFF
  }

  predicate IsLow(code: nat) {
    0xDC00 <= code <= 0xDFFF
  }

  /** A character of a string: itself, an escape letter, four hex digits, or the digits of a surrogate pair. */
  datatype Piece = Raw(c: char) | Escaped(letter: char) | Unicode(hex: string) | Pair(high: string, low: string)

  predicate IsEscapeLetter(c: char) {
    c in "\"\\/bfnrt"
  }

  function EscapeValue(letter: char): char {
    match letter
    case 'b' => '\U{08}'
    case 'f' => '\U{0C}'
    case 'n' => '\n'
    case 'r' => '\r'
    case 't' => '\t'
    case _ => letter
  }

  /** What the parser takes; a low surrogate may stand alone. */
  predicate PieceOk(p: Piece) {
    match p
    case Raw(c) => c as int >= 0x20 && c != '"' && c != '\\'
    case Escaped(letter) => IsEscapeLetter(letter)
    case Unicode(hex) => IsHex4(hex) && !IsHigh(Hex4Value(hex))
    case Pair(high, low) => IsHex4(high) && IsHex4(low) && IsHigh(Hex4Value(high)) && IsLow(Hex4Value(low))
  }

  function PieceText(p: Piece): string {
    match p
    case Raw(c) => [c]
    case Escaped(letter) => ['\\', letter]
    case Unicode(hex) => "\\u" + hex
    case Pair(high, low) => "\\u" + high + "\\u" + low
  }

  function PairValue(high: nat, low: nat): (v: nat)
    requires IsHigh(high) && IsLow(low)
    ensures 0x10000 <= v <= 0x10FFFF
  {
    0x10000 + (high - 0xD800) * 0x400 + (low - 0xDC00)
  }

  function PieceValue(p: Piece): string
    requires PieceOk(p)
  {
    match p
    case Raw(c) => [c]
    case Escaped(letter) => [EscapeValue(letter)]
    case Unicode(hex) => Utf8(Hex4Value(hex))
    case Pair(high, low) => Utf8(PairValue(Hex4Value(high), Hex4Value(low)))
  }

  predicate PiecesOk(ps: seq<Piece>) {
    forall i :: 0 <= i < |ps| ==> PieceOk(ps[i])
  }

  /** The characters of a string and the closing quote. */
  function PiecesText(ps: seq<Piece>, rest: string): string {
    if ps == [] then "\"" + rest else PieceText(ps[0]) + PiecesText(ps[1..], rest)
  }

  function PiecesValue(ps: seq<Piece>): string
    requires PiecesOk(ps)
  {
    if ps == [] then "" else PieceValue(ps[0]) + PiecesValue(ps[1..])
  }

  // ----- Numbers -----

  /** `[minus] int [frac] [exp]`: `frac` holds the digits after the point and `exponent` those after the mark,
      empty when the part is missing. */
  datatype NumberSyntax = NumberSyntax(minus: bool, integer: string, frac: string, mark: string, exponent: string)

  predicate NumberOk(n: NumberSyntax) {
    && AllDigits(n.integer) && n.integer != "" && (n.integer[0] == '0' ==> n.integer == "0")
    && AllDigits(n.frac) && AllDigits(n.exponent)
    && n.mark in ["", "e", "E", "e+", "e-", "E+", "E-"] && (n.mark == "" <==> n.exponent == "")
  }

  function FractionText(frac: string, rest: string): string {
    if frac == "" then rest else "." + (frac + rest)
  }

  /** A number without its sign. */
  function MagnitudeText(n: NumberSyntax, rest: string): string {
    n.integer + FractionText(n.frac, n.mark + (n.exponent + rest))
  }

  function NumberText(n: NumberSyntax, rest: string): string {
    if n.minus then "-" + MagnitudeText(n, rest) else MagnitudeText(n, rest)
  }

  // ----- Values -----

  predicate AllSpace(s: string) {
    forall i :: 0 <= i < |s| ==> IsSpace(s[i])
  }

  datatype Syntax =
    | NullText
    | BoolText(value: bool)
    | NumberLiteral(number: NumberSyntax)
    | StringText(pieces: seq<Piece>)
    | EmptyArray(blank: string)
    | ArrayText(elements: Elements)
    | EmptyObject(blank: string)
    | ObjectText(members: Members)

  /** The elements of an array, each between whitespace. */
  datatype Elements =
    | LastElement(before: string, value: Syntax, after: string)
    | MoreElements(before: string, value: Syntax, after: string, rest: Elements)

  datatype Members =
    | LastMember(before: string, key: seq<Piece>, colon: string, space: string, value: Syntax, after: string)
    | MoreMembers(before: string, key: seq<Piece>, colon: string, space: string, value: Syntax, after: string,
                  rest: Members)

  predicate SyntaxOk(y: Syntax) {
    match y
    case NullText => true
    case BoolText(_) => true
    case NumberLiteral(n) => NumberOk(n)
    case StringText(ps) => PiecesOk(ps)
    case EmptyArray(blank) => AllSpace(blank)
    case ArrayText(es) => ElementsOk(es)
    case EmptyObject(blank) => AllSpace(blank)
    case ObjectText(ms) => MembersOk(ms)
  }

  predicate ElementsOk(es: Elements) {
    && AllSpace(es.before) && AllSpace(es.after) && SyntaxOk(es.value)
    && (es.MoreElements? ==> ElementsOk(es.rest))
  }

  predicate MembersOk(ms: Members) {
    && AllSpace(ms.before) && AllSpace(ms.colon) && AllSpace(ms.space) && AllSpace(ms.after)
    && PiecesOk(ms.key) && SyntaxOk(ms.value)
    && (ms.MoreMembers? ==> MembersOk(ms.rest))
  }

  function Text(y: Syntax, rest: string): string {
    match y
    case NullText => "null" + rest
    case BoolText(b) => (if b then "true" else "false") + rest
    case NumberLiteral(n) => NumberText(n, rest)
    case StringText(ps) => "\"" + PiecesText(ps, rest)
    case EmptyArray(blank) => "[" + (blank + ("]" + rest))
    case ArrayText(es) => "[" + ElementsText(es, rest)
    case EmptyObject(blank) => "{" + (blank + ("}" + rest))
    case ObjectText(ms) => "{" + MembersText(ms, rest)
  }

  /** The elements and the closing bracket. */
  function ElementsText(es: Elements, rest: string): string {
    es.before + Text(es.value, es.after +
      if es.MoreElements? then "," + ElementsText(es.rest, rest) else "]" + rest)
  }

  /** A member's name and the colon after it. */
  function HeadText(before: string, key: seq<Piece>, colon: string, rest: string): string {
    before + ("\"" + PiecesText(key, colon + (":" + rest)))
  }

  /** The members and the closing brace. */
  function MembersText(ms: Members, rest: string): string {
    HeadText(ms.before, ms.key, ms.colon, ms.space + Text(ms.value, ms.after +
      if ms.MoreMembers? then "," + MembersText(ms.rest, rest) else "}" + rest))
  }

  function Value(y: Syntax): JsonValue
    requires SyntaxOk(y)
  {
    match y
    case NullText => Null
    case BoolText(b) => Bool(if b then "true" else "false")
    case NumberLiteral(n) => Number(NumberText(n, ""))
    case StringText(ps) => String(PiecesValue(ps))
    case EmptyArray(_) => Array([])
    case ArrayText(es) => Array(ElementValues(es))
    case EmptyObject(_) => Object([])
    case ObjectText(ms) => Object(MemberValues(ms))
  }

  function ElementValues(es: Elements): seq<JsonValue>
    requires ElementsOk(es)
  {
    [Value(es.value)] + if es.MoreElements? then ElementValues(es.rest) else []
  }

  function MemberValues(ms: Members): seq<Field>
    requires MembersOk(ms)
  {
    [Field(PiecesValue(ms.key), Value(ms.value))] + if ms.MoreMembers? then MemberValues(ms.rest) else []
  }

  /** A whole text: an optional byte order mark, and a value between whitespace. */
  datatype Document = Document(marked: bool, before: string, value: Syntax, after: string)

  predicate DocumentOk(doc: Document) {
    AllSpace(doc.before) && AllSpace(doc.after) && SyntaxOk(doc.value)
  }

  function DocumentText(doc: Document): string {
    (if doc.marked then BOM else "") + (doc.before + Text(doc.value, doc.after))
  }
}
