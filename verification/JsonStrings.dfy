/** JSON strings by code points: whichever way each character is spelled, the string stands for the UTF-8 of all. */
module JsonStrings {
  import opened JsonGrammar
  import opened JsonReader

  const LOWER := "0123456789abcdef"
  const UPPER := "0123456789ABCDEF"

  function HexDigit(d: nat, upper: bool): char
    requires d < 16
  {
    if upper then UPPER[d] else LOWER[d]
  }

  /** Four hex digits, each in the case asked for. */
  function HexWord(v: nat, upper: seq<bool>): (s: string)
    requires v <= 0xFFFF && |upper| == 4
    ensures |s| == 4
  {
    HexDigits(v / 0x1000, v / 0x100 % 0x10, v / 0x10 % 0x10, v % 0x10, upper)
  }

  function HexDigits(a: nat, b: nat, c: nat, d: nat, upper: seq<bool>): (s: string)
    requires a < 16 && b < 16 && c < 16 && d < 16 && |upper| == 4
    ensures |s| == 4
  {
    [HexDigit(a, upper[0]), HexDigit(b, upper[1]), HexDigit(c, upper[2]), HexDigit(d, upper[3])]
  }

  lemma {:induction false} HexDigitRead(d: nat, upper: bool)
    requires d < 16
    ensures IsHex(HexDigit(d, upper)) && HexValue(HexDigit(d, upper)) == d
  {
  }

  lemma {:induction false} HexDigitsRead(a: nat, b: nat, c: nat, d: nat, upper: seq<bool>)
    requires a < 16 && b < 16 && c < 16 && d < 16 && |upper| == 4
    ensures var s := HexDigits(a, b, c, d, upper); IsHex4(s) && Hex4Value(s) == a * 0x1000 + b * 0x100 + c * 0x10 + d
  {
    HexDigitRead(a, upper[0]);
    HexDigitRead(b, upper[1]);
    HexDigitRead(c, upper[2]);
    HexDigitRead(d, upper[3]);
  }

  lemma {:induction false} FourDigits(v: nat)
    ensures v == v / 0x1000 * 0x1000 + v / 0x100 % 0x10 * 0x100 + v / 0x10 % 0x10 * 0x10 + v % 0x10
  {
    assert v / 0x100 == v / 0x1000 * 0x10 + v / 0x100 % 0x10;
    assert v / 0x10 == v / 0x100 * 0x10 + v / 0x10 % 0x10;
  }

  lemma {:induction false} HexWordRead(v: nat, upper: seq<bool>)
    requires v <= 0xFFFF && |upper| == 4
    ensures IsHex4(HexWord(v, upper)) && Hex4Value(HexWord(v, upper)) == v
  {
    FourDigits(v);
    HexDigitsRead(v / 0x1000, v / 0x100 % 0x10, v / 0x10 % 0x10, v % 0x10, upper);
  }

  // ----- Spelling a character -----

  /** A character as it is, by its letter after a backslash, or by hex digits in the cases asked for. */
  datatype Spelling = Plain | Letter | Hex(upper: seq<bool>)

  datatype Spelled = Spelled(codepoint: nat, how: Spelling)

  predicate SpelledOk(c: Spelled) {
    && c.codepoint <= 0x10FFFF
    && match c.how
       case Plain => 0x20 <= c.codepoint && c.codepoint != 0x22 && c.codepoint != 0x5C
       case Letter => c.codepoint in {0x08, 0x09, 0x0A, 0x0C, 0x0D, 0x22, 0x2F, 0x5C}
       case Hex(upper) => !(0xD800 <= c.codepoint <= 0xDBFF) && |upper| == 8
  }

  predicate CharactersOk(cs: seq<Spelled>) {
    forall i :: 0 <= i < |cs| ==> SpelledOk(cs[i])
  }

  function LetterOf(codepoint: nat): char
    requires codepoint < 0x80
  {
    match codepoint
    case 0x08 => 'b'
    case 0x09 => 't'
    case 0x0A => 'n'
    case 0x0C => 'f'
    case 0x0D => 'r'
    case _ => codepoint as char
  }

  /** Section 7 of RFC 8259: beyond the basic plane, twelve characters for the surrogate pair. */
  function Spell(c: Spelled): string
    requires SpelledOk(c)
  {
    match c.how
    case Plain => Utf8(c.codepoint)
    case Letter => ['\\', LetterOf(c.codepoint)]
    case Hex(upper) =>
      if c.codepoint <= 0xFFFF then "\\u" + HexWord(c.codepoint, upper[..4])
      else "\\u" + HexWord(HighCode(c.codepoint), upper[..4]) + "\\u" + HexWord(LowCode(c.codepoint), upper[4..])
  }

  function HighCode(codepoint: nat): (v: nat)
    requires 0xFFFF < codepoint <= 0x10FFFF
    ensures v <= 0xFFFF
  {
    0xD800 + (codepoint - 0x10000) / 0x400
  }

  function LowCode(codepoint: nat): (v: nat)
    requires 0xFFFF < codepoint <= 0x10FFFF
    ensures v <= 0xFFFF
  {
    0xDC00 + (codepoint - 0x10000) % 0x400
  }

  function SpellAll(cs: seq<Spelled>): string
    requires CharactersOk(cs)
  {
    if cs == [] then "" else Spell(cs[0]) + SpellAll(cs[1..])
  }

  function Bytes(c: Spelled): string
    requires SpelledOk(c)
  {
    Utf8(c.codepoint)
  }

  function Utf8All(cs: seq<Spelled>): string
    requires CharactersOk(cs)
  {
    if cs == [] then "" else Bytes(cs[0]) + Utf8All(cs[1..])
  }

  // ----- The pieces it is read as -----

  function Raws(bytes: string): seq<Piece> {
    seq(|bytes|, i requires 0 <= i < |bytes| => Raw(bytes[i]))
  }

  function PiecesOf(c: Spelled): seq<Piece>
    requires SpelledOk(c)
  {
    match c.how
    case Plain => Raws(Utf8(c.codepoint))
    case Letter => [Escaped(LetterOf(c.codepoint))]
    case Hex(upper) =>
      if c.codepoint <= 0xFFFF then [Unicode(HexWord(c.codepoint, upper[..4]))]
      else [Pair(HexWord(HighCode(c.codepoint), upper[..4]), HexWord(LowCode(c.codepoint), upper[4..]))]
  }

  lemma {:induction false} RawsRead(bytes: string, rest: seq<Piece>, after: string)
    requires forall i :: 0 <= i < |bytes| ==> bytes[i] as int >= 0x20 && bytes[i] != '"' && bytes[i] != '\\'
    requires PiecesOk(rest)
    ensures PiecesText(Raws(bytes) + rest, after) == bytes + PiecesText(rest, after)
    ensures PiecesOk(Raws(bytes) + rest) && PiecesValue(Raws(bytes) + rest) == bytes + PiecesValue(rest)
  {
    if bytes == "" {
      assert Raws(bytes) + rest == rest;
      NothingBefore(PiecesText(rest, after));
      NothingBefore(PiecesValue(rest));
    } else {
      var more := Raws(bytes[1..]) + rest;
      RawsRead(bytes[1..], rest, after);
      assert Raws(bytes) + rest == [Raw(bytes[0])] + more;
      OneRead(Raw(bytes[0]), more, after);
      FirstBefore(bytes, PiecesText(rest, after));
      FirstBefore(bytes, PiecesValue(rest));
    }
  }

  lemma {:induction false} NothingBefore(s: string)
    ensures "" + s == s
  {
  }

  lemma {:induction false} FirstBefore(s: string, t: string)
    requires s != ""
    ensures [s[0]] + (s[1..] + t) == s + t
  {
  }

  lemma {:induction false} PlainBytes(codepoint: nat)
    requires 0x20 <= codepoint <= 0x10FFFF && codepoint != 0x22 && codepoint != 0x5C
    ensures var s := Utf8(codepoint);
            forall i :: 0 <= i < |s| ==> s[i] as int >= 0x20 && s[i] != '"' && s[i] != '\\'
  {
  }

  /** One piece in front of others. */
  lemma {:induction false} OneRead(p: Piece, rest: seq<Piece>, after: string)
    requires PieceOk(p) && PiecesOk(rest)
    ensures PiecesText([p] + rest, after) == PieceText(p) + PiecesText(rest, after)
    ensures PiecesOk([p] + rest) && PiecesValue([p] + rest) == PieceValue(p) + PiecesValue(rest)
  {
    assert ([p] + rest)[1..] == rest;
  }

  lemma {:induction false} LetterRead(codepoint: nat)
    requires codepoint in {0x08, 0x09, 0x0A, 0x0C, 0x0D, 0x22, 0x2F, 0x5C}
    ensures IsEscapeLetter(LetterOf(codepoint)) && [EscapeValue(LetterOf(codepoint))] == Utf8(codepoint)
  {
  }

  lemma {:induction false} HalvesJoined(codepoint: nat)
    requires 0xFFFF < codepoint <= 0x10FFFF
    ensures IsHigh(HighCode(codepoint)) && IsLow(LowCode(codepoint))
    ensures PairValue(HighCode(codepoint), LowCode(codepoint)) == codepoint
  {
    var v := codepoint - 0x10000;
    assert v == v / 0x400 * 0x400 + v % 0x400;
  }

  lemma {:induction false} PairRead(high: string, low: string, h: nat, l: nat)
    requires IsHex4(high) && IsHex4(low) && Hex4Value(high) == h && Hex4Value(low) == l && IsHigh(h) && IsLow(l)
    ensures PieceOk(Pair(high, low)) && PieceValue(Pair(high, low)) == Utf8(PairValue(h, l))
  {
  }

  lemma {:induction false} WordRead(codepoint: nat, upper: seq<bool>)
    requires codepoint <= 0xFFFF && !IsHigh(codepoint) && |upper| == 4
    ensures var p := Unicode(HexWord(codepoint, upper));
            PieceOk(p) && PieceText(p) == "\\u" + HexWord(codepoint, upper) && PieceValue(p) == Utf8(codepoint)
  {
    HexWordRead(codepoint, upper);
  }

  lemma {:induction false} WordsRead(codepoint: nat, high: seq<bool>, low: seq<bool>)
    requires 0xFFFF < codepoint <= 0x10FFFF && |high| == 4 && |low| == 4
    ensures var p := Pair(HexWord(HighCode(codepoint), high), HexWord(LowCode(codepoint), low));
            PieceOk(p) && PieceValue(p) == Utf8(codepoint)
  {
    HalvesJoined(codepoint);
    HexWordRead(HighCode(codepoint), high);
    HexWordRead(LowCode(codepoint), low);
    PairRead(HexWord(HighCode(codepoint), high), HexWord(LowCode(codepoint), low),
             HighCode(codepoint), LowCode(codepoint));
  }

  lemma {:induction false} SpelledRead(c: Spelled, rest: seq<Piece>, after: string)
    requires SpelledOk(c) && PiecesOk(rest)
    ensures var ps := PiecesOf(c) + rest;
            && PiecesText(ps, after) == Spell(c) + PiecesText(rest, after)
            && PiecesOk(ps) && PiecesValue(ps) == Utf8(c.codepoint) + PiecesValue(rest)
  {
    match c.how
    case Plain =>
      PlainBytes(c.codepoint);
      RawsRead(Utf8(c.codepoint), rest, after);
    case Letter =>
      LetterRead(c.codepoint);
      OneRead(Escaped(LetterOf(c.codepoint)), rest, after);
    case Hex(upper) =>
      if c.codepoint <= 0xFFFF {
        WordRead(c.codepoint, upper[..4]);
        OneRead(Unicode(HexWord(c.codepoint, upper[..4])), rest, after);
      } else {
        WordsRead(c.codepoint, upper[..4], upper[4..]);
        OneRead(Pair(HexWord(HighCode(c.codepoint), upper[..4]), HexWord(LowCode(c.codepoint), upper[4..])), rest,
                after);
      }
  }

  function AllPieces(cs: seq<Spelled>): seq<Piece>
    requires CharactersOk(cs)
  {
    if cs == [] then [] else PiecesOf(cs[0]) + AllPieces(cs[1..])
  }

  lemma {:induction false} AllRead(cs: seq<Spelled>, after: string)
    requires CharactersOk(cs)
    ensures PiecesText(AllPieces(cs), after) == SpellAll(cs) + ("\"" + after)
    ensures PiecesOk(AllPieces(cs)) && PiecesValue(AllPieces(cs)) == Utf8All(cs)
  {
    if cs == [] {
      assert "" + ("\"" + after) == "\"" + after;
    } else {
      AllRead(cs[1..], after);
      SpelledRead(cs[0], AllPieces(cs[1..]), after);
      assert Spell(cs[0]) + (SpellAll(cs[1..]) + ("\"" + after)) == SpellAll(cs) + ("\"" + after);
    }
  }

  // ----- Whole texts -----

  /** A string stands for exactly the UTF-8 of its characters, in whichever of the ways each of them is spelled. */
  lemma {:induction false} SpelledString(cs: seq<Spelled>, v: JsonValue)
    requires CharactersOk(cs)
    ensures Means("\"" + SpellAll(cs) + "\"", v) <==> v == String(Utf8All(cs))
  {
    AllRead(cs, "");
    var y := StringText(AllPieces(cs));
    assert Text(y, "") == "\"" + SpellAll(cs) + "\"" by { assert "\"" + "" == "\""; }
    TreeMeans(y, v);
  }

  /** Any two escapes of a surrogate pair stand for the bytes that decode to its one code point, and any single one for
      those of its own. */
  lemma {:induction false} EscapedCodePoint(codepoint: nat, upper: seq<bool>, v: JsonValue)
    requires codepoint <= 0x10FFFF && !(0xD800 <= codepoint <= 0xDBFF) && |upper| == 8
    ensures var c := Spelled(codepoint, Hex(upper));
            Means("\"" + Spell(c) + "\"", v) <==>
              v.String? && v.text == Utf8(codepoint) && DecodeUtf8(v.text) == codepoint
  {
    var c := Spelled(codepoint, Hex(upper));
    assert SpellAll([c]) == Spell(c) by { assert [c][1..] == []; }
    assert Utf8All([c]) == Utf8(codepoint) by { assert [c][1..] == []; }
    SpelledString([c], v);
    Utf8RoundTrip(codepoint);
  }
}
