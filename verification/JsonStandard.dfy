/** The texts RFC 8259 generates, and which of them the parser takes. Section 7 of the standard lets an escape name any
    four hex digits; the parser wants every high surrogate to be followed by a low one. */
module JsonStandard {
  import opened Characters
  import opened JsonGrammar
  import opened JsonReader

  // ----- What the standard generates -----

  predicate RfcSpace(s: string) {
    forall i :: 0 <= i < |s| ==> s[i] in " \t\n\r"
  }

  /** `unescaped`, an escape letter, or `u` and any four hex digits. */
  predicate RfcPiece(p: Piece) {
    match p
    case Unicode(hex) => IsHex4(hex)
    case Pair(_, _) => false
    case _ => PieceOk(p)
  }

  predicate RfcPieces(ps: seq<Piece>) {
    forall i :: 0 <= i < |ps| ==> RfcPiece(ps[i])
  }

  predicate RfcSyntax(y: Syntax) {
    match y
    case StringText(ps) => RfcPieces(ps)
    case EmptyArray(blank) => RfcSpace(blank)
    case ArrayText(es) => RfcElements(es)
    case EmptyObject(blank) => RfcSpace(blank)
    case ObjectText(ms) => RfcMembers(ms)
    case _ => SyntaxOk(y)
  }

  predicate RfcElements(es: Elements) {
    && RfcSpace(es.before) && RfcSpace(es.after) && RfcSyntax(es.value)
    && (es.MoreElements? ==> RfcElements(es.rest))
  }

  predicate RfcMembers(ms: Members) {
    && RfcSpace(ms.before) && RfcSpace(ms.colon) && RfcSpace(ms.space) && RfcSpace(ms.after)
    && RfcPieces(ms.key) && RfcSyntax(ms.value)
    && (ms.MoreMembers? ==> RfcMembers(ms.rest))
  }

  predicate RfcDocument(doc: Document) {
    RfcSpace(doc.before) && RfcSpace(doc.after) && RfcSyntax(doc.value)
  }

  // ----- Surrogates -----

  predicate HighPiece(p: Piece) {
    p.Unicode? && IsHex4(p.hex) && IsHigh(Hex4Value(p.hex))
  }

  predicate LowPiece(p: Piece) {
    p.Unicode? && IsHex4(p.hex) && IsLow(Hex4Value(p.hex))
  }

  /** A low surrogate follows the first piece. */
  predicate LowNext(ps: seq<Piece>) {
    |ps| > 1 && LowPiece(ps[1])
  }

  /** Every escaped high surrogate is followed by a low one. */
  predicate Paired(ps: seq<Piece>) {
    if ps == [] then true
    else if HighPiece(ps[0]) then LowNext(ps) && Paired(ps[2..])
    else Paired(ps[1..])
  }

  predicate PairedSyntax(y: Syntax) {
    match y
    case StringText(ps) => Paired(ps)
    case ArrayText(es) => PairedElements(es)
    case ObjectText(ms) => PairedMembers(ms)
    case _ => true
  }

  predicate PairedElements(es: Elements) {
    PairedSyntax(es.value) && (es.MoreElements? ==> PairedElements(es.rest))
  }

  predicate PairedMembers(ms: Members) {
    Paired(ms.key) && PairedSyntax(ms.value) && (ms.MoreMembers? ==> PairedMembers(ms.rest))
  }

  // ----- The same text with its pairs taken together -----

  function Merged(ps: seq<Piece>): seq<Piece> {
    if ps == [] then []
    else if HighPiece(ps[0]) && LowNext(ps) then [Pair(ps[0].hex, ps[1].hex)] + Merged(ps[2..])
    else [ps[0]] + Merged(ps[1..])
  }

  function MergedSyntax(y: Syntax): Syntax {
    match y
    case StringText(ps) => StringText(Merged(ps))
    case ArrayText(es) => ArrayText(MergedElements(es))
    case ObjectText(ms) => ObjectText(MergedMembers(ms))
    case _ => y
  }

  function MergedElements(es: Elements): Elements {
    match es
    case LastElement(before, value, after) => LastElement(before, MergedSyntax(value), after)
    case MoreElements(before, value, after, rest) =>
      MoreElements(before, MergedSyntax(value), after, MergedElements(rest))
  }

  function MergedMembers(ms: Members): Members {
    match ms
    case LastMember(before, key, colon, space, value, after) =>
      LastMember(before, Merged(key), colon, space, MergedSyntax(value), after)
    case MoreMembers(before, key, colon, space, value, after, rest) =>
      MoreMembers(before, Merged(key), colon, space, MergedSyntax(value), after, MergedMembers(rest))
  }

  lemma {:induction false} SpaceOk(s: string)
    requires RfcSpace(s)
    ensures AllSpace(s)
  {
    assert forall i :: 0 <= i < |s| ==> IsSpace(s[i]);
  }

  lemma {:induction false} MergedText(ps: seq<Piece>, rest: string)
    ensures PiecesText(Merged(ps), rest) == PiecesText(ps, rest)
  {
    if ps == [] {
    } else if HighPiece(ps[0]) && LowNext(ps) {
      MergedText(ps[2..], rest);
      PairText(ps, rest);
      assert ([Pair(ps[0].hex, ps[1].hex)] + Merged(ps[2..]))[1..] == Merged(ps[2..]);
    } else {
      MergedText(ps[1..], rest);
      assert ([ps[0]] + Merged(ps[1..]))[1..] == Merged(ps[1..]);
    }
  }

  /** Two escapes are written as a pair is. */
  lemma {:induction false} PairText(ps: seq<Piece>, rest: string)
    requires |ps| > 1 && ps[0].Unicode? && ps[1].Unicode?
    ensures PiecesText(ps, rest) == PieceText(Pair(ps[0].hex, ps[1].hex)) + PiecesText(ps[2..], rest)
  {
    assert ps[1..][0] == ps[1] && ps[1..][1..] == ps[2..];
  }

  lemma {:induction false} MergedOk(ps: seq<Piece>)
    requires RfcPieces(ps) && Paired(ps)
    ensures PiecesOk(Merged(ps))
  {
    if ps == [] {
    } else if HighPiece(ps[0]) {
      MergedOk(ps[2..]);
    } else {
      MergedOk(ps[1..]);
    }
  }

  lemma {:induction false} MergedSyntaxIs(y: Syntax, rest: string)
    requires RfcSyntax(y)
    ensures Text(MergedSyntax(y), rest) == Text(y, rest)
    ensures PairedSyntax(y) ==> SyntaxOk(MergedSyntax(y))
    decreases y
  {
    match y
    case StringText(ps) =>
      MergedText(ps, rest);
      if Paired(ps) { MergedOk(ps); }
    case EmptyArray(blank) => SpaceOk(blank);
    case ArrayText(es) => MergedElementsIs(es, rest);
    case EmptyObject(blank) => SpaceOk(blank);
    case ObjectText(ms) => MergedMembersIs(ms, rest);
    case _ =>
  }

  lemma {:induction false} MergedElementsIs(es: Elements, rest: string)
    requires RfcElements(es)
    ensures ElementsText(MergedElements(es), rest) == ElementsText(es, rest)
    ensures PairedElements(es) ==> ElementsOk(MergedElements(es))
    decreases es
  {
    SpaceOk(es.before);
    SpaceOk(es.after);
    if es.MoreElements? { MergedElementsIs(es.rest, rest); }
    MergedSyntaxIs(es.value, es.after + if es.MoreElements? then "," + ElementsText(es.rest, rest) else "]" + rest);
  }

  lemma {:induction false} MergedMembersIs(ms: Members, rest: string)
    requires RfcMembers(ms)
    ensures MembersText(MergedMembers(ms), rest) == MembersText(ms, rest)
    ensures PairedMembers(ms) ==> MembersOk(MergedMembers(ms))
    decreases ms
  {
    SpaceOk(ms.before);
    SpaceOk(ms.colon);
    SpaceOk(ms.space);
    SpaceOk(ms.after);
    if ms.MoreMembers? { MergedMembersIs(ms.rest, rest); }
    var tail := ms.after + if ms.MoreMembers? then "," + MembersText(ms.rest, rest) else "}" + rest;
    MergedSyntaxIs(ms.value, tail);
    MergedText(ms.key, ms.colon + (":" + (ms.space + Text(ms.value, tail))));
    if Paired(ms.key) { MergedOk(ms.key); }
  }

  // ----- A high surrogate on its own is refused -----

  /** The text goes on with the escape of a low surrogate. */
  predicate GoesOnLow(t: string) {
    |t| >= 6 && t[0] == '\\' && t[1] == 'u' && IsHex4(t[2..6]) && IsLow(Hex4Value(t[2..6]))
  }

  lemma {:induction false} HighRefused(hex: string, t: string)
    requires IsHex4(hex) && IsHigh(Hex4Value(hex)) && !GoesOnLow(t)
    ensures ReadPiece("\\u" + hex + t).Fail?
  {
    var s := "\\u" + hex + t;
    assert s[2..] == hex + t && (hex + t)[..4] == hex && (hex + t)[4..] == t;
    if |t| >= 6 { assert t[2..][..4] == t[2..6]; }
  }

  /** What does not begin with a low surrogate's escape does not read as one either. */
  lemma {:induction false} NoLowNext(ps: seq<Piece>, rest: string)
    requires RfcPieces(ps) && (ps != [] ==> !LowPiece(ps[0]))
    ensures !GoesOnLow(PiecesText(ps, rest))
  {
    if ps != [] && ps[0].Unicode? {
      var t := PiecesText(ps, rest);
      assert t[2..6] == ps[0].hex;
    }
  }

  lemma {:induction false} PiecesRefused(ps: seq<Piece>, rest: string)
    requires RfcPieces(ps) && !Paired(ps)
    ensures ReadPieces(PiecesText(ps, rest)).Fail?
  {
    if !HighPiece(ps[0]) {
      PieceRead(ps[0], PiecesText(ps[1..], rest));
      PiecesRefused(ps[1..], rest);
    } else if LowNext(ps) {
      PairText(ps, rest);
      PieceRead(Pair(ps[0].hex, ps[1].hex), PiecesText(ps[2..], rest));
      PiecesRefused(ps[2..], rest);
    } else {
      NoLowNext(ps[1..], rest);
      HighRefused(ps[0].hex, PiecesText(ps[1..], rest));
    }
  }

  // ----- And so is any text that holds one -----

  lemma {:induction false} StandardBegins(y: Syntax, rest: string)
    requires RfcSyntax(y)
    ensures Text(y, rest) != "" && Begin(Text(y, rest)[0]) && !Starts(Text(y, rest), ']')
  {
    if y.NumberLiteral? { assert IsDigit(y.number.integer[0]); }
  }

  /** The first character of a value is no whitespace. */
  lemma {:induction false} BlankBefore(before: string, y: Syntax, rest: string)
    requires RfcSpace(before) && RfcSyntax(y)
    ensures Skip(before + Text(y, rest)) == Text(y, rest)
  {
    SpaceOk(before);
    StandardBegins(y, rest);
    BlankOf(before, Text(y, rest));
  }

  lemma {:induction false} StringRefused(ps: seq<Piece>, rest: string)
    requires RfcPieces(ps) && !Paired(ps)
    ensures ReadValue("\"" + PiecesText(ps, rest)).Fail?
  {
    var s := "\"" + PiecesText(ps, rest);
    PiecesRefused(ps, rest);
    assert s[0] == '"' && s[1..] == PiecesText(ps, rest);
    ScalarCase(s);
  }

  lemma {:induction false} ItemRefused(before: string, y: Syntax, rest: string)
    requires RfcSpace(before) && RfcSyntax(y) && ReadValue(Text(y, rest)).Fail?
    ensures ReadItem(before + Text(y, rest)).Fail?
  {
    BlankBefore(before, y, rest);
  }

  lemma {:induction false} ValueRefused(y: Syntax, rest: string)
    requires RfcSyntax(y) && !PairedSyntax(y)
    ensures ReadValue(Text(y, rest)).Fail?
    decreases y, 0
  {
    match y
    case StringText(ps) => StringRefused(ps, rest);
    case ArrayText(es) =>
      ElementsRefused(es, rest);
      ArrayRefused(Text(y, rest), ElementsText(es, rest));
    case ObjectText(ms) =>
      MembersRefused(ms, rest);
      ObjectRefused(Text(y, rest), MembersText(ms, rest));
    case _ =>
  }

  lemma {:induction false} ArrayRefused(s: string, t: string)
    requires s == "[" + t && ReadElements(t).Fail? && !Starts(Skip(t), ']')
    ensures ReadValue(s).Fail?
  {
    assert s[0] == '[' && s[1..] == t;
  }

  lemma {:induction false} ObjectRefused(s: string, t: string)
    requires s == "{" + t && ReadMembers(t).Fail? && !Starts(Skip(t), '}')
    ensures ReadValue(s).Fail?
  {
    assert Starts(s, '{') && s[1..] == t;
    ObjectCase(s);
  }

  /** What follows the value of an element or of a member. */
  function ElementTail(es: Elements, rest: string): string {
    if es.MoreElements? then "," + ElementsText(es.rest, rest) else "]" + rest
  }

  function MemberTail(ms: Members, rest: string): string {
    if ms.MoreMembers? then "," + MembersText(ms.rest, rest) else "}" + rest
  }

  lemma {:induction false} ElementsRefused(es: Elements, rest: string)
    requires RfcElements(es) && !PairedElements(es)
    ensures ReadElements(ElementsText(es, rest)).Fail? && !Starts(Skip(ElementsText(es, rest)), ']')
    decreases es, 2
  {
    var tail := ElementTail(es, rest);
    BlankBefore(es.before, es.value, es.after + tail);
    StandardBegins(es.value, es.after + tail);
    if !PairedSyntax(es.value) {
      ValueRefused(es.value, es.after + tail);
      ItemRefused(es.before, es.value, es.after + tail);
    } else {
      ElementsRefused(es.rest, rest);
      PairedItemRead(es.before, es.value, es.after, tail);
      MoreElementsRefused(ElementsText(es, rest), tail, ElementsText(es.rest, rest));
    }
  }

  lemma {:induction false} PairedItemRead(before: string, y: Syntax, after: string, tail: string)
    requires RfcSpace(before) && RfcSyntax(y) && PairedSyntax(y) && RfcSpace(after) && tail != "" && tail[0] in ",]}"
    ensures ReadItem(before + Text(y, after + tail)) == Parsed(Item(before, MergedSyntax(y), after), tail)
  {
    SpaceOk(before);
    SpaceOk(after);
    MergedSyntaxIs(y, after + tail);
    ItemRead(before, MergedSyntax(y), after, tail);
  }

  lemma {:induction false} MoreElementsRefused(s: string, v: string, more: string)
    requires ReadItem(s).Parsed? && ReadItem(s).rest == v && v == "," + more && ReadElements(more).Fail?
    ensures ReadElements(s).Fail?
  {
    assert v[1..] == more && !Starts(v, ']');
  }

  lemma {:induction false} KeyRefused(before: string, key: seq<Piece>, colon: string, rest: string)
    requires RfcSpace(before) && RfcPieces(key) && !Paired(key)
    ensures ReadHead(HeadText(before, key, colon, rest)).Fail?
  {
    var t := PiecesText(key, colon + (":" + rest));
    SpaceOk(before);
    BlankOf(before, "\"" + t);
    assert ("\"" + t)[1..] == t;
    PiecesRefused(key, colon + (":" + rest));
  }

  lemma {:induction false} PairedHeadRead(before: string, key: seq<Piece>, colon: string, rest: string)
    requires RfcSpace(before) && RfcPieces(key) && Paired(key) && RfcSpace(colon)
    ensures ReadHead(HeadText(before, key, colon, rest)) == Parsed(Head(before, Merged(key), colon), rest)
  {
    SpaceOk(before);
    SpaceOk(colon);
    MergedOk(key);
    MergedText(key, colon + (":" + rest));
    HeadRead(before, Merged(key), colon, rest);
  }

  lemma {:induction false} MembersRefused(ms: Members, rest: string)
    requires RfcMembers(ms) && !PairedMembers(ms)
    ensures ReadMembers(MembersText(ms, rest)).Fail? && !Starts(Skip(MembersText(ms, rest)), '}')
    decreases ms, 2
  {
    var s, tail := MembersText(ms, rest), MemberTail(ms, rest);
    var body := ms.space + Text(ms.value, ms.after + tail);
    KeyBegins(ms.before, ms.key, ms.colon, body);
    if !Paired(ms.key) {
      KeyRefused(ms.before, ms.key, ms.colon, body);
      HeadFails(s);
    } else {
      PairedHeadRead(ms.before, ms.key, ms.colon, body);
      if !PairedSyntax(ms.value) {
        ValueRefused(ms.value, ms.after + tail);
        ItemRefused(ms.space, ms.value, ms.after + tail);
        BodyFails(s, body);
      } else {
        MembersRefused(ms.rest, rest);
        PairedItemRead(ms.space, ms.value, ms.after, tail);
        MoreMembersRefused(s, body, tail, MembersText(ms.rest, rest));
      }
    }
  }

  lemma {:induction false} KeyBegins(before: string, key: seq<Piece>, colon: string, rest: string)
    requires RfcSpace(before)
    ensures !Starts(Skip(HeadText(before, key, colon, rest)), '}')
  {
    SpaceOk(before);
    BlankOf(before, "\"" + PiecesText(key, colon + (":" + rest)));
  }

  lemma {:induction false} HeadFails(s: string)
    requires ReadHead(s).Fail?
    ensures ReadMembers(s).Fail?
  {
  }

  lemma {:induction false} BodyFails(s: string, body: string)
    requires ReadHead(s).Parsed? && ReadHead(s).rest == body && ReadItem(body).Fail?
    ensures ReadMembers(s).Fail?
  {
  }

  lemma {:induction false} MoreMembersRefused(s: string, body: string, v: string, more: string)
    requires ReadHead(s).Parsed? && ReadHead(s).rest == body
    requires ReadItem(body).Parsed? && ReadItem(body).rest == v && v == "," + more && ReadMembers(more).Fail?
    ensures ReadMembers(s).Fail?
  {
    assert v[1..] == more && !Starts(v, '}');
  }

  // ----- Whole texts -----

  lemma {:induction false} DocumentRefused(doc: Document)
    requires RfcDocument(doc) && !PairedSyntax(doc.value)
    ensures ReadDocument(DocumentText(doc)).Fail?
  {
    var s := doc.before + Text(doc.value, doc.after);
    BlankBefore(doc.before, doc.value, doc.after);
    StandardBegins(doc.value, doc.after);
    if doc.before != "" { assert s[0] == doc.before[0]; }
    MarkSkipped(doc.marked, s);
    ValueRefused(doc.value, doc.after);
  }

  lemma {:induction false} PairedDocument(doc: Document)
    requires RfcDocument(doc) && PairedSyntax(doc.value)
    ensures var merged := doc.(value := MergedSyntax(doc.value));
            DocumentOk(merged) && DocumentText(merged) == DocumentText(doc)
  {
    SpaceOk(doc.before);
    SpaceOk(doc.after);
    MergedSyntaxIs(doc.value, doc.after);
  }

  /** A text of the standard has a value precisely when every escaped high surrogate in it is followed by a low one; it
      then has just the value of its tree, each pair standing for one code point. */
  lemma {:induction false} StandardTextRead(doc: Document, v: JsonValue)
    requires RfcDocument(doc)
    ensures PairedSyntax(doc.value) ==> SyntaxOk(MergedSyntax(doc.value))
    ensures Means(DocumentText(doc), v) <==> PairedSyntax(doc.value) && v == Value(MergedSyntax(doc.value))
  {
    ReadMeans(DocumentText(doc), v);
    if PairedSyntax(doc.value) {
      PairedDocument(doc);
      DocumentRead(doc.(value := MergedSyntax(doc.value)));
    } else {
      DocumentRefused(doc);
    }
  }

  /** So the string of one high surrogate has no value, and that of one low surrogate has. */
  lemma {:induction false} LoneSurrogates(high: Document, low: Document)
    requires high == Document(false, "", StringText([Unicode("D83D")]), "")
    requires low == Document(false, "", StringText([Unicode("DEAD")]), "")
    ensures RfcDocument(high) && forall v :: !Means(DocumentText(high), v)
    ensures RfcDocument(low) && exists v :: Means(DocumentText(low), v)
  {
    assert HighPiece(Unicode("D83D")) && !HighPiece(Unicode("DEAD"));
    forall v ensures !Means(DocumentText(high), v) {
      StandardTextRead(high, v);
    }
    assert Paired([Unicode("DEAD")]);
    StandardTextRead(low, Value(MergedSyntax(low.value)));
  }
}
