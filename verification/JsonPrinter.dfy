/** A printer of JSON values: parsing undoes printing, whatever the value and however its characters are spelled. */
module JsonPrinter {
  import opened JsonGrammar
  import opened JsonNumbers
  import opened JsonReader
  import opened JsonStrings

  /** A value to print: numbers are spelled as numbers, and strings are given by their characters. */
  datatype Printable =
    | PrintNull
    | PrintBool(value: bool)
    | PrintNumber(text: string)
    | PrintString(characters: seq<Spelled>)
    | PrintArray(items: seq<Printable>)
    | PrintObject(fields: seq<PrintField>)

  datatype PrintField = PrintField(key: seq<Spelled>, value: Printable)

  predicate PrintableOk(p: Printable) {
    match p
    case PrintNumber(text) => IsNumber(text)
    case PrintString(cs) => CharactersOk(cs)
    case PrintArray(items) => forall i :: 0 <= i < |items| ==> PrintableOk(items[i])
    case PrintObject(fields) =>
      forall i :: 0 <= i < |fields| ==> CharactersOk(fields[i].key) && PrintableOk(fields[i].value)
    case _ => true
  }

  function Quoted(cs: seq<Spelled>): string
    requires CharactersOk(cs)
  {
    "\"" + SpellAll(cs) + "\""
  }

  function Print(p: Printable): string
    requires PrintableOk(p)
  {
    match p
    case PrintNull => "null"
    case PrintBool(b) => if b then "true" else "false"
    case PrintNumber(text) => text
    case PrintString(cs) => Quoted(cs)
    case PrintArray(items) => "[" + PrintItems(items) + "]"
    case PrintObject(fields) => "{" + PrintFields(fields) + "}"
  }

  /** Items with commas between them. */
  function PrintItems(items: seq<Printable>): string
    requires forall i :: 0 <= i < |items| ==> PrintableOk(items[i])
  {
    if items == [] then ""
    else Print(items[0]) + if |items| == 1 then "" else "," + PrintItems(items[1..])
  }

  function PrintFields(fields: seq<PrintField>): string
    requires forall i :: 0 <= i < |fields| ==> CharactersOk(fields[i].key) && PrintableOk(fields[i].value)
  {
    if fields == [] then ""
    else
      Quoted(fields[0].key) + ":" + Print(fields[0].value)
      + if |fields| == 1 then "" else "," + PrintFields(fields[1..])
  }

  /** The value that was printed. */
  function Printed(p: Printable): JsonValue
    requires PrintableOk(p)
  {
    match p
    case PrintNull => Null
    case PrintBool(b) => Bool(if b then "true" else "false")
    case PrintNumber(text) => Number(text)
    case PrintString(cs) => String(Utf8All(cs))
    case PrintArray(items) => Array(PrintedItems(items))
    case PrintObject(fields) => Object(PrintedFields(fields))
  }

  function PrintedItems(items: seq<Printable>): seq<JsonValue>
    requires forall i :: 0 <= i < |items| ==> PrintableOk(items[i])
  {
    if items == [] then [] else [Printed(items[0])] + PrintedItems(items[1..])
  }

  function PrintedFields(fields: seq<PrintField>): seq<Field>
    requires forall i :: 0 <= i < |fields| ==> CharactersOk(fields[i].key) && PrintableOk(fields[i].value)
  {
    if fields == [] then []
    else [Field(Utf8All(fields[0].key), Printed(fields[0].value))] + PrintedFields(fields[1..])
  }

  // ----- The tree of a printed value -----

  /** The tree has the text and the value of what was printed. */
  ghost predicate TreeOf(p: Printable, y: Syntax)
    requires PrintableOk(p)
  {
    SyntaxOk(y) && Value(y) == Printed(p) && forall rest :: Text(y, rest) == Print(p) + rest
  }

  ghost predicate ElementsOf(items: seq<Printable>, es: Elements)
    requires forall i :: 0 <= i < |items| ==> PrintableOk(items[i])
  {
    && ElementsOk(es) && ElementValues(es) == PrintedItems(items)
    && forall rest :: ElementsText(es, rest) == PrintItems(items) + ("]" + rest)
  }

  ghost predicate MembersOf(fields: seq<PrintField>, ms: Members)
    requires forall i :: 0 <= i < |fields| ==> CharactersOk(fields[i].key) && PrintableOk(fields[i].value)
  {
    && MembersOk(ms) && MemberValues(ms) == PrintedFields(fields)
    && forall rest :: MembersText(ms, rest) == PrintFields(fields) + ("}" + rest)
  }

  lemma {:induction false} NumberTree(text: string) returns (y: Syntax)
    requires IsNumber(text)
    ensures TreeOf(PrintNumber(text), y)
  {
    var n := NumberIsSpelling(text);
    y := NumberLiteral(n);
    forall rest ensures Text(y, rest) == text + rest {
      NumberTextSplits(n, rest);
    }
  }

  lemma {:induction false} StringTree(cs: seq<Spelled>) returns (y: Syntax)
    requires CharactersOk(cs)
    ensures TreeOf(PrintString(cs), y)
  {
    y := StringText(AllPieces(cs));
    AllRead(cs, "");
    forall rest ensures Text(y, rest) == Quoted(cs) + rest {
      AllRead(cs, rest);
      QuotedText(SpellAll(cs), rest);
    }
  }

  lemma {:induction false} QuotedText(s: string, rest: string)
    ensures "\"" + (s + ("\"" + rest)) == "\"" + s + "\"" + rest
  {
  }

  lemma {:induction false} PrintTree(p: Printable) returns (y: Syntax)
    requires PrintableOk(p)
    ensures TreeOf(p, y)
    decreases p, 0
  {
    match p
    case PrintNull =>
      y := NullText;
    case PrintBool(b) =>
      y := BoolText(b);
    case PrintNumber(text) =>
      y := NumberTree(text);
    case PrintString(cs) =>
      y := StringTree(cs);
    case PrintArray(items) =>
      if items == [] {
        y := EmptyArray("");
        forall rest ensures Text(y, rest) == Print(p) + rest { EmptyText("[", "]", rest); }
      } else {
        var es := PrintElements(items);
        y := ArrayText(es);
        forall rest ensures Text(y, rest) == Print(p) + rest { WrappedText("[", PrintItems(items), "]", rest); }
      }
    case PrintObject(fields) =>
      if fields == [] {
        y := EmptyObject("");
        forall rest ensures Text(y, rest) == Print(p) + rest { EmptyText("{", "}", rest); }
      } else {
        var ms := PrintMembers(fields);
        y := ObjectText(ms);
        forall rest ensures Text(y, rest) == Print(p) + rest { WrappedText("{", PrintFields(fields), "}", rest); }
      }
  }

  lemma {:induction false} EmptyText(a: string, b: string, rest: string)
    ensures a + ("" + (b + rest)) == a + "" + b + rest
  {
  }

  lemma {:induction false} WrappedText(a: string, s: string, b: string, rest: string)
    ensures a + (s + (b + rest)) == a + s + b + rest
  {
  }

  lemma {:induction false} PrintElements(items: seq<Printable>) returns (es: Elements)
    requires items != [] && forall i :: 0 <= i < |items| ==> PrintableOk(items[i])
    ensures ElementsOf(items, es)
    decreases items, 0
  {
    var y := PrintTree(items[0]);
    if |items| == 1 {
      es := LastElement("", y, "");
      LastItem(items, y, es);
    } else {
      var more := PrintElements(items[1..]);
      es := MoreElements("", y, "", more);
      MoreItems(items, y, more, es);
    }
  }

  lemma {:induction false} LastItem(items: seq<Printable>, y: Syntax, es: Elements)
    requires |items| == 1 && PrintableOk(items[0]) && TreeOf(items[0], y) && es == LastElement("", y, "")
    ensures ElementsOf(items, es)
  {
    assert PrintedItems(items[1..]) == [];
    forall rest ensures ElementsText(es, rest) == PrintItems(items) + ("]" + rest) {
      Bare(y, "]" + rest);
      assert Text(y, "]" + rest) == Print(items[0]) + ("]" + rest);
      assert Print(items[0]) + "" == Print(items[0]);
    }
  }

  /** Without whitespace around it. */
  lemma {:induction false} Bare(y: Syntax, rest: string)
    ensures "" + Text(y, "" + rest) == Text(y, rest)
  {
    assert "" + rest == rest;
  }

  lemma {:induction false} MoreItems(items: seq<Printable>, y: Syntax, more: Elements, es: Elements)
    requires |items| > 1 && (forall i :: 0 <= i < |items| ==> PrintableOk(items[i]))
    requires TreeOf(items[0], y) && ElementsOf(items[1..], more) && es == MoreElements("", y, "", more)
    ensures ElementsOf(items, es)
  {
    forall rest ensures ElementsText(es, rest) == PrintItems(items) + ("]" + rest) {
      Bare(y, "," + ElementsText(more, rest));
      Joined(Print(items[0]), ",", PrintItems(items[1..]), "]" + rest);
    }
  }

  lemma {:induction false} Joined(a: string, comma: string, b: string, rest: string)
    ensures a + (comma + (b + rest)) == a + (comma + b) + rest
  {
  }

  lemma {:induction false} PrintMembers(fields: seq<PrintField>) returns (ms: Members)
    requires fields != []
    requires forall i :: 0 <= i < |fields| ==> CharactersOk(fields[i].key) && PrintableOk(fields[i].value)
    ensures MembersOf(fields, ms)
    decreases fields, 0
  {
    var f := fields[0];
    var y := PrintTree(f.value);
    AllRead(f.key, "");
    if |fields| == 1 {
      ms := LastMember("", AllPieces(f.key), "", "", y, "");
      LastField(fields, y, ms);
    } else {
      var more := PrintMembers(fields[1..]);
      ms := MoreMembers("", AllPieces(f.key), "", "", y, "", more);
      MoreFields(fields, y, more, ms);
    }
  }

  /** A name, its colon and its value, with what follows. */
  lemma {:induction false} MemberText(f: PrintField, y: Syntax, rest: string)
    requires CharactersOk(f.key) && PrintableOk(f.value) && TreeOf(f.value, y)
    ensures HeadText("", AllPieces(f.key), "", "" + Text(y, "" + rest))
         == Quoted(f.key) + ":" + Print(f.value) + rest
  {
    var body := "" + Text(y, "" + rest);
    Bare(y, rest);
    AllRead(f.key, "" + (":" + body));
    assert body == Print(f.value) + rest;
    HeadIs(SpellAll(f.key), Print(f.value), rest);
  }

  lemma {:induction false} HeadIs(key: string, value: string, rest: string)
    ensures "" + ("\"" + (key + ("\"" + ("" + (":" + (value + rest)))))) == "\"" + key + "\"" + ":" + value + rest
  {
  }

  lemma {:induction false} LastField(fields: seq<PrintField>, y: Syntax, ms: Members)
    requires |fields| == 1 && CharactersOk(fields[0].key) && PrintableOk(fields[0].value)
    requires TreeOf(fields[0].value, y) && ms == LastMember("", AllPieces(fields[0].key), "", "", y, "")
    requires PiecesOk(AllPieces(fields[0].key)) && PiecesValue(AllPieces(fields[0].key)) == Utf8All(fields[0].key)
    ensures MembersOf(fields, ms)
  {
    assert PrintedFields(fields[1..]) == [];
    forall rest ensures MembersText(ms, rest) == PrintFields(fields) + ("}" + rest) {
      MemberText(fields[0], y, "}" + rest);
      var s := Quoted(fields[0].key) + ":" + Print(fields[0].value);
      assert s + "" == s;
    }
  }

  lemma {:induction false} MoreFields(fields: seq<PrintField>, y: Syntax, more: Members, ms: Members)
    requires |fields| > 1
    requires forall i :: 0 <= i < |fields| ==> CharactersOk(fields[i].key) && PrintableOk(fields[i].value)
    requires TreeOf(fields[0].value, y) && MembersOf(fields[1..], more)
    requires ms == MoreMembers("", AllPieces(fields[0].key), "", "", y, "", more)
    requires PiecesOk(AllPieces(fields[0].key)) && PiecesValue(AllPieces(fields[0].key)) == Utf8All(fields[0].key)
    ensures MembersOf(fields, ms)
  {
    forall rest ensures MembersText(ms, rest) == PrintFields(fields) + ("}" + rest) {
      MemberText(fields[0], y, "," + MembersText(more, rest));
      Joined(Quoted(fields[0].key) + ":" + Print(fields[0].value), ",", PrintFields(fields[1..]), "}" + rest);
    }
  }

  /** The text of a printed value has just that value: constants, numbers, strings by their characters, items and fields
      in their order, duplicates kept. */
  lemma {:induction false} PrintedMeans(p: Printable, v: JsonValue)
    requires PrintableOk(p)
    ensures Means(Print(p), v) <==> v == Printed(p)
  {
    var y := PrintTree(p);
    assert Text(y, "") == Print(p) + "" == Print(p);
    TreeMeans(y, v);
  }

  /** Whitespace, by code point: tab, line feed, vertical tab, form feed, carriage return and space. */
  predicate Around(w: string) {
    forall i :: 0 <= i < |w| ==> w[i] as nat in {9, 10, 11, 12, 13, 32}
  }

  /** A byte order mark in front and whitespace around a printed value do not matter. */
  lemma {:induction false} PrintedWithin(marked: bool, before: string, p: Printable, after: string, v: JsonValue)
    requires PrintableOk(p) && Around(before) && Around(after)
    ensures var mark := if marked then [0xEF as char, 0xBB as char, 0xBF as char] else [];
            Means(mark + (before + (Print(p) + after)), v) <==> v == Printed(p)
  {
    var y := PrintTree(p);
    assert Text(y, after) == Print(p) + after;
    var doc := Document(marked, before, y, after);
    DocumentRead(doc);
    ReadMeans(DocumentText(doc), v);
  }
}
