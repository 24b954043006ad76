/** The check for integer division in a query: string literals, quoted names and comments are blanked, the rest is cut
    into tokens, and a slash between two likely integers is reported. */
module SqlStrip {
  import opened Characters

  // ----- Blanking -----

  datatype State = Normal | SingleQuote | DoubleQuote | LineComment | BlockComment

  /** What one step does: the next state, what is written, and how many characters are taken. */
  datatype Step = Step(next: State, out: string, taken: nat)

  function StepOf(state: State, c: char, n: char): (r: Step)
    ensures 1 <= r.taken <= 2 && |r.out| == r.taken
    ensures r.taken == 2 ==> n != '\0'
  {
    match state
    case Normal =>
      if c == '\'' then Step(SingleQuote, " ", 1)
      else if c == '"' then Step(DoubleQuote, " ", 1)
      else if c == '-' && n == '-' then Step(LineComment, "  ", 2)
      else if c == '/' && n == '*' then Step(BlockComment, "  ", 2)
      else Step(Normal, [c], 1)
    case SingleQuote =>
      if c == '\'' && n == '\'' then Step(SingleQuote, "  ", 2)
      else if c == '\'' then Step(Normal, " ", 1)
      else Step(SingleQuote, " ", 1)
    case DoubleQuote =>
      if c == '"' && n == '"' then Step(DoubleQuote, "  ", 2)
      else if c == '"' then Step(Normal, " ", 1)
      else Step(DoubleQuote, " ", 1)
    case LineComment =>
      if c == '\n' then Step(Normal, "\n", 1) else Step(LineComment, " ", 1)
    case BlockComment =>
      if c == '*' && n == '/' then Step(Normal, "  ", 2) else Step(BlockComment, " ", 1)
  }

  /** The character after the first one, or a null. */
  function Second(s: string): char {
    if |s| > 1 then s[1] else '\0'
  }

  function Stripped(state: State, s: string): string
    decreases |s|
  {
    if s == "" then ""
    else
      var step := StepOf(state, s[0], Second(s));
      step.out + Stripped(step.next, s[step.taken..])
  }

  method StripSqlStringsAndComments(sql: string) returns (out: string)
    ensures out == Stripped(Normal, sql)
  {
    var state := Normal;
    out := "";
    var i := 0;
    assert sql[0..] == sql;
    while i < |sql|
      invariant i <= |sql| && out + Stripped(state, sql[i..]) == Stripped(Normal, sql)
    {
      var n := if i + 1 < |sql| then sql[i + 1] else '\0';
      ghost var rest := sql[i..];
      var step := StepOf(state, sql[i], n);
      assert rest[0] == sql[i] && Second(rest) == n;
      assert rest[step.taken..] == sql[i + step.taken..];
      assert out + (step.out + Stripped(step.next, rest[step.taken..])) ==
             out + step.out + Stripped(step.next, rest[step.taken..]);
      out := out + step.out;
      state := step.next;
      i := i + step.taken;
    }
    assert out + "" == out;
  }

  /** Every character stays where it is or turns blank. */
  lemma {:induction false} StrippedKeepsPlaces(state: State, s: string)
    ensures |Stripped(state, s)| == |s|
    ensures forall i :: 0 <= i < |s| ==> Stripped(state, s)[i] == s[i] || Stripped(state, s)[i] == ' '
    decreases |s|
  {
    if s != "" {
      var step := StepOf(state, s[0], Second(s));
      var rest := s[step.taken..];
      StrippedKeepsPlaces(step.next, rest);
      var t := Stripped(state, s);
      forall i | 0 <= i < |s| ensures t[i] == s[i] || t[i] == ' ' {
        if i >= step.taken {
          assert t[i] == Stripped(step.next, rest)[i - step.taken];
          assert s[i] == rest[i - step.taken];
        }
      }
    }
  }

  /** Nothing in the text opens a literal or a comment. */
  predicate OpensNothing(s: string) {
    && (forall i :: 0 <= i < |s| ==> s[i] != '\'' && s[i] != '"')
    && (forall i :: 0 <= i < |s| - 1 ==> !(s[i] == '-' && s[i + 1] == '-') && !(s[i] == '/' && s[i + 1] == '*'))
  }

  lemma {:induction false} OpensNothingJoin(a: string, b: string)
    requires OpensNothing(a) && OpensNothing(b)
    requires a != "" && b != "" ==>
               !(a[|a| - 1] == '-' && b[0] == '-') && !(a[|a| - 1] == '/' && b[0] == '*')
    ensures OpensNothing(a + b)
  {
    var s := a + b;
    forall i | 0 <= i < |s| - 1 ensures !(s[i] == '-' && s[i + 1] == '-') && !(s[i] == '/' && s[i + 1] == '*') {
      if i + 1 < |a| {
        assert s[i] == a[i] && s[i + 1] == a[i + 1];
      } else if i >= |a| {
        assert s[i] == b[i - |a|] && s[i + 1] == b[i + 1 - |a|];
      } else {
        assert s[i] == a[|a| - 1] && s[i + 1] == b[0];
      }
    }
  }

  /** What one step writes opens nothing, and cannot open anything together with the character after it. */
  lemma {:induction false} StepOpensNothing(state: State, c: char, n: char)
    ensures var step := StepOf(state, c, n);
            && OpensNothing(step.out)
            && (step.out[|step.out| - 1] == '-' ==> step.taken == 1 && n != '-')
            && (step.out[|step.out| - 1] == '/' ==> step.taken == 1 && n != '*')
  {
  }

  lemma {:induction false} StrippedOpensNothing(state: State, s: string)
    ensures OpensNothing(Stripped(state, s))
    decreases |s|
  {
    if s != "" {
      var step := StepOf(state, s[0], Second(s));
      var rest := s[step.taken..];
      StrippedOpensNothing(step.next, rest);
      StrippedKeepsPlaces(step.next, rest);
      StepOpensNothing(state, s[0], Second(s));
      assert rest != "" && step.taken == 1 ==> rest[0] == Second(s);
      OpensNothingJoin(step.out, Stripped(step.next, rest));
    }
  }

  lemma {:induction false} StripsNothing(s: string)
    requires OpensNothing(s)
    ensures Stripped(Normal, s) == s
    decreases |s|
  {
    if s != "" {
      var rest := s[1..];
      assert s[0] != '\'' && s[0] != '"';
      assert |s| > 1 ==> !(s[0] == '-' && s[0 + 1] == '-') && !(s[0] == '/' && s[0 + 1] == '*');
      assert OpensNothing(rest) by {
        assert forall i :: 0 <= i < |rest| ==> rest[i] == s[i + 1];
        forall i | 0 <= i < |rest| - 1
          ensures !(rest[i] == '-' && rest[i + 1] == '-') && !(rest[i] == '/' && rest[i + 1] == '*')
        {
          assert rest[i] == s[i + 1] && rest[i + 1] == s[i + 1 + 1];
        }
      }
      StripsNothing(rest);
      assert s == [s[0]] + rest;
    }
  }

  /** A second pass changes nothing. */
  lemma {:induction false} StripTwice(s: string)
    ensures Stripped(Normal, Stripped(Normal, s)) == Stripped(Normal, s)
  {
    StrippedOpensNothing(Normal, s);
    StripsNothing(Stripped(Normal, s));
  }

  // ----- What is blanked: literals and comments, whole -----

  /** A piece of a query: a character of its code, a literal or a quoted name with its content, a comment. */
  datatype Region = Code(c: char) | Quoted(quote: char, body: string) | Line(body: string) | Block(body: string)

  predicate StartsWith(s: string, c: char) {
    s != "" && s[0] == c
  }

  /** Whether the region ends where it should when `rest` follows. */
  predicate RegionOk(x: Region, rest: string) {
    match x
    case Code(c) =>
      c != '\'' && c != '"' && !(c == '-' && StartsWith(rest, '-')) && !(c == '/' && StartsWith(rest, '*'))
    case Quoted(quote, _) => (quote == '\'' || quote == '"') && !StartsWith(rest, quote)
    case Line(body) => '\n' !in body
    case Block(body) => forall i :: 0 <= i < |body| - 1 ==> !(body[i] == '*' && body[i + 1] == '/')
  }

  /** The content of a literal, its quotes doubled, and the closing quote. */
  function BodyText(quote: char, body: string, rest: string): string {
    if body == "" then [quote] + rest
    else (if body[0] == quote then [quote, quote] else [body[0]]) + BodyText(quote, body[1..], rest)
  }

  function RegionText(x: Region, rest: string): string {
    match x
    case Code(c) => [c] + rest
    case Quoted(quote, body) => [quote] + BodyText(quote, body, rest)
    case Line(body) => "--" + (body + ("\n" + rest))
    case Block(body) => "/*" + (body + ("*/" + rest))
  }

  function Blanks(k: nat): string {
    seq(k, _ => ' ')
  }

  function BodyLength(quote: char, body: string): nat {
    if body == "" then 1 else (if body[0] == quote then 2 else 1) + BodyLength(quote, body[1..])
  }

  /** Code stays; a literal or comment turns blank, except for the line break that ends a comment. */
  function RegionBlanked(x: Region): string {
    match x
    case Code(c) => [c]
    case Quoted(quote, body) => Blanks(1 + BodyLength(quote, body))
    case Line(body) => Blanks(2 + |body|) + "\n"
    case Block(body) => Blanks(4 + |body|)
  }

  function RegionsText(xs: seq<Region>, rest: string): string {
    if xs == [] then rest else RegionText(xs[0], RegionsText(xs[1..], rest))
  }

  predicate RegionsOk(xs: seq<Region>, rest: string) {
    xs != [] ==> RegionOk(xs[0], RegionsText(xs[1..], rest)) && RegionsOk(xs[1..], rest)
  }

  function RegionsBlanked(xs: seq<Region>): string {
    if xs == [] then "" else RegionBlanked(xs[0]) + RegionsBlanked(xs[1..])
  }

  function QuoteState(quote: char): State {
    if quote == '\'' then SingleQuote else DoubleQuote
  }

  function First(s: string): char {
    if s == "" then '\0' else s[0]
  }

  lemma {:induction false} TakeOne(state: State, c: char, rest: string, out: string, next: State)
    requires StepOf(state, c, First(rest)) == Step(next, out, 1)
    ensures Stripped(state, [c] + rest) == out + Stripped(next, rest)
  {
    var s := [c] + rest;
    assert s[1..] == rest && Second(s) == First(rest);
  }

  lemma {:induction false} TakeTwo(state: State, c: char, n: char, rest: string, out: string, next: State)
    requires StepOf(state, c, n) == Step(next, out, 2)
    ensures Stripped(state, [c, n] + rest) == out + Stripped(next, rest)
  {
    var s := [c, n] + rest;
    assert s[2..] == rest && Second(s) == n;
  }

  lemma {:induction false} MoreBlanks(k: nat, rest: string)
    ensures " " + (Blanks(k) + rest) == Blanks(1 + k) + rest
    ensures "  " + (Blanks(k) + rest) == Blanks(2 + k) + rest
  {
    assert Blanks(1 + k) == " " + Blanks(k);
    assert Blanks(2 + k) == "  " + Blanks(k);
  }

  lemma {:induction false} BodyStripped(quote: char, body: string, rest: string)
    requires (quote == '\'' || quote == '"') && !StartsWith(rest, quote)
    ensures Stripped(QuoteState(quote), BodyText(quote, body, rest)) ==
            Blanks(BodyLength(quote, body)) + Stripped(Normal, rest)
    decreases body
  {
    var state := QuoteState(quote);
    if body == "" {
      TakeOne(state, quote, rest, " ", Normal);
      assert Blanks(1) == " ";
    } else {
      var more := BodyText(quote, body[1..], rest);
      BodyStripped(quote, body[1..], rest);
      MoreBlanks(BodyLength(quote, body[1..]), Stripped(Normal, rest));
      if body[0] == quote {
        TakeTwo(state, quote, quote, more, "  ", state);
      } else {
        TakeOne(state, body[0], more, " ", state);
      }
    }
  }

  lemma {:induction false} LineStripped(body: string, rest: string)
    requires '\n' !in body
    ensures Stripped(LineComment, body + ("\n" + rest)) == Blanks(|body|) + ("\n" + Stripped(Normal, rest))
  {
    if body == "" {
      assert body + ("\n" + rest) == ['\n'] + rest;
      TakeOne(LineComment, '\n', rest, "\n", Normal);
      assert Blanks(0) == "";
      assert "" + ("\n" + Stripped(Normal, rest)) == "\n" + Stripped(Normal, rest);
    } else {
      var more := body[1..] + ("\n" + rest);
      assert body + ("\n" + rest) == [body[0]] + more;
      LineStripped(body[1..], rest);
      TakeOne(LineComment, body[0], more, " ", LineComment);
      MoreBlanks(|body[1..]|, "\n" + Stripped(Normal, rest));
    }
  }

  lemma {:induction false} BlockTail(body: string, rest: string)
    requires body != "" && RegionOk(Block(body), rest)
    ensures RegionOk(Block(body[1..]), rest)
    ensures body[0] == '*' ==> First(body[1..] + ("*/" + rest)) != '/'
  {
    var tail := body[1..];
    assert forall i :: 0 <= i < |tail| ==> tail[i] == body[i + 1];
    forall i | 0 <= i < |tail| - 1 ensures !(tail[i] == '*' && tail[i + 1] == '/') {
      assert tail[i] == body[i + 1] && tail[i + 1] == body[i + 1 + 1];
    }
    if tail != "" { assert !(body[0] == '*' && body[0 + 1] == '/'); }
  }

  lemma {:induction false} BlockStripped(body: string, rest: string)
    requires RegionOk(Block(body), rest)
    ensures Stripped(BlockComment, body + ("*/" + rest)) == Blanks(|body| + 2) + Stripped(Normal, rest)
  {
    if body == "" {
      assert body + ("*/" + rest) == ['*', '/'] + rest;
      TakeTwo(BlockComment, '*', '/', rest, "  ", Normal);
      assert Blanks(2) == "  ";
    } else {
      var more := body[1..] + ("*/" + rest);
      assert body + ("*/" + rest) == [body[0]] + more;
      BlockTail(body, rest);
      BlockStripped(body[1..], rest);
      TakeOne(BlockComment, body[0], more, " ", BlockComment);
      MoreBlanks(|body[1..]| + 2, Stripped(Normal, rest));
    }
  }

  lemma {:induction false} QuotedStripped(quote: char, body: string, rest: string)
    requires RegionOk(Quoted(quote, body), rest)
    ensures Stripped(Normal, RegionText(Quoted(quote, body), rest))
         == RegionBlanked(Quoted(quote, body)) + Stripped(Normal, rest)
  {
    TakeOne(Normal, quote, BodyText(quote, body, rest), " ", QuoteState(quote));
    BodyStripped(quote, body, rest);
    MoreBlanks(BodyLength(quote, body), Stripped(Normal, rest));
  }

  lemma {:induction false} CommentStripped(body: string, rest: string)
    requires RegionOk(Line(body), rest)
    ensures Stripped(Normal, RegionText(Line(body), rest)) == RegionBlanked(Line(body)) + Stripped(Normal, rest)
  {
    TakeTwo(Normal, '-', '-', body + ("\n" + rest), "  ", LineComment);
    LineStripped(body, rest);
    MoreBlanks(|body|, "\n" + Stripped(Normal, rest));
    assert Blanks(2 + |body|) + ("\n" + Stripped(Normal, rest)) == Blanks(2 + |body|) + "\n" + Stripped(Normal, rest);
  }

  lemma {:induction false} RemarkStripped(body: string, rest: string)
    requires RegionOk(Block(body), rest)
    ensures Stripped(Normal, RegionText(Block(body), rest)) == RegionBlanked(Block(body)) + Stripped(Normal, rest)
  {
    TakeTwo(Normal, '/', '*', body + ("*/" + rest), "  ", BlockComment);
    BlockStripped(body, rest);
    MoreBlanks(|body| + 2, Stripped(Normal, rest));
  }

  lemma {:induction false} RegionStripped(x: Region, rest: string)
    requires RegionOk(x, rest)
    ensures Stripped(Normal, RegionText(x, rest)) == RegionBlanked(x) + Stripped(Normal, rest)
  {
    match x
    case Code(c) => TakeOne(Normal, c, rest, [c], Normal);
    case Quoted(quote, body) => QuotedStripped(quote, body, rest);
    case Line(body) => CommentStripped(body, rest);
    case Block(body) => RemarkStripped(body, rest);
  }

  lemma {:induction false} Associates(a: string, b: string, c: string)
    ensures a + (b + c) == a + b + c
  {
  }

  /** Literals, quoted names and comments are blanked, whatever they contain, and code is kept. */
  lemma {:induction false} RegionsStripped(xs: seq<Region>, rest: string)
    requires RegionsOk(xs, rest)
    ensures Stripped(Normal, RegionsText(xs, rest)) == RegionsBlanked(xs) + Stripped(Normal, rest)
  {
    if xs != [] {
      RegionsStripped(xs[1..], rest);
      RegionStripped(xs[0], RegionsText(xs[1..], rest));
      Associates(RegionBlanked(xs[0]), RegionsBlanked(xs[1..]), Stripped(Normal, rest));
    }
  }

  // ----- Every query is made of regions -----

  /** What a query may end in after its regions: nothing, or a literal or comment that is never closed. */
  datatype Open = End | OpenQuoted(quote: char, body: string) | OpenLine(body: string) | OpenBlock(body: string)

  predicate OpenOk(o: Open) {
    match o
    case End => true
    case OpenQuoted(quote, _) => quote == '\'' || quote == '"'
    case OpenLine(body) => '\n' !in body
    case OpenBlock(body) => RegionOk(Block(body), "")
  }

  function Doubled(quote: char, body: string): string {
    if body == "" then ""
    else (if body[0] == quote then [quote, quote] else [body[0]]) + Doubled(quote, body[1..])
  }

  function OpenText(o: Open): string {
    match o
    case End => ""
    case OpenQuoted(quote, body) => [quote] + Doubled(quote, body)
    case OpenLine(body) => "--" + body
    case OpenBlock(body) => "/*" + body
  }

  /** A text after an opening quote: the content of the literal, and what follows where it is closed. */
  lemma {:induction false} SplitQuoted(quote: char, s: string) returns (closed: bool, body: string, rest: string)
    ensures closed ==> s == BodyText(quote, body, rest) && !StartsWith(rest, quote) && |rest| < |s|
    ensures !closed ==> s == Doubled(quote, body)
  {
    if s == "" {
      closed, body, rest := false, "", "";
    } else if s[0] == quote && Second(s) == quote && |s| > 1 {
      closed, body, rest := SplitQuoted(quote, s[2..]);
      assert s == [quote, quote] + s[2..];
      body := [quote] + body;
    } else if s[0] == quote {
      closed, body, rest := true, "", s[1..];
    } else {
      closed, body, rest := SplitQuoted(quote, s[1..]);
      assert s == [s[0]] + s[1..];
      body := [s[0]] + body;
    }
  }

  lemma {:induction false} SplitLine(s: string) returns (closed: bool, body: string, rest: string)
    ensures closed ==> s == body + ("\n" + rest)
    ensures !closed ==> s == body
    ensures '\n' !in body
  {
    if s == "" {
      closed, body, rest := false, "", "";
    } else if s[0] == '\n' {
      closed, body, rest := true, "", s[1..];
    } else {
      closed, body, rest := SplitLine(s[1..]);
      body := [s[0]] + body;
    }
  }

  lemma {:induction false} SplitBlock(s: string) returns (closed: bool, body: string, rest: string)
    ensures closed ==> s == body + ("*/" + rest)
    ensures !closed ==> s == body
    ensures RegionOk(Block(body), rest)
  {
    if s == "" {
      closed, body, rest := false, "", "";
    } else if |s| > 1 && s[0] == '*' && s[1] == '/' {
      closed, body, rest := true, "", s[2..];
    } else {
      closed, body, rest := SplitBlock(s[1..]);
      assert s == [s[0]] + s[1..];
      BlockMore(s[0], body, rest);
      body := [s[0]] + body;
    }
  }

  lemma {:induction false} BlockMore(c: char, body: string, rest: string)
    requires RegionOk(Block(body), rest) && !(c == '*' && StartsWith(body, '/'))
    ensures RegionOk(Block([c] + body), rest)
  {
    var more := [c] + body;
    forall i | 0 <= i < |more| - 1 ensures !(more[i] == '*' && more[i + 1] == '/') {
      if i > 0 { assert more[i] == body[i - 1] && more[i + 1] == body[i - 1 + 1]; }
    }
  }

  /** The region a query begins with, or the open end it is. */
  lemma {:induction false} FirstRegion(s: string) returns (x: Region, rest: string, o: Open, closed: bool)
    requires s != ""
    ensures closed ==> RegionOk(x, rest) && s == RegionText(x, rest) && |rest| < |s|
    ensures !closed ==> OpenOk(o) && s == OpenText(o)
  {
    var body;
    x, o := Code(s[0]), End;
    if s[0] == '\'' || s[0] == '"' {
      assert s == [s[0]] + s[1..];
      closed, body, rest := SplitQuoted(s[0], s[1..]);
      x, o := Quoted(s[0], body), OpenQuoted(s[0], body);
    } else if s[0] == '-' && Second(s) == '-' {
      assert s == "--" + s[2..];
      closed, body, rest := SplitLine(s[2..]);
      x, o := Line(body), OpenLine(body);
    } else if s[0] == '/' && Second(s) == '*' {
      assert s == "/*" + s[2..];
      closed, body, rest := SplitBlock(s[2..]);
      x, o := Block(body), OpenBlock(body);
    } else {
      closed, rest := true, s[1..];
    }
  }

  /** Every query is a sequence of regions, followed by at most one literal or comment that is never closed. */
  lemma {:induction false} QueryRegions(s: string) returns (xs: seq<Region>, o: Open)
    ensures OpenOk(o) && RegionsOk(xs, OpenText(o)) && s == RegionsText(xs, OpenText(o))
    decreases |s|
  {
    if s == "" {
      xs, o := [], End;
    } else {
      var x, rest, open, closed := FirstRegion(s);
      if closed {
        xs, o := QueryRegions(rest);
        var more := [x] + xs;
        assert more[0] == x && more[1..] == xs;
        xs := more;
      } else {
        xs, o := [], open;
      }
    }
  }

  lemma {:induction false} DoubledStripped(quote: char, body: string)
    requires quote == '\'' || quote == '"'
    ensures Stripped(QuoteState(quote), Doubled(quote, body)) == Blanks(|Doubled(quote, body)|)
    decreases body
  {
    if body != "" {
      var more := Doubled(quote, body[1..]);
      DoubledStripped(quote, body[1..]);
      MoreBlanks(|more|, "");
      if body[0] == quote {
        TakeTwo(QuoteState(quote), quote, quote, more, "  ", QuoteState(quote));
      } else {
        TakeOne(QuoteState(quote), body[0], more, " ", QuoteState(quote));
      }
    }
  }

  lemma {:induction false} OpenLineStripped(body: string)
    requires '\n' !in body
    ensures Stripped(LineComment, body) == Blanks(|body|)
  {
    if body != "" {
      OpenLineStripped(body[1..]);
      assert body == [body[0]] + body[1..];
      TakeOne(LineComment, body[0], body[1..], " ", LineComment);
      MoreBlanks(|body| - 1, "");
    }
  }

  lemma {:induction false} OpenBlockStripped(body: string)
    requires RegionOk(Block(body), "")
    ensures Stripped(BlockComment, body) == Blanks(|body|)
  {
    if body != "" {
      BlockTail(body, "");
      OpenBlockStripped(body[1..]);
      assert body == [body[0]] + body[1..];
      assert body[0] == '*' && |body| > 1 ==> body[0 + 1] != '/';
      TakeOne(BlockComment, body[0], body[1..], " ", BlockComment);
      MoreBlanks(|body| - 1, "");
    }
  }

  /** Whatever is never closed turns blank to the end. */
  lemma {:induction false} OpenStripped(o: Open)
    requires OpenOk(o)
    ensures Stripped(Normal, OpenText(o)) == Blanks(|OpenText(o)|)
  {
    match o
    case End =>
    case OpenQuoted(quote, body) =>
      DoubledStripped(quote, body);
      TakeOne(Normal, quote, Doubled(quote, body), " ", QuoteState(quote));
      MoreBlanks(|Doubled(quote, body)|, "");
    case OpenLine(body) =>
      OpenLineStripped(body);
      TakeTwo(Normal, '-', '-', body, "  ", LineComment);
      MoreBlanks(|body|, "");
    case OpenBlock(body) =>
      OpenBlockStripped(body);
      TakeTwo(Normal, '/', '*', body, "  ", BlockComment);
      MoreBlanks(|body|, "");
  }

  /** So in every query code stays, and all else turns blank but for the line breaks that end comments. */
  lemma {:induction false} QueryStripped(s: string) returns (xs: seq<Region>, o: Open)
    ensures OpenOk(o) && RegionsOk(xs, OpenText(o)) && s == RegionsText(xs, OpenText(o))
    ensures Stripped(Normal, s) == RegionsBlanked(xs) + Blanks(|OpenText(o)|)
  {
    xs, o := QueryRegions(s);
    RegionsStripped(xs, OpenText(o));
    OpenStripped(o);
  }

  // ----- Tokens -----

  datatype Kind = Identifier | IntegerLiteral | FloatLiteral | Slash | Other

  datatype Token = Token(kind: Kind, text: string)

  /** How many more characters an identifier has. */
  function WordLength(s: string): (k: nat)
    ensures k <= |s| && forall i :: 0 <= i < k ==> IsIdentifierChar(s[i])
    ensures k < |s| ==> !IsIdentifierChar(s[k])
  {
    if s == "" || !IsIdentifierChar(s[0]) then 0 else 1 + WordLength(s[1..])
  }

  datatype Number = Number(length: nat, float: bool)

  /** How many more characters a number has: one point before any exponent, one exponent with its sign. */
  function NumberEnd(s: string, dot: bool, exp: bool): (r: Number)
    ensures r.length <= |s| && forall i :: 0 <= i < r.length ==> !IsSpace(s[i])
    decreases |s|
  {
    if s == "" then Number(0, dot || exp)
    else if IsDigit(s[0]) then Longer(1, NumberEnd(s[1..], dot, exp))
    else if s[0] == '.' && !dot && !exp then Longer(1, NumberEnd(s[1..], true, exp))
    else if (s[0] == 'e' || s[0] == 'E') && !exp then
      if |s| > 1 && (s[1] == '+' || s[1] == '-') then Longer(2, NumberEnd(s[2..], dot, true))
      else Longer(1, NumberEnd(s[1..], dot, true))
    else Number(0, dot || exp)
  }

  function Longer(k: nat, n: Number): Number {
    Number(k + n.length, n.float)
  }

  /** The token a text begins with. */
  function FirstToken(s: string): (t: Token)
    requires s != "" && !IsSpace(s[0])
    ensures t.text <= s && t.text != "" && forall i :: 0 <= i < |t.text| ==> !IsSpace(t.text[i])
  {
    if IsIdentifierStart(s[0]) then Token(Identifier, s[..1 + WordLength(s[1..])])
    else if IsDigit(s[0]) then
      var n := NumberEnd(s[1..], false, false);
      Token(if n.float then FloatLiteral else IntegerLiteral, s[..1 + n.length])
    else if s[0] == '/' then Token(Slash, s[..1])
    else Token(Other, s[..1])
  }

  function Tokens(s: string): seq<Token>
    decreases |s|
  {
    if s == "" then []
    else if IsSpace(s[0]) then Tokens(s[1..])
    else var t := FirstToken(s); [t] + Tokens(s[|t.text|..])
  }

  function Joined(tokens: seq<Token>): string {
    if tokens == [] then "" else tokens[0].text + Joined(tokens[1..])
  }

  function Unspaced(s: string): string {
    if s == "" then "" else (if IsSpace(s[0]) then "" else [s[0]]) + Unspaced(s[1..])
  }

  lemma {:induction false} UnspacedJoin(a: string, b: string)
    requires forall i :: 0 <= i < |a| ==> !IsSpace(a[i])
    ensures Unspaced(a + b) == a + Unspaced(b)
  {
    if a == "" {
      assert a + b == b;
    } else {
      assert (a + b)[1..] == a[1..] + b;
      UnspacedJoin(a[1..], b);
      assert [a[0]] + (a[1..] + Unspaced(b)) == a + Unspaced(b);
    }
  }

  /** The tokens' texts in order are the text without its whitespace. */
  lemma {:induction false} TokensJoined(s: string)
    ensures Joined(Tokens(s)) == Unspaced(s)
    decreases |s|
  {
    if s == "" {
    } else if IsSpace(s[0]) {
      TokensJoined(s[1..]);
    } else {
      var t := FirstToken(s);
      var rest := s[|t.text|..];
      TokensJoined(rest);
      assert s == t.text + rest;
      UnspacedJoin(t.text, rest);
    }
  }

  method ScanWord(sql: string, start: nat) returns (j: nat)
    requires start <= |sql|
    ensures j == start + WordLength(sql[start..])
  {
    j := start;
    while j < |sql| && IsIdentifierChar(sql[j])
      invariant start <= j <= |sql| && j + WordLength(sql[j..]) == start + WordLength(sql[start..])
    {
      assert sql[j..][1..] == sql[j + 1..];
      j := j + 1;
    }
  }

  /** How many characters a number takes on, if any, and what it has then had. */
  method NumberGoesOn(sql: string, j: nat, dot: bool, exp: bool) returns (taken: nat, dotNow: bool, expNow: bool)
    requires j < |sql|
    ensures j + taken <= |sql|
    ensures NumberEnd(sql[j..], dot, exp) ==
            if taken == 0 then Number(0, dot || exp) else Longer(taken, NumberEnd(sql[j + taken..], dotNow, expNow))
  {
    var x := sql[j];
    ghost var s := sql[j..];
    assert s[0] == x && s[1..] == sql[j + 1..] && (|s| > 1 ==> s[1] == sql[j + 1] && s[2..] == sql[j + 2..]);
    taken, dotNow, expNow := 0, dot, exp;
    if IsDigit(x) {
      taken := 1;
    } else if x == '.' && !dot && !exp {
      taken, dotNow := 1, true;
    } else if (x == 'e' || x == 'E') && !exp {
      expNow := true;
      taken := if j + 1 < |sql| && (sql[j + 1] == '+' || sql[j + 1] == '-') then 2 else 1;
    }
  }

  method ScanNumber(sql: string, start: nat) returns (j: nat, float: bool)
    requires start <= |sql|
    ensures start <= j && Number(j - start, float) == NumberEnd(sql[start..], false, false)
  {
    j := start;
    var dot, exp := false, false;
    while j < |sql|
      invariant start <= j <= |sql|
      invariant Longer(j - start, NumberEnd(sql[j..], dot, exp)) == NumberEnd(sql[start..], false, false)
    {
      var taken, dotNow, expNow := NumberGoesOn(sql, j, dot, exp);
      if taken == 0 { break; }
      j, dot, exp := j + taken, dotNow, expNow;
    }
    float := dot || exp;
  }

  /** The token at a place that is no whitespace, and where it ends. */
  method ScanToken(sql: string, i: nat) returns (j: nat, kind: Kind)
    requires i < |sql| && !IsSpace(sql[i])
    ensures i < j <= |sql| && FirstToken(sql[i..]) == Token(kind, sql[i..j])
  {
    ghost var rest := sql[i..];
    var c := sql[i];
    assert rest[0] == c && rest[1..] == sql[i + 1..];
    j, kind := i + 1, Other;
    if IsIdentifierStart(c) {
      j := ScanWord(sql, i + 1);
      kind := Identifier;
    } else if IsDigit(c) {
      var float;
      j, float := ScanNumber(sql, i + 1);
      kind := if float then FloatLiteral else IntegerLiteral;
    } else if c == '/' {
      kind := Slash;
    }
    assert rest[..j - i] == sql[i..j];
  }

  method TokenizeForDivisionCheck(sql: string) returns (tokens: seq<Token>)
    ensures tokens == Tokens(sql)
  {
    tokens := [];
    var i := 0;
    assert sql[0..] == sql;
    while i < |sql|
      invariant i <= |sql| && tokens + Tokens(sql[i..]) == Tokens(sql)
    {
      if IsSpace(sql[i]) {
        SpaceTaken(sql, i);
        i := i + 1;
        continue;
      }
      var j, kind := ScanToken(sql, i);
      var t := Token(kind, sql[i..j]);
      TokenTaken(sql, i, j, t, tokens);
      tokens := tokens + [t];
      i := j;
    }
    assert tokens + [] == tokens;
  }

  lemma {:induction false} SpaceTaken(sql: string, i: nat)
    requires i < |sql| && IsSpace(sql[i])
    ensures Tokens(sql[i..]) == Tokens(sql[i + 1..])
  {
    assert sql[i..][1..] == sql[i + 1..];
  }

  lemma {:induction false} TokenTaken(sql: string, i: nat, j: nat, t: Token, before: seq<Token>)
    requires i < j <= |sql| && !IsSpace(sql[i]) && t == FirstToken(sql[i..]) && t.text == sql[i..j]
    ensures before + Tokens(sql[i..]) == before + [t] + Tokens(sql[j..])
  {
    assert sql[i..][j - i..] == sql[j..];
    assert before + ([t] + Tokens(sql[j..])) == before + [t] + Tokens(sql[j..]);
  }

  // ----- The warning -----

  predicate IsLikelyIntegerOperand(kind: Kind) {
    kind == Identifier || kind == IntegerLiteral
  }

  predicate DividesIntegers(tokens: seq<Token>, i: int) {
    && 1 <= i < |tokens| - 1 && tokens[i].kind == Slash
    && IsLikelyIntegerOperand(tokens[i - 1].kind) && IsLikelyIntegerOperand(tokens[i + 1].kind)
  }

  method ShouldWarnIntegerDivision(sql: string) returns (r: bool)
    ensures r <==> exists i :: DividesIntegers(Tokens(Stripped(Normal, sql)), i)
  {
    var sanitized := StripSqlStringsAndComments(sql);
    var tokens := TokenizeForDivisionCheck(sanitized);
    if |tokens| < 3 { return false; }
    for i := 1 to |tokens| - 1
      invariant forall k :: k < i ==> !DividesIntegers(tokens, k)
    {
      if tokens[i].kind == Slash && IsLikelyIntegerOperand(tokens[i - 1].kind)
         && IsLikelyIntegerOperand(tokens[i + 1].kind) {
        assert DividesIntegers(tokens, i);
        return true;
      }
    }
    r := false;
  }
}
