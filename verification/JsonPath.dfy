/** JSONPath texts, the steps they stand for, and what a path selects. A `StepText` keeps the choices a writer has:
    dot or bracket, which quote, which escapes, leading zeros. As in `JsonGrammar`, text functions take what follows. */
module JsonPath {
  import opened Outcomes
  import opened Characters
  import opened Decimals
  import opened JsonGrammar
  import opened JsonReader

  datatype Step = FieldStep(name: string) | IndexStep(index: nat) | WildcardStep

  // ----- The syntax of a path -----

  datatype Letter = Plain(c: char) | Escape(letter: char)

  datatype StepText =
    | Dotted(name: string)
    | Quoted(quote: char, letters: seq<Letter>)
    | Indexed(digits: string)
    | AnyItem

  predicate IsIdentifier(s: string) {
    s != "" && IsIdentifierStart(s[0]) && forall i :: 0 <= i < |s| ==> IsIdentifierChar(s[i])
  }

  predicate IsQuote(c: char) {
    c == '"' || c == '\''
  }

  predicate IsLetterEscape(c: char) {
    c in "\\\"'/nrt"
  }

  function LetterValue(x: Letter): char {
    match x
    case Plain(c) => c
    case Escape('n') => '\n'
    case Escape('r') => '\r'
    case Escape('t') => '\t'
    case Escape(c) => c
  }

  predicate LetterOk(quote: char, x: Letter) {
    match x
    case Plain(c) => c != quote && c != '\\'
    case Escape(c) => IsLetterEscape(c)
  }

  predicate LettersOk(quote: char, xs: seq<Letter>) {
    forall i :: 0 <= i < |xs| ==> LetterOk(quote, xs[i])
  }

  predicate StepOk(y: StepText) {
    match y
    case Dotted(name) => IsIdentifier(name)
    case Quoted(quote, letters) => IsQuote(quote) && LettersOk(quote, letters)
    case Indexed(digits) => digits != "" && AllDigits(digits)
    case AnyItem => true
  }

  predicate StepsOk(ys: seq<StepText>) {
    forall i :: 0 <= i < |ys| ==> StepOk(ys[i])
  }

  function LetterText(x: Letter): string {
    match x
    case Plain(c) => [c]
    case Escape(c) => ['\\', c]
  }

  /** The letters, the closing quote and the closing bracket. */
  function LettersText(quote: char, xs: seq<Letter>, rest: string): string {
    if xs == [] then [quote, ']'] + rest else LetterText(xs[0]) + LettersText(quote, xs[1..], rest)
  }

  function StepSpelling(y: StepText, rest: string): string {
    match y
    case Dotted(name) => "." + (name + rest)
    case Quoted(quote, letters) => ['[', quote] + LettersText(quote, letters, rest)
    case Indexed(digits) => "[" + (digits + ("]" + rest))
    case AnyItem => "[*]" + rest
  }

  function StepsText(ys: seq<StepText>): string {
    if ys == [] then "" else StepSpelling(ys[0], StepsText(ys[1..]))
  }

  function LettersValue(xs: seq<Letter>): (s: string)
    ensures |s| == |xs|
  {
    if xs == [] then "" else [LetterValue(xs[0])] + LettersValue(xs[1..])
  }

  /** Indices are `size_t` and wrap around. */
  const SIZE := 0x1_0000_0000_0000_0000

  function StepValue(y: StepText): Step
    requires StepOk(y)
  {
    match y
    case Dotted(name) => FieldStep(name)
    case Quoted(_, letters) => FieldStep(LettersValue(letters))
    case Indexed(digits) => IndexStep(DecimalValue(digits) % SIZE)
    case AnyItem => WildcardStep
  }

  function StepValues(ys: seq<StepText>): (steps: seq<Step>)
    requires StepsOk(ys)
    ensures |steps| == |ys|
  {
    if ys == [] then [] else [StepValue(ys[0])] + StepValues(ys[1..])
  }

  // ----- Reading -----

  /** The characters of an identifier that a text begins with. */
  function Word(s: string): (w: string)
    ensures w <= s && forall i :: 0 <= i < |w| ==> IsIdentifierChar(w[i])
    ensures w < s ==> !IsIdentifierChar(s[|w|])
  {
    if s != "" && IsIdentifierChar(s[0]) then
      var w := Word(s[1..]);
      PrefixGrows(s, w);
      [s[0]] + w
    else ""
  }

  lemma {:induction false} WordOf(w: string, rest: string)
    requires forall i :: 0 <= i < |w| ==> IsIdentifierChar(w[i])
    requires rest != "" ==> !IsIdentifierChar(rest[0])
    ensures Word(w + rest) == w && (w + rest)[|w|..] == rest
  {
    if w == "" {
      assert w + rest == rest;
    } else {
      WordOf(w[1..], rest);
      JoinedTail(w, rest);
    }
  }

  function ReadLetter(quote: char, s: string): (r: Parse<Letter>)
    requires s != "" && s[0] != quote
    ensures r.Parsed? ==> LetterOk(quote, r.value) && s == LetterText(r.value) + r.rest && |r.rest| < |s|
  {
    if s[0] != '\\' then Parsed(Plain(s[0]), s[1..])
    else if |s| >= 2 && IsLetterEscape(s[1]) then Parsed(Escape(s[1]), s[2..])
    else Fail
  }

  /** The letters up to the closing quote, which is taken. */
  function ReadLetters(quote: char, s: string): (r: Parse<seq<Letter>>)
    ensures r.Parsed? ==> LettersOk(quote, r.value) && |r.rest| < |s|
  {
    if s == "" then Fail
    else if s[0] == quote then Parsed([], s[1..])
    else
      match ReadLetter(quote, s)
      case Fail => Fail
      case Parsed(x, t) =>
        match ReadLetters(quote, t)
        case Fail => Fail
        case Parsed(xs, rest) => Parsed([x] + xs, rest)
  }

  lemma {:induction false} LettersTaken(quote: char, s: string, rest: string)
    requires ReadLetters(quote, s).Parsed? && ReadLetters(quote, s).rest == "]" + rest
    ensures s == LettersText(quote, ReadLetters(quote, s).value, rest)
    decreases |s|
  {
    if s[0] == quote {
      assert s == [s[0]] + s[1..];
    } else {
      var x, t := ReadLetter(quote, s).value, ReadLetter(quote, s).rest;
      LettersTaken(quote, t, rest);
      assert ([x] + ReadLetters(quote, t).value)[1..] == ReadLetters(quote, t).value;
    }
  }

  lemma {:induction false} LetterRead(quote: char, x: Letter, rest: string)
    requires IsQuote(quote) && LetterOk(quote, x)
    ensures var s := LetterText(x) + rest; s[0] != quote && ReadLetter(quote, s) == Parsed(x, rest)
  {
    var s := LetterText(x) + rest;
    assert s[|LetterText(x)|..] == rest;
  }

  lemma {:induction false} LettersRead(quote: char, xs: seq<Letter>, rest: string)
    requires IsQuote(quote) && LettersOk(quote, xs)
    ensures ReadLetters(quote, LettersText(quote, xs, rest)) == Parsed(xs, "]" + rest)
  {
    if xs == [] {
      assert ([quote, ']'] + rest)[1..] == "]" + rest;
    } else {
      LetterRead(quote, xs[0], LettersText(quote, xs[1..], rest));
      LettersRead(quote, xs[1..], rest);
      assert [xs[0]] + xs[1..] == xs;
    }
  }

  function Closed(r: Parse<StepText>): Parse<StepText> {
    if r.Parsed? && Starts(r.rest, ']') then Parsed(r.value, r.rest[1..]) else Fail
  }

  /** What stands between brackets, up to the closing one. */
  function ReadBracket(s: string): (r: Parse<StepText>)
    ensures r.Parsed? ==> StepOk(r.value) && |r.rest| < |s|
  {
    if s == "" then Fail
    else if s[0] == '*' then Parsed(AnyItem, s[1..])
    else if IsQuote(s[0]) then
      match ReadLetters(s[0], s[1..])
      case Fail => Fail
      case Parsed(xs, rest) => Parsed(Quoted(s[0], xs), rest)
    else if IsDigit(s[0]) then Parsed(Indexed(Digits(s)), s[|Digits(s)|..])
    else Fail
  }

  function ReadStep(s: string): (r: Parse<StepText>)
    ensures r.Parsed? ==> StepOk(r.value) && |r.rest| < |s|
  {
    if Starts(s, '.') then
      var t := s[1..];
      if t != "" && IsIdentifierStart(t[0]) then Parsed(Dotted(Word(t)), t[|Word(t)|..]) else Fail
    else if Starts(s, '[') then Closed(ReadBracket(s[1..]))
    else Fail
  }

  function ReadSteps(s: string): (r: Option<seq<StepText>>)
    ensures r.Some? ==> StepsOk(r.value)
    decreases |s|
  {
    if s == "" then Some([])
    else
      match ReadStep(s)
      case Fail => None
      case Parsed(y, t) =>
        match ReadSteps(t)
        case None => None
        case Some(ys) => Some([y] + ys)
  }

  lemma {:induction false} BracketTaken(t: string, rest: string)
    requires ReadBracket(t).Parsed? && ReadBracket(t).rest == "]" + rest
    ensures "[" + t == StepSpelling(ReadBracket(t).value, rest)
  {
    if IsQuote(t[0]) {
      LettersTaken(t[0], t[1..], rest);
      assert "[" + t == ['[', t[0]] + t[1..];
    } else if t[0] == '*' {
      assert "[" + t == "[*" + t[1..];
      assert "[*" + ("]" + rest) == "[*]" + rest;
    } else {
      assert t == Digits(t) + t[|Digits(t)|..];
    }
  }

  lemma {:induction false} StepTaken(s: string)
    ensures ReadStep(s).Parsed? ==> s == StepSpelling(ReadStep(s).value, ReadStep(s).rest)
  {
    if ReadStep(s).Parsed? {
      var t := s[1..];
      StartsWith(s, s[0]);
      if s[0] == '.' {
        assert t == Word(t) + t[|Word(t)|..];
      } else {
        StartsWith(ReadBracket(t).rest, ']');
        BracketTaken(t, ReadStep(s).rest);
      }
    }
  }

  lemma {:induction false} StepsTaken(s: string)
    ensures ReadSteps(s).Some? ==> StepsText(ReadSteps(s).value) == s
    decreases |s|
  {
    if s != "" && ReadSteps(s).Some? {
      StepTaken(s);
      var ys := ReadSteps(ReadStep(s).rest).value;
      StepsTaken(ReadStep(s).rest);
      assert ([ReadStep(s).value] + ys)[1..] == ys;
    }
  }

  /** What a step may be followed by: the end or another step. */
  predicate StepEnds(rest: string) {
    rest == "" || rest[0] == '.' || rest[0] == '['
  }

  lemma {:induction false} BracketRead(s: string, t: string, y: StepText, rest: string)
    requires s == "[" + t && ReadBracket(t) == Parsed(y, "]" + rest)
    ensures ReadStep(s) == Parsed(y, rest)
  {
    assert s[1..] == t;
    assert ("]" + rest)[1..] == rest;
  }

  lemma {:induction false} StepRead(y: StepText, rest: string)
    requires StepOk(y) && StepEnds(rest)
    ensures ReadStep(StepSpelling(y, rest)) == Parsed(y, rest)
  {
    var s := StepSpelling(y, rest);
    match y
    case Dotted(name) =>
      assert s[1..] == name + rest;
      WordOf(name, rest);
    case Quoted(quote, letters) =>
      var t := LettersText(quote, letters, rest);
      assert s == "[" + ([quote] + t);
      assert ([quote] + t)[1..] == t;
      LettersRead(quote, letters, rest);
      BracketRead(s, [quote] + t, y, rest);
    case Indexed(digits) =>
      DigitsOf(digits, "]" + rest);
      BracketRead(s, digits + ("]" + rest), y, rest);
    case AnyItem =>
      assert s == "[" + ("*" + ("]" + rest));
      assert ("*" + ("]" + rest))[1..] == "]" + rest;
      BracketRead(s, "*" + ("]" + rest), y, rest);
  }

  lemma {:induction false} StepsRead(ys: seq<StepText>)
    requires StepsOk(ys)
    ensures ReadSteps(StepsText(ys)) == Some(ys) && StepEnds(StepsText(ys))
  {
    if ys != [] {
      StepsRead(ys[1..]);
      StepRead(ys[0], StepsText(ys[1..]));
      assert [ys[0]] + ys[1..] == ys;
    }
  }

  // ----- Parsing, step by step -----

  /** The steps a path text stands for. */
  ghost predicate PathMeans(text: string, steps: seq<Step>) {
    exists ys :: StepsOk(ys) && text == "$" + StepsText(ys) && StepValues(ys) == steps
  }

  lemma {:induction false} ReadMeansPath(text: string, steps: seq<Step>)
    ensures PathMeans(text, steps) <==>
            Starts(text, '$') && ReadSteps(text[1..]).Some? && StepValues(ReadSteps(text[1..]).value) == steps
  {
    if PathMeans(text, steps) {
      var ys :| StepsOk(ys) && text == "$" + StepsText(ys) && StepValues(ys) == steps;
      assert text[1..] == StepsText(ys);
      StepsRead(ys);
    }
    if Starts(text, '$') && ReadSteps(text[1..]).Some? {
      StepsTaken(text[1..]);
      StartsWith(text, '$');
    }
  }

  /** The field and the position after its closing quote. */
  method ParseQuotedField(text: string, start: nat) returns (field: Option<string>, pos: nat)
    requires start < |text|
    ensures match ReadLetters(text[start], text[start + 1..])
            case Fail => field.None?
            case Parsed(xs, rest) =>
              field == Some(LettersValue(xs)) && start < pos <= |text| && rest == text[pos..]
  {
    var quote := text[start];
    pos := start + 1;
    var value := "";
    ghost var whole := ReadLetters(quote, text[pos..]);
    while pos < |text|
      invariant start < pos <= |text|
      invariant match ReadLetters(quote, text[pos..])
                case Fail => whole.Fail?
                case Parsed(xs, rest) =>
                  whole.Parsed? && whole.rest == rest && LettersValue(whole.value) == value + LettersValue(xs)
    {
      ghost var here := text[pos..];
      var ch := text[pos];
      pos := pos + 1;
      assert here[1..] == text[pos..];
      if ch == quote {
        assert value + LettersValue([]) == value;
        return Some(value), pos;
      }
      LettersStep(quote, here, value);
      if ch == '\\' {
        if pos >= |text| { return None, pos; }
        var escaped := text[pos];
        pos := pos + 1;
        assert here[1] == escaped && here[2..] == text[pos..];
        if !IsLetterEscape(escaped) { return None, pos; }
        value := value + [LetterValue(Escape(escaped))];
      } else {
        value := value + [ch];
      }
    }
    field := None;
  }

  lemma {:induction false} LettersCons(x: Letter, xs: seq<Letter>)
    ensures LettersValue([x] + xs) == [LetterValue(x)] + LettersValue(xs)
  {
    assert ([x] + xs)[1..] == xs;
  }

  lemma {:induction false} LettersStep(quote: char, s: string, value: string)
    requires s != "" && s[0] != quote
    ensures ReadLetter(quote, s).Fail? ==> ReadLetters(quote, s).Fail?
    ensures ReadLetter(quote, s).Parsed? ==>
              var x, more := ReadLetter(quote, s).value, ReadLetters(quote, ReadLetter(quote, s).rest);
              if more.Fail? then ReadLetters(quote, s).Fail?
              else
                && ReadLetters(quote, s).Parsed? && ReadLetters(quote, s).rest == more.rest
                && value + LettersValue(ReadLetters(quote, s).value) ==
                   value + [LetterValue(x)] + LettersValue(more.value)
  {
    if ReadLetter(quote, s).Parsed? {
      var x, more := ReadLetter(quote, s).value, ReadLetters(quote, ReadLetter(quote, s).rest);
      if more.Parsed? {
        LettersCons(x, more.value);
        assert value + ([LetterValue(x)] + LettersValue(more.value)) ==
               value + [LetterValue(x)] + LettersValue(more.value);
      }
    }
  }

  lemma {:induction false} DecimalStep(digits: string, d: char, index: nat)
    requires AllDigits(digits) && IsDigit(d) && index == DecimalValue(digits) % SIZE
    ensures AllDigits(digits + [d])
    ensures (index * 10 + (d as int - '0' as int)) % SIZE == DecimalValue(digits + [d]) % SIZE
  {
    assert (digits + [d])[..|digits|] == digits;
    var v := d as int - '0' as int;
    assert DecimalValue(digits) == index + DecimalValue(digits) / SIZE * SIZE;
    WrapOff(index * 10 + v, DecimalValue(digits) / SIZE * 10);
  }

  lemma {:induction false} WrapOff(a: int, k: int)
    ensures (a + k * SIZE) % SIZE == a % SIZE
  {
  }

  lemma {:induction false} MoreDigits(text: string, start: nat, pos: nat, index: nat)
    requires start <= pos < |text| && AllDigits(text[start..pos]) && IsDigit(text[pos])
    requires index == DecimalValue(text[start..pos]) % SIZE
    ensures AllDigits(text[start..pos + 1])
    ensures (index * 10 + (text[pos] as int - '0' as int)) % SIZE == DecimalValue(text[start..pos + 1]) % SIZE
  {
    DecimalStep(text[start..pos], text[pos], index);
    assert text[start..pos + 1] == text[start..pos] + [text[pos]];
  }

  lemma {:induction false} DigitsEnd(text: string, start: nat, pos: nat)
    requires start <= pos <= |text| && AllDigits(text[start..pos])
    requires pos < |text| ==> !IsDigit(text[pos])
    ensures Digits(text[start..]) == text[start..pos]
  {
    assert text[start..] == text[start..pos] + text[pos..];
    DigitsOf(text[start..pos], text[pos..]);
  }

  /** The index, wrapped to `size_t`, and the position after its digits. */
  method ParseIndex(text: string, start: nat) returns (index: nat, pos: nat)
    requires start <= |text|
    ensures start <= pos <= |text|
    ensures var digits := Digits(text[start..]); pos == start + |digits| && index == DecimalValue(digits) % SIZE
  {
    index, pos := 0, start;
    while pos < |text| && IsDigit(text[pos])
      invariant start <= pos <= |text| && AllDigits(text[start..pos])
      invariant index == DecimalValue(text[start..pos]) % SIZE
    {
      MoreDigits(text, start, pos, index);
      index := (index * 10 + (text[pos] as int - '0' as int)) % SIZE;
      pos := pos + 1;
    }
    DigitsEnd(text, start, pos);
  }

  /** What one step of the main loop takes off the text at `pos`. */
  predicate Took(text: string, pos: nat, r: Option<Step>, next: nat)
    requires pos <= |text|
  {
    match ReadStep(text[pos..])
    case Fail => r.None?
    case Parsed(y, rest) => r == Some(StepValue(y)) && pos < next <= |text| && rest == text[next..]
  }

  method ParseBracket(text: string, start: nat) returns (r: Option<Step>, next: nat)
    requires start <= |text|
    ensures match ReadBracket(text[start..])
            case Fail => r.None?
            case Parsed(y, rest) => r == Some(StepValue(y)) && start < next <= |text| && rest == text[next..]
  {
    ghost var s := text[start..];
    next := start;
    if start >= |text| { return None, next; }
    assert s[0] == text[start] && s[1..] == text[start + 1..];
    if text[start] == '*' {
      r, next := Some(WildcardStep), start + 1;
    } else if IsQuote(text[start]) {
      var field;
      field, next := ParseQuotedField(text, start);
      r := if field.Some? then Some(FieldStep(field.value)) else None;
    } else if IsDigit(text[start]) {
      var index;
      index, next := ParseIndex(text, start);
      assert s[|Digits(s)|..] == text[next..];
      r := Some(IndexStep(index));
    } else {
      r := None;
    }
  }

  /** The position after an identifier's characters. */
  method SkipWord(text: string, start: nat) returns (next: nat)
    requires start <= |text|
    ensures start <= next <= |text| && text[start..next] == Word(text[start..])
  {
    next := start;
    while next < |text| && IsIdentifierChar(text[next])
      invariant start <= next <= |text| && forall i :: start <= i < next ==> IsIdentifierChar(text[i])
    {
      next := next + 1;
    }
    assert text[start..] == text[start..next] + text[next..];
    WordOf(text[start..next], text[next..]);
  }

  lemma {:induction false} RestAfter(text: string, start: nat, next: nat, w: string)
    requires start <= next <= |text| && text[start..next] == w
    ensures |w| == next - start && text[start..][|w|..] == text[next..]
  {
  }

  method ParseStep(text: string, pos: nat) returns (r: Option<Step>, next: nat)
    requires pos < |text|
    ensures Took(text, pos, r, next)
  {
    RestAfter(text, pos, pos + 1, [text[pos]]);
    next := pos + 1;
    if text[pos] == '.' {
      if next >= |text| || !IsIdentifierStart(text[next]) { return None, next; }
      var start := next;
      next := SkipWord(text, start);
      RestAfter(text, start, next, Word(text[start..]));
      r := Some(FieldStep(text[start..next]));
    } else if text[pos] == '[' {
      r, next := ParseBracket(text, next);
      if r.Some? {
        if next >= |text| || text[next] != ']' { return None, next; }
        RestAfter(text, next, next + 1, "]");
        next := next + 1;
      }
    } else {
      r := None;
    }
  }

  /** The steps of a path: those its one syntax stands for, or none. */
  method ParseJsonPath(text: string) returns (r: Option<seq<Step>>)
    ensures forall steps :: PathMeans(text, steps) <==> r == Some(steps)
  {
    forall steps ensures PathMeans(text, steps) <==>
        Starts(text, '$') && ReadSteps(text[1..]).Some? && StepValues(ReadSteps(text[1..]).value) == steps
    {
      ReadMeansPath(text, steps);
    }
    if text == "" || text[0] != '$' { return None; }
    var steps := [];
    var pos := 1;
    ghost var whole := ReadSteps(text[1..]);
    if whole.Some? { assert [] + StepValues(whole.value) == StepValues(whole.value); }
    while pos < |text|
      invariant 1 <= pos <= |text|
      invariant match ReadSteps(text[pos..])
                case None => whole.None?
                case Some(ys) => whole.Some? && StepValues(whole.value) == steps + StepValues(ys)
    {
      var step, next := ParseStep(text, pos);
      StepsStep(text[pos..], steps);
      if step.None? { return None; }
      pos := next;
      steps := steps + [step.value];
    }
    assert text[pos..] == "";
    assert steps + StepValues([]) == steps;
    r := Some(steps);
  }

  lemma {:induction false} StepsStep(s: string, steps: seq<Step>)
    requires s != ""
    ensures ReadStep(s).Fail? ==> ReadSteps(s).None?
    ensures ReadStep(s).Parsed? ==>
              var more := ReadSteps(ReadStep(s).rest);
              if more.None? then ReadSteps(s).None?
              else
                && ReadSteps(s).Some?
                && steps + StepValues(ReadSteps(s).value) ==
                   steps + [StepValue(ReadStep(s).value)] + StepValues(more.value)
  {
    if ReadStep(s).Parsed? {
      var y, more := ReadStep(s).value, ReadSteps(ReadStep(s).rest);
      if more.Some? {
        assert ([y] + more.value)[1..] == more.value;
      }
    }
  }

  // ----- Printing a path -----

  function PrintedLetters(s: string): (xs: seq<Letter>)
    ensures LettersOk('"', xs)
  {
    if s == "" then []
    else [if s[0] == '"' || s[0] == '\\' then Escape(s[0]) else Plain(s[0])] + PrintedLetters(s[1..])
  }

  lemma {:induction false} PrintedLettersRead(s: string)
    ensures LettersValue(PrintedLetters(s)) == s
  {
    if s != "" {
      PrintedLettersRead(s[1..]);
      assert [s[0]] + s[1..] == s;
      assert PrintedLetters(s)[1..] == PrintedLetters(s[1..]);
    }
  }

  function PrintedStep(step: Step): (y: StepText)
    ensures StepOk(y)
  {
    match step
    case FieldStep(name) => if IsIdentifier(name) then Dotted(name) else Quoted('"', PrintedLetters(name))
    case IndexStep(index) => Indexed(Decimal(index))
    case WildcardStep => AnyItem
  }

  function PrintedSteps(steps: seq<Step>): (ys: seq<StepText>)
    ensures StepsOk(ys)
  {
    if steps == [] then [] else [PrintedStep(steps[0])] + PrintedSteps(steps[1..])
  }

  function PrintedPath(steps: seq<Step>): string {
    "$" + StepsText(PrintedSteps(steps))
  }

  /** The steps with their indices as `size_t` holds them. */
  function Wrapped(steps: seq<Step>): (r: seq<Step>)
    ensures |r| == |steps|
  {
    if steps == [] then []
    else [if steps[0].IndexStep? then IndexStep(steps[0].index % SIZE) else steps[0]] + Wrapped(steps[1..])
  }

  predicate InRange(steps: seq<Step>) {
    forall i :: 0 <= i < |steps| && steps[i].IndexStep? ==> steps[i].index < SIZE
  }

  lemma {:induction false} WrappedInRange(steps: seq<Step>)
    ensures Wrapped(steps) == steps <==> InRange(steps)
  {
    if steps != [] {
      WrappedInRange(steps[1..]);
      assert [steps[0]] + steps[1..] == steps;
      assert Wrapped(steps)[1..] == Wrapped(steps[1..]);
      assert InRange(steps) <==> (steps[0].IndexStep? ==> steps[0].index < SIZE) && InRange(steps[1..]) by {
        assert InRange(steps[1..]) ==> forall i :: 1 <= i < |steps| ==> steps[i] == steps[1..][i - 1];
      }
    }
  }

  lemma {:induction false} PrintedStepsMean(steps: seq<Step>)
    ensures StepValues(PrintedSteps(steps)) == Wrapped(steps)
  {
    if steps != [] {
      PrintedStepsMean(steps[1..]);
      assert PrintedSteps(steps)[1..] == PrintedSteps(steps[1..]);
      match steps[0]
      case FieldStep(name) => PrintedLettersRead(name);
      case IndexStep(index) => DecimalRead(index);
      case WildcardStep =>
    }
  }

  /** A printed path means its steps, with the indices wrapped, and nothing else. */
  lemma {:induction false} PrintedPathMeans(steps: seq<Step>, others: seq<Step>)
    ensures PathMeans(PrintedPath(steps), others) <==> others == Wrapped(steps)
  {
    var ys := PrintedSteps(steps);
    PrintedStepsMean(steps);
    StepsRead(ys);
    ReadMeansPath(PrintedPath(steps), others);
    assert PrintedPath(steps)[1..] == StepsText(ys);
  }

  /** Printing is undone exactly when every index fits `size_t`. */
  lemma {:induction false} PrintedPathRoundTrip(steps: seq<Step>)
    ensures PathMeans(PrintedPath(steps), steps) <==> InRange(steps)
  {
    PrintedPathMeans(steps, steps);
    WrappedInRange(steps);
  }

  // ----- What a path selects -----

  /** The value of the first field with the name. */
  method FindField(v: JsonValue, name: string) returns (r: Option<JsonValue>)
    ensures r == Named(v, name)
  {
    if !v.Object? { return None; }
    for k := 0 to |v.fields|
      invariant forall i :: 0 <= i < k ==> v.fields[i].key != name
    {
      if v.fields[k].key == name {
        NamedIs(v, name, k);
        return Some(v.fields[k].value);
      }
    }
    NamedNone(v.fields, name);
    r := None;
  }

  function FirstNamed(fields: seq<Field>, name: string): Option<JsonValue> {
    if fields == [] then None
    else if fields[0].key == name then Some(fields[0].value)
    else FirstNamed(fields[1..], name)
  }

  function Named(v: JsonValue, name: string): Option<JsonValue> {
    if v.Object? then FirstNamed(v.fields, name) else None
  }

  lemma {:induction false} FirstNamedIs(fields: seq<Field>, name: string, k: nat)
    requires k < |fields| && fields[k].key == name && forall i :: 0 <= i < k ==> fields[i].key != name
    ensures FirstNamed(fields, name) == Some(fields[k].value)
  {
    if k > 0 { FirstNamedIs(fields[1..], name, k - 1); }
  }

  lemma {:induction false} NamedIs(v: JsonValue, name: string, k: nat)
    requires v.Object? && k < |v.fields| && v.fields[k].key == name
    requires forall i :: 0 <= i < k ==> v.fields[i].key != name
    ensures Named(v, name) == Some(v.fields[k].value)
  {
    FirstNamedIs(v.fields, name, k);
  }

  lemma {:induction false} NamedNone(fields: seq<Field>, name: string)
    requires forall i :: 0 <= i < |fields| ==> fields[i].key != name
    ensures FirstNamed(fields, name) == None
  {
    if fields != [] { NamedNone(fields[1..], name); }
  }

  /** The values one step away from a value. */
  function Children(v: JsonValue, step: Step): seq<JsonValue> {
    match step
    case FieldStep(name) => (match Named(v, name) case None => [] case Some(child) => [child])
    case IndexStep(index) => if v.Array? && index < |v.items| then [v.items[index]] else []
    case WildcardStep => if v.Array? then v.items else []
  }

  /** The values a path selects below one value, found depth first. */
  function Selected(v: JsonValue, steps: seq<Step>): seq<JsonValue>
    decreases |steps|, 0, 0
  {
    if steps == [] then [v] else SelectedBelow(Children(v, steps[0]), steps[1..])
  }

  /** The values a path selects below each of several values, in order. */
  function SelectedBelow(vs: seq<JsonValue>, steps: seq<Step>): seq<JsonValue>
    decreases |steps|, 1, |vs|
  {
    if vs == [] then [] else Selected(vs[0], steps) + SelectedBelow(vs[1..], steps)
  }

  lemma {:induction false} SelectedBelowBoth(vs: seq<JsonValue>, ws: seq<JsonValue>, steps: seq<Step>)
    ensures SelectedBelow(vs + ws, steps) == SelectedBelow(vs, steps) + SelectedBelow(ws, steps)
  {
    if vs == [] {
      assert vs + ws == ws;
    } else {
      assert (vs + ws)[1..] == vs[1..] + ws;
      SelectedBelowBoth(vs[1..], ws, steps);
    }
  }

  /** Two paths joined select what the second selects below each result of the first, in order. */
  lemma {:induction false} JoinedSelects(v: JsonValue, p: seq<Step>, q: seq<Step>)
    ensures Selected(v, p + q) == SelectedBelow(Selected(v, p), q)
    decreases |p|, 0, 0
  {
    if p == [] {
      assert p + q == q;
      assert Selected(v, q) + [] == Selected(v, q);
    } else {
      assert (p + q)[1..] == p[1..] + q;
      JoinedSelectsBelow(Children(v, p[0]), p[1..], q);
    }
  }

  lemma {:induction false} JoinedSelectsBelow(vs: seq<JsonValue>, p: seq<Step>, q: seq<Step>)
    ensures SelectedBelow(vs, p + q) == SelectedBelow(SelectedBelow(vs, p), q)
    decreases |p|, 1, |vs|
  {
    if vs != [] {
      JoinedSelects(vs[0], p, q);
      JoinedSelectsBelow(vs[1..], p, q);
      SelectedBelowBoth(Selected(vs[0], p), SelectedBelow(vs[1..], p), q);
    }
  }

  /** Without a wildcard a path selects at most one value. */
  lemma {:induction false} AtMostOne(v: JsonValue, steps: seq<Step>)
    requires WildcardStep !in steps
    ensures |Selected(v, steps)| <= 1
    decreases |steps|
  {
    if steps != [] {
      var children := Children(v, steps[0]);
      assert |children| <= 1;
      if children != [] {
        AtMostOne(children[0], steps[1..]);
        assert SelectedBelow(children, steps[1..]) == Selected(children[0], steps[1..]);
      }
    }
  }

  lemma {:induction false} SelectedHere(vs: seq<JsonValue>)
    ensures SelectedBelow(vs, []) == vs
  {
    if vs != [] {
      SelectedHere(vs[1..]);
      assert [vs[0]] + vs[1..] == vs;
    }
  }

  /** The children of each value, in order. */
  method NextLevel(current: seq<JsonValue>, step: Step) returns (next: seq<JsonValue>)
    ensures next == SelectedBelow(current, [step])
  {
    next := [];
    for k := 0 to |current|
      invariant next == SelectedBelow(current[..k], [step])
    {
      var v := current[k];
      LevelStep(current, k, step);
      match step
      case FieldStep(name) =>
        var child := FindField(v, name);
        if child.Some? { next := next + [child.value]; }
      case IndexStep(index) =>
        if v.Array? && index < |v.items| { next := next + [v.items[index]]; }
      case WildcardStep =>
        if v.Array? { next := next + v.items; }
    }
    assert current[..|current|] == current;
  }

  lemma {:induction false} LevelStep(current: seq<JsonValue>, k: nat, step: Step)
    requires k < |current|
    ensures SelectedBelow(current[..k + 1], [step]) == SelectedBelow(current[..k], [step]) + Children(current[k], step)
  {
    assert current[..k + 1] == current[..k] + [current[k]];
    SelectedBelowBoth(current[..k], [current[k]], [step]);
    var one := [current[k]];
    assert one[1..] == [] && [step][1..] == [];
    SelectedHere(Children(current[k], step));
    assert SelectedBelow(one, [step]) == Children(current[k], step) + SelectedBelow([], [step]);
  }

  /** Evaluation level by level, stopping at an empty level, gives what the path selects. */
  method EvaluateJsonPath(root: JsonValue, steps: seq<Step>) returns (current: seq<JsonValue>)
    ensures current == Selected(root, steps)
  {
    current := [root];
    for k := 0 to |steps|
      invariant current == Selected(root, steps[..k])
    {
      assert steps[..k + 1] == steps[..k] + [steps[k]];
      JoinedSelects(root, steps[..k], [steps[k]]);
      current := NextLevel(current, steps[k]);
      if current == [] {
        assert steps == steps[..k + 1] + steps[k + 1..];
        JoinedSelects(root, steps[..k + 1], steps[k + 1..]);
        return;
      }
    }
    assert steps[..|steps|] == steps;
  }

  predicate EndsInWildcard(steps: seq<Step>) {
    steps != [] && steps[|steps| - 1].WildcardStep?
  }

  const NOT_ROWS := "rows path must select an array or wildcard over an array"

  /** The rows are what the path selects with a wildcard at its end; a path without one there must select a single
      array or nothing. */
  method EvaluateRowsPath(root: JsonValue, steps: seq<Step>) returns (r: Result<seq<JsonValue>>)
    ensures r.Err? <==> var matches := Selected(root, steps);
              matches != [] && !EndsInWildcard(steps) && !(|matches| == 1 && matches[0].Array?)
    ensures r.Ok? ==> r.value == Selected(root, if EndsInWildcard(steps) then steps else steps + [WildcardStep])
    ensures r.Err? ==> r.message == NOT_ROWS
  {
    var matches := EvaluateJsonPath(root, steps);
    JoinedSelects(root, steps, [WildcardStep]);
    if matches == [] { return Ok([]); }
    if EndsInWildcard(steps) { return Ok(matches); }
    if |matches| != 1 || !matches[0].Array? { return Err(NOT_ROWS); }
    var rows := [];
    var items := matches[0].items;
    for k := 0 to |items|
      invariant rows == items[..k]
    {
      rows := rows + [items[k]];
    }
    LevelStep(matches, 0, WildcardStep);
    assert matches[..1] == matches;
    r := Ok(rows);
  }
}
