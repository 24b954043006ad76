/** Quoted names of a path by code points: whichever way each character is spelled, the step has the name they make. */
module PathSpellings {
  import opened Decimals
  import opened JsonPath
  import opened JsonReader

  /** A character of a name as it is, or by its letter after a backslash. */
  datatype Spelled = Spelled(codepoint: nat, escaped: bool)

  predicate HasLetter(codepoint: nat) {
    codepoint in {0x09, 0x0A, 0x0D, 0x22, 0x27, 0x2F, 0x5C}
  }

  predicate SpelledOk(quote: char, x: Spelled) {
    && x.codepoint <= 0xFF
    && if x.escaped then HasLetter(x.codepoint) else x.codepoint != quote as nat && x.codepoint != 0x5C
  }

  predicate NameOk(quote: char, xs: seq<Spelled>) {
    forall i :: 0 <= i < |xs| ==> SpelledOk(quote, xs[i])
  }

  function LetterOf(codepoint: nat): char
    requires codepoint <= 0xFF
  {
    if codepoint == 0x09 then 't'
    else if codepoint == 0x0A then 'n'
    else if codepoint == 0x0D then 'r'
    else codepoint as char
  }

  function CharacterText(x: Spelled): string
    requires x.codepoint <= 0xFF
  {
    if x.escaped then ['\\', LetterOf(x.codepoint)] else [x.codepoint as char]
  }

  function NameText(quote: char, xs: seq<Spelled>): string
    requires NameOk(quote, xs)
  {
    if xs == [] then "" else CharacterText(xs[0]) + NameText(quote, xs[1..])
  }

  function Name(quote: char, xs: seq<Spelled>): string
    requires NameOk(quote, xs)
  {
    if xs == [] then "" else [xs[0].codepoint as char] + Name(quote, xs[1..])
  }

  function LetterFor(x: Spelled): Letter
    requires x.codepoint <= 0xFF
  {
    if x.escaped then Escape(LetterOf(x.codepoint)) else Plain(x.codepoint as char)
  }

  lemma {:induction false} LetterMeans(quote: char, x: Spelled)
    requires IsQuote(quote) && SpelledOk(quote, x)
    ensures LetterOk(quote, LetterFor(x)) && LetterValue(LetterFor(x)) == x.codepoint as char
  {
    if x.escaped {
      assert x.codepoint as char == '\t' || x.codepoint as char == '\n' || x.codepoint as char == '\r'
             || LetterOf(x.codepoint) == x.codepoint as char;
      assert LetterOf(x.codepoint) in "\\\"'/nrt";
    }
  }

  lemma {:induction false} LettersFor(quote: char, xs: seq<Spelled>, rest: string) returns (letters: seq<Letter>)
    requires IsQuote(quote) && NameOk(quote, xs)
    ensures LettersOk(quote, letters) && LettersValue(letters) == Name(quote, xs)
    ensures LettersText(quote, letters, rest) == NameText(quote, xs) + ([quote, ']'] + rest)
  {
    letters := [];
    if xs == [] {
      assert "" + ([quote, ']'] + rest) == [quote, ']'] + rest;
    } else {
      var more := LettersFor(quote, xs[1..], rest);
      LetterMeans(quote, xs[0]);
      letters := [LetterFor(xs[0])] + more;
      assert letters[1..] == more;
      assert LetterText(LetterFor(xs[0])) + (NameText(quote, xs[1..]) + ([quote, ']'] + rest))
          == LetterText(LetterFor(xs[0])) + NameText(quote, xs[1..]) + ([quote, ']'] + rest);
    }
  }

  /** A quoted name, however it is spelled, is read as the step of that name, and nothing else. */
  lemma {:induction false} QuotedNameMeans(quote: char, xs: seq<Spelled>, others: seq<Step>)
    requires IsQuote(quote) && NameOk(quote, xs)
    ensures PathMeans("$" + (['[', quote] + (NameText(quote, xs) + [quote, ']'])), others)
            <==> others == [FieldStep(Name(quote, xs))]
  {
    var letters := LettersFor(quote, xs, "");
    var y := Quoted(quote, letters);
    assert [quote, ']'] + "" == [quote, ']'];
    assert [y][1..] == [];
    var text := "$" + (['[', quote] + (NameText(quote, xs) + [quote, ']']));
    assert text == "$" + StepsText([y]) && text[1..] == StepsText([y]);
    StepsRead([y]);
    assert StepValues([y]) == [StepValue(y)] + StepValues([]);
    ReadMeansPath(text, others);
  }

  /** A backslash before any other character is refused. */
  lemma {:induction false} OtherEscapesFail(quote: char, xs: seq<Spelled>, c: char, rest: string, steps: seq<Step>)
    requires IsQuote(quote) && NameOk(quote, xs)
    requires c !in {'t', 'n', 'r', '"', '\'', '/', '\\'}
    ensures !PathMeans("$" + (['[', quote] + (NameText(quote, xs) + (['\\', c] + rest))), steps)
  {
    var tail := NameText(quote, xs) + (['\\', c] + rest);
    var text := "$" + (['[', quote] + tail);
    BadLettersFail(quote, xs, c, rest);
    assert text[1..] == ['[', quote] + tail && (['[', quote] + tail)[1..] == [quote] + tail;
    assert ([quote] + tail)[1..] == tail;
    ReadMeansPath(text, steps);
  }

  lemma {:induction false} CharacterRead(quote: char, x: Spelled, more: string)
    requires IsQuote(quote) && SpelledOk(quote, x)
    ensures var s := CharacterText(x) + more; s[0] != quote && ReadLetter(quote, s) == Parsed(LetterFor(x), more)
  {
    LetterMeans(quote, x);
    LetterRead(quote, LetterFor(x), more);
  }

  lemma {:induction false} BadLettersFail(quote: char, xs: seq<Spelled>, c: char, rest: string)
    requires IsQuote(quote) && NameOk(quote, xs)
    requires c !in {'t', 'n', 'r', '"', '\'', '/', '\\'}
    ensures ReadLetters(quote, NameText(quote, xs) + (['\\', c] + rest)) == Fail
  {
    var tail := ['\\', c] + rest;
    if xs == [] {
      assert "" + tail == tail;
      assert !IsLetterEscape(c);
    } else {
      BadLettersFail(quote, xs[1..], c, rest);
      var more := NameText(quote, xs[1..]) + tail;
      assert NameText(quote, xs) + tail == CharacterText(xs[0]) + more;
      CharacterRead(quote, xs[0], more);
    }
  }

  /** An index is read as its number, which wraps around at 2 to the 64th. */
  lemma {:induction false} IndexMeans(n: nat, others: seq<Step>)
    ensures PathMeans("$[" + (Decimal(n) + "]"), others) <==> others == [IndexStep(n % 0x1_0000_0000_0000_0000)]
  {
    var steps := [IndexStep(n)];
    assert steps[1..] == [] && Wrapped(steps) == [IndexStep(n % SIZE)] + Wrapped([]);
    assert PrintedSteps(steps) == [Indexed(Decimal(n))] + PrintedSteps([]);
    var ys := PrintedSteps(steps);
    assert ys[1..] == [] && StepsText(ys) == "[" + (Decimal(n) + ("]" + ""));
    assert "$" + ("[" + (Decimal(n) + ("]" + ""))) == "$[" + (Decimal(n) + "]");
    PrintedPathMeans(steps, others);
  }
}
