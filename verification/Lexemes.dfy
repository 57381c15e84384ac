/** Command text made of blank-separated words, as a shell script assembles it, and the steps it is read as. */
module Lexemes {
  import opened Text
  import opened Datasets
  import opened CommandParse
  import opened CommandRoundTrip

  // ----- Text made of blank-separated words -----

  /** What may follow a blank: nothing, a pipe, or a word (a quoted part, then a plain part). */
  datatype Lexeme = Blank | Bar | Word(quoted: string, plain: string)

  function Body(x: Lexeme): (text: string) {
    match x
    case Blank => ""
    case Bar => PIPE
    case Word(quoted, plain) => (if quoted == "" then "" else QuoteWord(quoted)) + plain
  }

  function Render(xs: seq<Lexeme>): (text: string) {
    if xs == [] then "" else " " + Body(xs[0]) + Render(xs[1..])
  }

  function TokenOf(x: Lexeme): (tokens: seq<string>) {
    match x
    case Blank => []
    case Bar => [PIPE]
    case Word(quoted, plain) => [if quoted == "" then plain else quoted + plain]
  }

  function TokensOf(xs: seq<Lexeme>): (tokens: seq<string>) {
    if xs == [] then [] else TokenOf(xs[0]) + TokensOf(xs[1..])
  }

  predicate GoodLexeme(x: Lexeme) {
    x.Word? ==> x.quoted + x.plain != "" && SpeakableText(x.quoted) && PlainText(x.plain)
  }

  predicate GoodLexemes(xs: seq<Lexeme>) {
    forall x :: x in xs ==> GoodLexeme(x)
  }

  lemma {:induction false} RenderConcat(a: seq<Lexeme>, b: seq<Lexeme>)
    ensures Render(a + b) == Render(a) + Render(b)
    ensures TokensOf(a + b) == TokensOf(a) + TokensOf(b)
  {
    hide Body, TokenOf;
    if a == [] {
      assert a + b == b;
    } else {
      assert (a + b)[0] == a[0] && (a + b)[1..] == a[1..] + b;
      RenderConcat(a[1..], b);
      assert " " + Body(a[0]) + (Render(a[1..]) + Render(b)) == " " + Body(a[0]) + Render(a[1..]) + Render(b);
    }
  }

  lemma RenderOne(x: Lexeme)
    ensures Render([x]) == " " + Body(x) && TokensOf([x]) == TokenOf(x)
  {
    assert [x][1..] == [];
    assert TokenOf(x) + [] == TokenOf(x);
  }

  lemma RenderCons(x: Lexeme, xs: seq<Lexeme>)
    ensures Render([x] + xs) == " " + Body(x) + Render(xs)
    ensures TokensOf([x] + xs) == TokenOf(x) + TokensOf(xs)
  {
    hide Body, TokenOf;
    assert ([x] + xs)[1..] == xs;
  }

  lemma ScanBody(s: Scanner, x: Lexeme) returns (t: Scanner)
    requires s.quote.None? && s.current == "" && GoodLexeme(x)
    ensures ScanAll(s, Body(x)) == Ok(t) && t.quote.None?
    ensures t.Flush() == Scanner(s.tokens + TokenOf(x), "", None)
  {
    match x {
      case Blank =>
        t := s;
        assert s.tokens + [] == s.tokens;
      case Bar =>
        ScanOne(s, '|');
        t := s.(tokens := s.tokens + [PIPE]);
        assert Body(Bar) == ['|'];
      case Word(quoted, plain) =>
        t := s.(current := quoted + plain);
        if quoted == "" {
          ScanPlain(s, plain);
          assert "" + plain == plain && s.current + plain == plain;
        } else {
          var u := s.(current := quoted);
          ScanQuoted(s, quoted);
          assert s.current + quoted == quoted;
          ScanPlain(u, plain);
          ScanThen(s, QuoteWord(quoted), u, plain, t);
        }
    }
  }

  lemma Reassociate(a: seq<string>, b: seq<string>, c: seq<string>)
    ensures a + b + c == a + (b + c)
  {
  }

  lemma ScanBlankBody(s: Scanner, before: seq<string>, x: Lexeme) returns (t: Scanner)
    requires s.quote.None? && s.Flush() == Scanner(before, "", None) && GoodLexeme(x)
    ensures ScanAll(s, " " + Body(x)) == Ok(t) && t.quote.None?
    ensures t.Flush() == Scanner(before + TokenOf(x), "", None)
  {
    ScanSpace(s, ' ');
    t := ScanBody(Scanner(before, "", None), x);
    ScanThen(s, " ", Scanner(before, "", None), Body(x), t);
  }

  lemma {:induction false} ScanLexemes(s: Scanner, before: seq<string>, xs: seq<Lexeme>) returns (t: Scanner)
    requires s.quote.None? && s.Flush() == Scanner(before, "", None) && GoodLexemes(xs)
    ensures ScanAll(s, Render(xs)) == Ok(t) && t.quote.None?
    ensures t.Flush() == Scanner(before + TokensOf(xs), "", None)
    decreases |xs|
  {
    hide Body, TokenOf, GoodLexeme, Scanner.Flush;
    if xs == [] {
      t := s;
      assert before + [] == before;
    } else {
      assert xs[0] in xs;
      var a := ScanBlankBody(s, before, xs[0]);
      t := ScanLexemes(a, before + TokenOf(xs[0]), xs[1..]);
      ScanThen(s, " " + Body(xs[0]), a, Render(xs[1..]), t);
      Reassociate(before, TokenOf(xs[0]), TokensOf(xs[1..]));
    }
  }

  // ----- Trimming does not change the tokens -----

  predicate AllSpace(w: string) {
    forall i :: 0 <= i < |w| ==> IsSpace(w[i])
  }

  lemma {:induction false} TrimLeftSplits(s: string) returns (blank: string)
    ensures AllSpace(blank) && s == blank + TrimLeft(s)
  {
    if s != "" && IsSpace(s[0]) {
      var rest := TrimLeftSplits(s[1..]);
      blank := [s[0]] + rest;
    } else {
      blank := "";
    }
  }

  lemma {:induction false} TrimRightSplits(s: string) returns (blank: string)
    ensures AllSpace(blank) && s == TrimRight(s) + blank
  {
    if s != "" && IsSpace(s[|s| - 1]) {
      var rest := TrimRightSplits(s[..|s| - 1]);
      blank := rest + [s[|s| - 1]];
      assert s == s[..|s| - 1] + [s[|s| - 1]];
    } else {
      blank := "";
    }
  }

  /** Blanks outside quotes only end a token; inside quotes they never close it. */
  lemma {:induction false} ScanBlank(s: Scanner, blank: string)
    requires AllSpace(blank) && ScanAll(s, blank).Ok?
    ensures s.quote.None? ==> ScanAll(s, blank).value == s || ScanAll(s, blank).value == s.Flush()
    ensures s.quote.Some? && !IsSpace(s.quote.value) ==> ScanAll(s, blank).value.quote == s.quote
    decreases |blank|
  {
    if blank != "" {
      ScanBlank(ScanChar(s, blank[0]).value, blank[1..]);
    }
  }

  lemma {:induction false} QuoteIsQuote(s: Scanner, raw: string)
    requires s.quote.Some? ==> !IsSpace(s.quote.value)
    requires ScanAll(s, raw).Ok?
    ensures ScanAll(s, raw).value.quote.Some? ==> !IsSpace(ScanAll(s, raw).value.quote.value)
    decreases |raw|
  {
    if raw != "" {
      QuoteIsQuote(ScanChar(s, raw[0]).value, raw[1..]);
    }
  }

  /** A text that scans cleanly is tokenized as scanned, whatever blanks surround it. */
  lemma TokenizeScanned(text: string, t: Scanner)
    requires ScanAll(START, text) == Ok(t) && t.quote.None? && TrimSpace(text) != ""
    requires forall w :: w in t.Flush().tokens ==> TokenWord(w)
    ensures Tokenize(text) == Ok(t.Flush().tokens)
  {
    var left := TrimLeftSplits(text);
    var right := TrimRightSplits(TrimLeft(text));
    var core := TrimSpace(text);
    assert text == left + (core + right);
    ScanConcat(START, left, core + right);
    ScanBlank(START, left);
    assert START.Flush() == START;
    ScanConcat(START, core, right);
    var u := ScanAll(START, core).value;
    QuoteIsQuote(START, core);
    ScanBlank(u, right);
    TokenWordsPass(t.Flush().tokens);
  }

  /** Text made of lexemes that spell the tokens of `steps` is read as `steps`. */
  lemma RenderedCommandParses(text: string, xs: seq<Lexeme>, steps: seq<Step>)
    requires text == Render(xs) && GoodLexemes(xs) && TrimSpace(text) != ""
    requires WellFormedSteps(steps) && TokensOf(xs) == StepsTokens(steps)
    ensures ParseCommand(text) == Ok(steps)
    ensures ParseCommand(TrimSpace(text)) == Ok(steps)
  {
    var t := ScanLexemes(START, [], xs);
    assert [] + TokensOf(xs) == TokensOf(xs);
    ParseStepsTokens(steps);
    TokenizeScanned(text, t);
    TrimSpaceIdempotent(text);
  }

  // ----- Words that datasets and snapshots contribute -----

  lemma Forbidden(c: char, dataset: string)
    requires c in FORBIDDEN && ValidDatasetName(dataset)
    ensures c !in dataset
  {
  }

  lemma ForbiddenCharacters(dataset: string)
    requires ValidDatasetName(dataset)
    ensures '\r' !in dataset && '\n' !in dataset && ';' !in dataset && '|' !in dataset
    ensures '&' !in dataset && '`' !in dataset && '$' !in dataset && '>' !in dataset
  {
    hide ValidDatasetName;
    assert FORBIDDEN[4] == '\r' && FORBIDDEN[5] == '\n' && FORBIDDEN[6] == ';' && FORBIDDEN[7] == '|';
    assert FORBIDDEN[8] == '&' && FORBIDDEN[9] == '`' && FORBIDDEN[10] == '$' && FORBIDDEN[14] == '>';
    Forbidden('\r', dataset);
    Forbidden('\n', dataset);
    Forbidden(';', dataset);
    Forbidden('|', dataset);
    Forbidden('&', dataset);
    Forbidden('`', dataset);
    Forbidden('$', dataset);
    Forbidden('>', dataset);
  }

  predicate Clean(w: string) {
    SpeakableText(w) && '|' !in w && '&' !in w && '>' !in w
  }

  lemma CleanConcat(a: string, b: string)
    requires Clean(a) && Clean(b)
    ensures Clean(a + b)
  {
  }

  /** A word without operator characters is an argument word. */
  lemma CleanWord(w: string)
    requires w != "" && Clean(w)
    ensures ArgumentWord(w)
  {
    assert STDOUT_NULL[0] == '>' && STDERR_NULL[1] == '>' && STDERR_TO_STDOUT[1] == '>';
    assert PIPE[0] == '|';
    assert "||"[0] == '|' && "&&"[0] == '&';
  }

  lemma DatasetIsArgumentWord(dataset: string)
    requires ValidDatasetName(dataset)
    ensures ArgumentWord(dataset) && Clean(dataset) && ';' !in dataset && dataset != ""
  {
    ForbiddenCharacters(dataset);
    assert dataset != "";
    hide ValidDatasetName;
    CleanWord(dataset);
  }

  // ----- No separators -----

  lemma {:induction false} EscapedCharacters(w: string, c: char)
    requires c !in w && c != '\'' && c != '"'
    ensures c !in Escape(w)
  {
    if w != "" {
      EscapedCharacters(w[1..], c);
    }
  }

  lemma BodyCharacters(x: Lexeme)
    requires GoodLexeme(x) && (x.Word? ==> ';' !in x.quoted)
    ensures ';' !in Body(x)
  {
    if x.Word? {
      EscapedCharacters(x.quoted, ';');
      assert RefusedOutsideQuotes(';');
    }
  }

  lemma {:induction false} RenderedCharacters(xs: seq<Lexeme>)
    requires GoodLexemes(xs) && forall x :: x in xs && x.Word? ==> ';' !in x.quoted
    ensures ';' !in Render(xs)
  {
    if xs != [] {
      hide Body, GoodLexeme;
      assert xs[0] in xs;
      BodyCharacters(xs[0]);
      RenderedCharacters(xs[1..]);
    }
  }

  lemma BlankText(text: string)
    requires TrimSpace(text) == ""
    ensures AllSpace(text)
  {
    var left := TrimLeftSplits(text);
    var right := TrimRightSplits(TrimLeft(text));
    assert text == left + right;
  }

  lemma EndsVisibly(text: string)
    requires text != "" && !IsSpace(text[|text| - 1])
    ensures TrimSpace(text) != ""
  {
    if TrimSpace(text) == "" {
      BlankText(text);
    }
  }

  lemma StepsTokensCons(step: Step, rest: seq<Step>)
    requires rest != []
    ensures StepsTokens([step] + rest) == StepTokens(step) + [PIPE] + StepsTokens(rest)
  {
    assert ([step] + rest)[1..] == rest;
  }

  // ----- Tidy words, and text safe to send -----

  predicate TidyWord(w: string) {
    w != "" && forall i :: 0 <= i < |w| ==>
      'a' <= w[i] <= 'z' || 'A' <= w[i] <= 'Z' || '0' <= w[i] <= '9' || w[i] == '-'
  }

  lemma Tidy(w: string)
    requires TidyWord(w)
    ensures GoodLexeme(Word("", w)) && ArgumentWord(w) && PlainWord(w)
  {
    CleanWord(w);
  }

  lemma BarsAndBlanks()
    ensures GoodLexeme(Bar) && GoodLexeme(Blank)
  {
  }

  lemma TidyLexemes(xs: seq<Lexeme>)
    requires forall x :: x in xs && x.Word? ==> x.quoted == "" && TidyWord(x.plain)
    ensures GoodLexemes(xs)
  {
    hide GoodLexeme, TidyWord;
    forall x | x in xs ensures GoodLexeme(x) {
      BarsAndBlanks();
      if x.Word? {
        Tidy(x.plain);
      }
    }
  }

  lemma TidyStep(step: Step)
    requires TidyWord(step.name) && forall a :: a in step.args ==> TidyWord(a)
    ensures WellFormedStep(step)
  {
    hide TidyWord, ArgumentWord;
    Tidy(step.name);
    forall a | a in step.args ensures ArgumentWord(a) {
      Tidy(a);
    }
  }

  lemma TidyWords(words: seq<string>)
    requires forall a :: a in words ==> TidyWord(a)
    ensures forall a :: a in words ==> ArgumentWord(a)
  {
    hide TidyWord, ArgumentWord;
    forall a | a in words ensures ArgumentWord(a) {
      Tidy(a);
    }
  }

  /** Lexemes that may be rendered, none of which hides a separator in its quotes. */
  predicate Safe(xs: seq<Lexeme>) {
    GoodLexemes(xs) && forall x :: x in xs && x.Word? ==> ';' !in x.quoted
  }

  lemma SafeThree(a: seq<Lexeme>, b: seq<Lexeme>, c: seq<Lexeme>)
    requires Safe(a) && Safe(b) && Safe(c)
    ensures Safe(a + b + c)
  {
    hide GoodLexeme;
    forall x | x in a + b + c ensures GoodLexeme(x) && (x.Word? ==> ';' !in x.quoted) {
      assert x in a || x in b || x in c;
    }
  }

  lemma TidySafe(xs: seq<Lexeme>)
    requires forall x :: x in xs && x.Word? ==> x.quoted == "" && TidyWord(x.plain)
    ensures Safe(xs)
  {
    hide TidyWord, GoodLexeme;
    TidyLexemes(xs);
  }

  lemma SafeCommandParses(text: string, xs: seq<Lexeme>, steps: seq<Step>)
    requires text == Render(xs) && Safe(xs) && text != "" && !IsSpace(text[|text| - 1])
    requires WellFormedSteps(steps) && TokensOf(xs) == StepsTokens(steps)
    ensures ParseCommand(TrimSpace(text)) == Ok(steps) && ';' !in text
  {
    EndsVisibly(text);
    RenderedCommandParses(text, xs, steps);
    RenderedCharacters(xs);
  }

  lemma StepOfWords(step: Step, head: string, flags: seq<string>, target: string)
    requires ArgumentWord(step.name) && ArgumentWord(head) && ArgumentWord(target)
    requires (forall a :: a in flags ==> ArgumentWord(a)) && step.args == [head] + flags + [target]
    ensures WellFormedStep(step)
  {
    hide ArgumentWord;
    forall a | a in step.args ensures ArgumentWord(a) {
      assert a == head || a in flags || a == target;
    }
  }
}
