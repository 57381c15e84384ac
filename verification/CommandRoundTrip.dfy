/** Writing a pipeline out and reading it back: exactly which steps a command line can spell. */
module CommandRoundTrip {
  import opened Text
  import opened CommandParse

  // ----- Which words can occur -----

  predicate Speakable(c: char) {
    c != '\n' && c != '\r' && c != '`' && c != '$'
  }

  /** A token some command line produces. */
  predicate TokenWord(w: string) {
    w != "" && (forall i :: 0 <= i < |w| ==> Speakable(w[i])) && TokenError(w).None?
  }

  /** A token that can be a command name or argument: pipes and redirects are always operators, quoted or not. */
  predicate ArgumentWord(w: string) {
    && w != "" && w != "|" && w != "||"
    && forall i :: 0 <= i < |w| ==> Speakable(w[i]) && w[i] != '&' && w[i] != '>'
  }

  lemma ArgumentWordIff(w: string)
    ensures ArgumentWord(w) <==> TokenWord(w) && w != PIPE && !RedirectWord(w)
  {
    assert STDOUT_NULL[0] == '>' && STDERR_NULL[1] == '>' && STDERR_TO_STDOUT[2] == '&' && "&&"[0] == '&';
  }

  predicate WellFormedStep(step: Step) {
    ArgumentWord(step.name) && forall a :: a in step.args ==> ArgumentWord(a)
  }

  predicate WellFormedSteps(steps: seq<Step>) {
    steps != [] && forall step :: step in steps ==> WellFormedStep(step)
  }

  // ----- Writing a pipeline out -----

  /** A word inside single quotes, each single quote written as '"'"'. */
  function Escape(w: string): (e: string) {
    if w == "" then "" else (if w[0] == '\'' then "'\"'\"'" else [w[0]]) + Escape(w[1..])
  }

  function QuoteWord(w: string): (q: string) {
    "'" + Escape(w) + "'"
  }

  function PrintWords(words: seq<string>): (text: string) {
    if words == [] then "" else " " + QuoteWord(words[0]) + PrintWords(words[1..])
  }

  function PrintRedirect(on: bool, word: string): (text: string) {
    if on then " " + word else ""
  }

  function PrintRedirects(step: Step): (text: string) {
    PrintRedirect(step.stdoutNull, ">/dev/null")
    + PrintRedirect(step.stderrNull, "2>/dev/null")
    + PrintRedirect(step.stderrToStdout, "2>&1")
  }

  function PrintStep(step: Step): (text: string) {
    QuoteWord(step.name) + PrintWords(step.args) + PrintRedirects(step)
  }

  function PrintSteps(steps: seq<Step>): (text: string)
    requires steps != []
  {
    if |steps| == 1 then PrintStep(steps[0]) else PrintStep(steps[0]) + " | " + PrintSteps(steps[1..])
  }

  // ----- The tokens a pipeline stands for -----

  function RedirectToken(on: bool, word: string): (tokens: seq<string>) {
    if on then [word] else []
  }

  function RedirectTokens(step: Step): (tokens: seq<string>) {
    RedirectToken(step.stdoutNull, STDOUT_NULL)
    + RedirectToken(step.stderrNull, STDERR_NULL)
    + RedirectToken(step.stderrToStdout, STDERR_TO_STDOUT)
  }

  function StepTokens(step: Step): (tokens: seq<string>) {
    [step.name] + step.args + RedirectTokens(step)
  }

  function StepsTokens(steps: seq<Step>): (tokens: seq<string>)
    requires steps != []
  {
    if |steps| == 1 then StepTokens(steps[0]) else StepTokens(steps[0]) + [PIPE] + StepsTokens(steps[1..])
  }

  // ----- Scanning printed text -----

  lemma {:induction false} ScanConcat(s: Scanner, a: string, b: string)
    ensures ScanAll(s, a + b) == match ScanAll(s, a) case Err(e) => Err(e) case Ok(t) => ScanAll(t, b)
    decreases |a|
  {
    if a == "" {
      assert a + b == b;
    } else {
      assert (a + b)[0] == a[0] && (a + b)[1..] == a[1..] + b;
      match ScanChar(s, a[0])
      case Err(_) =>
      case Ok(t) => ScanConcat(t, a[1..], b);
    }
  }

  lemma ScanOne(s: Scanner, c: char)
    ensures ScanAll(s, [c]) == ScanChar(s, c)
  {
    assert [c][1..] == "";
  }

  /** Two pieces in a row, when the first scans without error. */
  lemma ScanThen(s: Scanner, a: string, t: Scanner, b: string, u: Scanner)
    requires ScanAll(s, a) == Ok(t) && ScanAll(t, b) == Ok(u)
    ensures ScanAll(s, a + b) == Ok(u)
  {
    ScanConcat(s, a, b);
  }

  lemma ScanThree(s: Scanner, a: string, t: Scanner, b: string, u: Scanner, c: string, v: Scanner)
    requires ScanAll(s, a) == Ok(t) && ScanAll(t, b) == Ok(u) && ScanAll(u, c) == Ok(v)
    ensures ScanAll(s, a + b + c) == Ok(v)
  {
    ScanThen(s, a, t, b, u);
    ScanThen(s, a + b, u, c, v);
  }

  /** Unquoted text without spaces or operators is appended to the current token. */
  predicate Plain(c: char) {
    && !IsSpace(c) && c != '\'' && c != '"' && c != '|'
    && c != '`' && c != '$' && c != ';' && c != '(' && c != ')' && c != '<'
  }

  predicate PlainText(w: string) {
    forall i :: 0 <= i < |w| ==> Plain(w[i])
  }

  predicate PlainWord(w: string) {
    w != "" && PlainText(w)
  }

  lemma {:induction false} ScanPlain(s: Scanner, w: string)
    requires s.quote.None? && PlainText(w)
    ensures ScanAll(s, w) == Ok(s.(current := s.current + w))
    decreases |w|
  {
    if w == "" {
      assert s.current + w == s.current;
    } else {
      var t := s.(current := s.current + [w[0]]);
      assert ScanChar(s, w[0]) == Ok(t);
      ScanPlain(t, w[1..]);
      assert s.current + [w[0]] + w[1..] == s.current + w;
    }
  }

  lemma ScanSpace(s: Scanner, c: char)
    requires s.quote.None? && IsSpace(c)
    ensures ScanAll(s, [c]) == Ok(s.Flush())
  {
    ScanOne(s, c);
  }

  lemma ScanSwitch(s: Scanner, w: string, rest: string)
    requires s.quote == Some('\'')
    requires ScanAll(s.(current := s.current + "'"), rest) == Ok(s.(current := s.current + "'" + w, quote := None))
    ensures ScanAll(s, "'\"'\"'" + rest) == Ok(s.(current := s.current + "'" + w, quote := None))
  {
    var closed := s.(quote := None);
    var inDouble := s.(quote := Some('"'));
    var taken := s.(current := s.current + "'", quote := Some('"'));
    ScanOne(s, '\'');
    ScanOne(closed, '"');
    ScanOne(inDouble, '\'');
    ScanOne(taken, '"');
    ScanOne(taken.(quote := None), '\'');
    ScanThen(s, "'", closed, "\"", inDouble);
    assert "'" + "\"" == "'\"";
    ScanThen(s, "'\"", inDouble, "'", taken);
    assert "'\"" + "'" == "'\"'";
    ScanThen(s, "'\"'", taken, "\"", taken.(quote := None));
    assert "'\"'" + "\"" == "'\"'\"";
    ScanThen(s, "'\"'\"", taken.(quote := None), "'", taken.(quote := Some('\'')));
    assert "'\"'\"" + "'" == "'\"'\"'";
    ScanThen(s, "'\"'\"'", taken.(quote := Some('\'')), rest, s.(current := s.current + "'" + w, quote := None));
  }

  lemma {:induction false} ScanEscaped(s: Scanner, w: string)
    requires s.quote == Some('\'') && forall i :: 0 <= i < |w| ==> Speakable(w[i])
    ensures ScanAll(s, Escape(w) + "'") == Ok(s.(current := s.current + w, quote := None))
    decreases |w|
  {
    if w == "" {
      ScanOne(s, '\'');
      assert Escape(w) + "'" == "'";
      assert s.current + w == s.current;
    } else {
      var t := s.(current := s.current + [w[0]]);
      ScanEscaped(t, w[1..]);
      assert t.current + w[1..] == s.current + w;
      var rest := Escape(w[1..]) + "'";
      if w[0] == '\'' {
        assert [w[0]] == "'";
        assert s.current + "'" + w[1..] == s.current + w;
        ScanSwitch(s, w[1..], rest);
        assert Escape(w) + "'" == "'\"'\"'" + rest;
      } else {
        ScanOne(s, w[0]);
        ScanThen(s, [w[0]], t, rest, s.(current := s.current + w, quote := None));
        assert Escape(w) + "'" == [w[0]] + rest;
      }
    }
  }

  /** A quoted word extends the current token by exactly that word. */
  lemma ScanQuoted(s: Scanner, w: string)
    requires s.quote.None? && forall i :: 0 <= i < |w| ==> Speakable(w[i])
    ensures ScanAll(s, QuoteWord(w)) == Ok(s.(current := s.current + w))
  {
    var open := s.(quote := Some('\''));
    ScanOne(s, '\'');
    ScanEscaped(open, w);
    ScanThen(s, "'", open, Escape(w) + "'", s.(current := s.current + w));
    assert "'" + (Escape(w) + "'") == QuoteWord(w);
  }

  lemma ScanSpacedWord(s: Scanner, w: string)
    requires s.quote.None? && forall i :: 0 <= i < |w| ==> Speakable(w[i])
    ensures ScanAll(s, " " + QuoteWord(w)) == Ok(Scanner(s.Flush().tokens, w, None))
  {
    ScanSpace(s, ' ');
    ScanQuoted(s.Flush(), w);
    assert s.Flush().current + w == w;
    ScanThen(s, " ", s.Flush(), QuoteWord(w), Scanner(s.Flush().tokens, w, None));
  }

  lemma ScanSpacedPlain(s: Scanner, w: string)
    requires s.quote.None? && PlainText(w)
    ensures ScanAll(s, " " + w) == Ok(Scanner(s.Flush().tokens, w, None))
  {
    ScanSpace(s, ' ');
    ScanPlain(s.Flush(), w);
    assert s.Flush().current + w == w;
    ScanThen(s, " ", s.Flush(), w, Scanner(s.Flush().tokens, w, None));
  }

  /** State reached after the tokens `tokens`, the last of them still open. */
  ghost predicate Reached(s: Scanner, tokens: seq<string>) {
    tokens != [] && s == Scanner(tokens[..|tokens| - 1], tokens[|tokens| - 1], None)
    && tokens[|tokens| - 1] != ""
  }

  lemma ReachedFlush(s: Scanner, tokens: seq<string>)
    requires Reached(s, tokens)
    ensures s.Flush() == Scanner(tokens, "", None)
  {
    assert tokens[..|tokens| - 1] + [tokens[|tokens| - 1]] == tokens;
  }

  lemma ReachedNext(tokens: seq<string>, w: string)
    requires w != ""
    ensures Reached(Scanner(tokens, w, None), tokens + [w])
  {
    assert (tokens + [w])[..|tokens|] == tokens;
  }

  lemma ScanWord(s: Scanner, before: seq<string>, w: string) returns (t: Scanner)
    requires Reached(s, before) && TokenWord(w)
    ensures ScanAll(s, " " + QuoteWord(w)) == Ok(t) && Reached(t, before + [w])
  {
    hide ScanAll, QuoteWord, TokenError;
    ReachedFlush(s, before);
    ScanSpacedWord(s, w);
    ReachedNext(before, w);
    t := Scanner(before, w, None);
  }

  lemma HeadMoved(before: seq<string>, words: seq<string>)
    requires words != []
    ensures before + [words[0]] + words[1..] == before + words
  {
  }

  lemma {:induction false} ScanWords(s: Scanner, before: seq<string>, words: seq<string>) returns (t: Scanner)
    requires Reached(s, before) && forall w :: w in words ==> TokenWord(w)
    ensures ScanAll(s, PrintWords(words)) == Ok(t) && Reached(t, before + words)
    decreases |words|
  {
    if words == [] {
      t := s;
      assert before + words == before;
    } else {
      hide ScanAll, QuoteWord, TokenWord, Reached;
      assert words[0] in words;
      var u := ScanWord(s, before, words[0]);
      t := ScanWords(u, before + [words[0]], words[1..]);
      HeadMoved(before, words);
      ScanThen(s, " " + QuoteWord(words[0]), u, PrintWords(words[1..]), t);
    }
  }

  lemma ScanRedirect(s: Scanner, before: seq<string>, on: bool, w: string) returns (t: Scanner)
    requires Reached(s, before) && PlainWord(w)
    ensures ScanAll(s, PrintRedirect(on, w)) == Ok(t)
    ensures Reached(t, before + RedirectToken(on, w))
  {
    if on {
      ReachedFlush(s, before);
      ScanSpacedPlain(s, w);
      ReachedNext(before, w);
      t := Scanner(before, w, None);
    } else {
      t := s;
      assert before + [] == before;
    }
  }

  lemma JoinedThree(before: seq<string>, a: seq<string>, b: seq<string>, c: seq<string>)
    ensures before + a + b + c == before + (a + b + c)
  {
  }

  lemma ScanRedirectRun(s: Scanner, before: seq<string>, a: bool, u: string, b: bool, v: string, c: bool, w: string)
    returns (t: Scanner)
    requires Reached(s, before) && PlainWord(u) && PlainWord(v) && PlainWord(w)
    ensures ScanAll(s, PrintRedirect(a, u) + PrintRedirect(b, v) + PrintRedirect(c, w)) == Ok(t)
    ensures Reached(t, before + (RedirectToken(a, u) + RedirectToken(b, v) + RedirectToken(c, w)))
  {
    var x := ScanRedirect(s, before, a, u);
    var y := ScanRedirect(x, before + RedirectToken(a, u), b, v);
    t := ScanRedirect(y, before + RedirectToken(a, u) + RedirectToken(b, v), c, w);
    ScanThree(s, PrintRedirect(a, u), x, PrintRedirect(b, v), y, PrintRedirect(c, w), t);
    JoinedThree(before, RedirectToken(a, u), RedirectToken(b, v), RedirectToken(c, w));
  }

  lemma RedirectWordsArePlain()
    ensures PlainWord(STDOUT_NULL) && PlainWord(STDERR_NULL) && PlainWord(STDERR_TO_STDOUT)
  {
  }

  lemma ScanRedirects(s: Scanner, before: seq<string>, step: Step) returns (t: Scanner)
    requires Reached(s, before)
    ensures ScanAll(s, PrintRedirects(step)) == Ok(t) && Reached(t, before + RedirectTokens(step))
  {
    RedirectWordsArePlain();
    t := ScanRedirectRun(s, before, step.stdoutNull, STDOUT_NULL,
      step.stderrNull, STDERR_NULL, step.stderrToStdout, STDERR_TO_STDOUT);
  }

  lemma JoinedStep(before: seq<string>, name: string, args: seq<string>, redirects: seq<string>)
    ensures before + [name] + args + redirects == before + ([name] + args + redirects)
  {
  }

  lemma ScanStep(s: Scanner, before: seq<string>, step: Step) returns (t: Scanner)
    requires s == Scanner(before, "", None) && WellFormedStep(step)
    ensures ScanAll(s, PrintStep(step)) == Ok(t) && Reached(t, before + StepTokens(step))
  {
    ScanQuoted(s, step.name);
    assert s.current + step.name == step.name;
    var a := Scanner(before, step.name, None);
    ReachedNext(before, step.name);
    var b := ScanWords(a, before + [step.name], step.args);
    t := ScanRedirects(b, before + [step.name] + step.args, step);
    ScanThree(s, QuoteWord(step.name), a, PrintWords(step.args), b, PrintRedirects(step), t);
    JoinedStep(before, step.name, step.args, RedirectTokens(step));
  }

  lemma ScanBar(s: Scanner, before: seq<string>)
    requires Reached(s, before)
    ensures ScanAll(s, " | ") == Ok(Scanner(before + [PIPE], "", None))
  {
    ReachedFlush(s, before);
    ScanSpace(s, ' ');
    var flushed, barred := Scanner(before, "", None), Scanner(before + [PIPE], "", None);
    ScanOne(flushed, '|');
    ScanSpace(barred, ' ');
    ScanThen(s, " ", flushed, "|", barred);
    assert " " + "|" == " |";
    ScanThen(s, " |", barred, " ", barred);
    assert " |" + " " == " | ";
  }

  lemma JoinedTokens(before: seq<string>, a: seq<string>, sep: string, b: seq<string>)
    ensures before + a + [sep] + b == before + (a + [sep] + b)
  {
  }

  lemma {:induction false} ScanSteps(s: Scanner, before: seq<string>, steps: seq<Step>) returns (t: Scanner)
    requires s == Scanner(before, "", None) && WellFormedSteps(steps)
    ensures ScanAll(s, PrintSteps(steps)) == Ok(t) && Reached(t, before + StepsTokens(steps))
    decreases |steps|
  {
    var a := ScanStep(s, before, steps[0]);
    if |steps| == 1 {
      t := a;
    } else {
      var done := before + StepTokens(steps[0]);
      var b := Scanner(done + [PIPE], "", None);
      ScanBar(a, done);
      t := ScanSteps(b, done + [PIPE], steps[1..]);
      JoinedTokens(before, StepTokens(steps[0]), PIPE, StepsTokens(steps[1..]));
      ScanThree(s, PrintStep(steps[0]), a, " | ", b, PrintSteps(steps[1..]), t);
    }
  }

  // ----- Parsing a pipeline's tokens -----

  lemma {:induction false} ArgumentCountIs(tokens: seq<string>, k: nat)
    requires k <= |tokens| && (forall i :: 0 <= i < k ==> !RedirectWord(tokens[i]))
    requires k < |tokens| ==> RedirectWord(tokens[k])
    ensures ArgumentCount(tokens) == k
  {
  }

  lemma RedirectTokensSay(step: Step)
    ensures forall w :: w in RedirectTokens(step) ==> RedirectWord(w)
    ensures STDOUT_NULL in RedirectTokens(step) <==> step.stdoutNull
    ensures STDERR_NULL in RedirectTokens(step) <==> step.stderrNull
    ensures STDERR_TO_STDOUT in RedirectTokens(step) <==> step.stderrToStdout
  {
    assert STDOUT_NULL[0] == '>' && STDERR_NULL[0] == '2' && |STDERR_NULL| == 11 && |STDERR_TO_STDOUT| == 4;
  }

  lemma NoRedirectAmong(words: seq<string>)
    requires forall i :: 0 <= i < |words| ==> !RedirectWord(words[i])
    ensures STDOUT_NULL !in words && STDERR_NULL !in words && STDERR_TO_STDOUT !in words
  {
    assert RedirectWord(STDOUT_NULL) && RedirectWord(STDERR_NULL) && RedirectWord(STDERR_TO_STDOUT);
  }

  lemma StepWords(step: Step)
    requires WellFormedStep(step)
    ensures forall w :: w in [step.name] + step.args ==> w != PIPE && !RedirectWord(w)
  {
    forall w | w in [step.name] + step.args ensures w != PIPE && !RedirectWord(w) {
      ArgumentWordIff(w);
    }
  }

  lemma PipeIsNoRedirect()
    ensures !RedirectWord(PIPE)
  {
    assert |PIPE| == 1 && |STDOUT_NULL| == 10 && |STDERR_NULL| == 11 && |STDERR_TO_STDOUT| == 4;
  }

  lemma ParseStepTokens(step: Step)
    requires WellFormedStep(step)
    ensures ParseStep(StepTokens(step)) == Ok(step)
    ensures PIPE !in StepTokens(step)
  {
    var tokens, words, redirects := StepTokens(step), [step.name] + step.args, RedirectTokens(step);
    StepWords(step);
    RedirectTokensSay(step);
    NoRedirectAmong(words);
    assert tokens == words + redirects;
    assert forall i :: |words| <= i < |tokens| ==> tokens[i] == redirects[i - |words|];
    ArgumentCountIs(tokens, |words|);
    assert tokens[1..|words|] == step.args;
    PipeIsNoRedirect();
  }

  lemma RedirectWordIsToken(w: string)
    requires RedirectWord(w)
    ensures TokenWord(w)
  {
    if w == STDOUT_NULL {
      assert w[0] == '>' && |w| == 10;
    } else if w == STDERR_NULL {
      assert w[0] == '2' && w[1] == '>' && |w| == 11;
    } else {
      assert w[0] == '2' && |w| == 4;
    }
  }

  lemma StepTokensAreWords(step: Step)
    requires WellFormedStep(step)
    ensures forall w :: w in StepTokens(step) ==> TokenWord(w)
  {
    forall w | w in StepTokens(step) ensures TokenWord(w) {
      if w in RedirectTokens(step) {
        RedirectWordIsToken(w);
      }
    }
  }

  lemma ParseMoreParts(part: seq<string>, parts: seq<seq<string>>, step: Step, steps: seq<Step>)
    requires ParseStep(part) == Ok(step) && ParseParts(parts) == Ok(steps)
    ensures ParseParts([part] + parts) == Ok([step] + steps)
  {
    hide ParseStep;
    assert ([part] + parts)[1..] == parts;
  }

  lemma PipeIsToken()
    ensures TokenWord(PIPE)
  {
  }

  lemma {:induction false} ParseStepsTokens(steps: seq<Step>)
    requires WellFormedSteps(steps)
    ensures ParseSteps(StepsTokens(steps)) == Ok(steps)
    ensures forall w :: w in StepsTokens(steps) ==> TokenWord(w)
  {
    ParseStepTokens(steps[0]);
    SplitWhole(StepTokens(steps[0]), PIPE);
    StepTokensAreWords(steps[0]);
    hide ParseStep, ParseParts, StepTokens, WellFormedStep, TokenWord, Split;
    if |steps| == 1 {
      ParseOnePart(StepTokens(steps[0]));
      assert steps == [steps[0]];
    } else {
      ParseStepsTokens(steps[1..]);
      SplitConcat(StepTokens(steps[0]), StepsTokens(steps[1..]), PIPE);
      ParseMoreParts(StepTokens(steps[0]), Split(StepsTokens(steps[1..]), PIPE), steps[0], steps[1..]);
      assert steps == [steps[0]] + steps[1..];
      PipeIsToken();
    }
  }

  lemma {:induction false} TokenWordsPass(tokens: seq<string>)
    requires forall w :: w in tokens ==> TokenWord(w)
    ensures FirstTokenError(tokens).None?
  {
    if tokens != [] {
      assert tokens[0] in tokens;
      TokenWordsPass(tokens[1..]);
    }
  }

  lemma {:induction false} PrintedWordsEnd(words: seq<string>)
    ensures words != [] ==> PrintWords(words) != "" && PrintWords(words)[|PrintWords(words)| - 1] == '\''
  {
    if words != [] {
      PrintedWordsEnd(words[1..]);
    }
  }

  lemma {:induction false} PrintedEnds(steps: seq<Step>)
    requires WellFormedSteps(steps)
    ensures var text := PrintSteps(steps); text != "" && text[0] == '\'' && !IsSpace(text[|text| - 1])
  {
    if |steps| > 1 {
      PrintedEnds(steps[1..]);
    } else {
      PrintedWordsEnd(steps[0].args);
      assert STDOUT_NULL[|STDOUT_NULL| - 1] == 'l' && STDERR_NULL[|STDERR_NULL| - 1] == 'l';
      assert STDERR_TO_STDOUT[|STDERR_TO_STDOUT| - 1] == '1';
    }
  }

  lemma ReachedOutside(t: Scanner, tokens: seq<string>)
    requires Reached(t, tokens)
    ensures t.quote.None?
  {
  }

  lemma TokenizeTrimmed(text: string, t: Scanner)
    requires text != "" && TrimSpace(text) == text
    requires ScanAll(Scanner([], "", None), text) == Ok(t) && t.quote.None? && FirstTokenError(t.Flush().tokens).None?
    ensures Tokenize(text) == Ok(t.Flush().tokens)
  {
    hide ScanAll, TrimSpace, FirstTokenError;
  }

  lemma ParseTokens(text: string)
    requires Tokenize(text).Ok?
    ensures ParseCommand(text) == ParseSteps(Tokenize(text).value)
  {
  }

  /** Reading back what was written gives exactly the same steps, redirects included. */
  lemma PrintedCommandParses(steps: seq<Step>)
    requires WellFormedSteps(steps)
    ensures ParseCommand(PrintSteps(steps)) == Ok(steps)
  {
    var text := PrintSteps(steps);
    hide *;
    PrintedEnds(steps);
    TrimmedIsFixed(text);
    var t := ScanSteps(Scanner([], "", None), [], steps);
    assert [] + StepsTokens(steps) == StepsTokens(steps);
    ReachedFlush(t, StepsTokens(steps));
    ReachedOutside(t, StepsTokens(steps));
    ParseStepsTokens(steps);
    TokenWordsPass(StepsTokens(steps));
    TokenizeTrimmed(text, t);
    ParseTokens(text);
  }

  // ----- The converse: nothing else is ever read -----

  predicate SpeakableText(w: string) {
    forall i :: 0 <= i < |w| ==> Speakable(w[i])
  }

  lemma {:induction false} ScanKeepsSpeakable(s: Scanner, raw: string)
    requires SpeakableText(s.current)
    requires forall w :: w in s.tokens ==> w != "" && SpeakableText(w)
    requires ScanAll(s, raw).Ok?
    ensures var t := ScanAll(s, raw).value;
      SpeakableText(t.current) && forall w :: w in t.tokens ==> w != "" && SpeakableText(w)
    decreases |raw|
  {
    if raw != "" {
      ScanKeepsSpeakable(ScanChar(s, raw[0]).value, raw[1..]);
    }
  }

  lemma {:induction false} PassedTokens(tokens: seq<string>)
    requires FirstTokenError(tokens).None?
    ensures forall w :: w in tokens ==> TokenError(w).None?
  {
    if tokens != [] {
      PassedTokens(tokens[1..]);
      assert forall w :: w in tokens ==> w == tokens[0] || w in tokens[1..];
    }
  }

  lemma {:induction false} PassedIff(tokens: seq<string>)
    ensures FirstTokenError(tokens).None? <==> forall w :: w in tokens ==> TokenError(w).None?
  {
    if tokens != [] {
      PassedIff(tokens[1..]);
      assert forall w :: w in tokens <==> w == tokens[0] || w in tokens[1..];
    }
  }

  lemma KnownOperators(w: string)
    ensures w == PIPE || RedirectWord(w) <==> w in ["|", ">/dev/null", "2>/dev/null", "2>&1"]
    ensures w == PIPE || RedirectWord(w) ==> TokenError(w).None?
  {
    if RedirectWord(w) {
      RedirectWordIsToken(w);
    }
  }

  /** Every token of an accepted command line is one of the words above. */
  lemma TokensAreWords(raw: string)
    requires Tokenize(raw).Ok?
    ensures forall w :: w in Tokenize(raw).value ==> TokenWord(w)
  {
    ScanKeepsSpeakable(START, TrimSpace(raw));
    PassedTokens(Tokenize(raw).value);
  }

  // ----- Which lines the tokenizer takes -----

  /** The quotation mark that is open before position i. */
  function QuoteAt(text: string, i: nat): (q: Option<char>)
    requires i <= |text|
    ensures q.Some? ==> q.value == '\'' || q.value == '"'
  {
    if i == 0 then None
    else
      var q, c := QuoteAt(text, i - 1), text[i - 1];
      if q == Some(c) then None
      else if q.None? && (c == '\'' || c == '"') then Some(c)
      else q
  }

  /** What no shell may be given: substitutions anywhere, line ends inside quotes, and outside them lists, subshells and
      input redirections. */
  predicate Shellish(c: char, quoted: bool) {
    c == '`' || c == '$' || if quoted then c == '\n' || c == '\r' else c == ';' || c == '(' || c == ')' || c == '<'
  }

  predicate Scannable(text: string, i: nat) {
    forall k :: i <= k < |text| ==> !Shellish(text[k], QuoteAt(text, k).Some?)
  }

  lemma {:induction false} ScansIff(s: Scanner, text: string, i: nat)
    requires i <= |text| && s.quote == QuoteAt(text, i)
    ensures ScanAll(s, text[i..]).Ok? <==> Scannable(text, i)
    ensures ScanAll(s, text[i..]).Ok? ==> ScanAll(s, text[i..]).value.quote == QuoteAt(text, |text|)
    decreases |text| - i
  {
    if i < |text| {
      var c := text[i];
      assert text[i..][0] == c && text[i..][1..] == text[i + 1..];
      assert ScanChar(s, c).Ok? <==> !Shellish(c, s.quote.Some?);
      assert QuoteAt(text, i + 1) == if s.quote == Some(c) then None
        else if s.quote.None? && (c == '\'' || c == '"') then Some(c) else s.quote;
      if ScanChar(s, c).Ok? {
        ScansIff(ScanChar(s, c).value, text, i + 1);
      }
    }
  }

  function ScannedTokens(text: string): (tokens: seq<string>) {
    match ScanAll(START, text) case Err(_) => [] case Ok(s) => s.Flush().tokens
  }

  /** A line is taken exactly when it is not blank, has none of those characters where they matter, closes its quotes, and
      all its tokens are words a step may have or operators the parser knows. */
  lemma TokenizedIff(raw: string)
    ensures var text := TrimSpace(raw);
      Tokenize(raw).Ok? <==>
        && text != "" && Scannable(text, 0) && QuoteAt(text, |text|).None?
        && forall w :: w in ScannedTokens(text) ==>
             ArgumentWord(w) || w in ["|", ">/dev/null", "2>/dev/null", "2>&1"]
  {
    var text := TrimSpace(raw);
    assert text[0..] == text;
    ScansIff(START, text, 0);
    if ScanAll(START, text).Ok? {
      ScanKeepsSpeakable(START, text);
      var tokens := ScannedTokens(text);
      PassedIff(tokens);
      forall w | w in tokens
        ensures TokenError(w).None? <==> ArgumentWord(w) || w in ["|", ">/dev/null", "2>/dev/null", "2>&1"]
      {
        ArgumentWordIff(w);
        KnownOperators(w);
      }
    }
  }

  lemma {:induction false} ParsedPartsWellFormed(parts: seq<seq<string>>)
    requires forall part, w :: part in parts && w in part ==> TokenWord(w) && w != PIPE
    requires ParseParts(parts).Ok?
    ensures |ParseParts(parts).value| == |parts|
    ensures forall step :: step in ParseParts(parts).value ==> WellFormedStep(step)
  {
    if parts != [] {
      ParsedPartsWellFormed(parts[1..]);
      var k := ArgumentCount(parts[0]);
      assert forall i :: 0 <= i < k ==> parts[0][i] in parts[0];
    }
  }

  lemma ParsedCommandWellFormed(raw: string)
    requires ParseCommand(raw).Ok?
    ensures WellFormedSteps(ParseCommand(raw).value)
  {
    var tokens := Tokenize(raw).value;
    TokensAreWords(raw);
    SplitPieces(tokens, PIPE);
    ParsedPartsWellFormed(Split(tokens, PIPE));
  }

  /** A list of steps is the meaning of some command line exactly when its words are argument words. */
  lemma ExpressibleSteps(steps: seq<Step>)
    ensures (exists raw :: ParseCommand(raw) == Ok(steps)) <==> WellFormedSteps(steps)
  {
    if WellFormedSteps(steps) {
      PrintedCommandParses(steps);
    }
    if raw :| ParseCommand(raw) == Ok(steps) {
      ParsedCommandWellFormed(raw);
    }
  }

  /** Every accepted command line has a canonical spelling with the same meaning. */
  lemma CanonicalSpelling(raw: string)
    requires ParseCommand(raw).Ok?
    ensures WellFormedSteps(ParseCommand(raw).value)
    ensures ParseCommand(PrintSteps(ParseCommand(raw).value)) == ParseCommand(raw)
  {
    ParsedCommandWellFormed(raw);
    PrintedCommandParses(ParseCommand(raw).value);
  }
}
