/** The receiver command language: tokens, pipelines and redirects
    (internal/receiverauthorization/command_parse.go). */
module CommandParse {
  import opened Text

  datatype ParseError =
    | CommandIsEmpty
    | UnsupportedQuotedCharacter(c: char)
    | UnsupportedShellCharacter(c: char)
    | UnterminatedQuote
    | UnsupportedOperator(token: string)
    | UnsupportedRedirection(token: string)
    | EmptyCommandInPipeline
    | ArgumentsAfterRedirection
    | EmptyCommand

  datatype Step = Step(name: string, args: seq<string>, stdoutNull: bool, stderrNull: bool, stderrToStdout: bool)

  const STDOUT_NULL := ">/dev/null"
  const STDERR_NULL := "2>/dev/null"
  const STDERR_TO_STDOUT := "2>&1"
  const PIPE := "|"

  // ----- Scanning -----

  /** The scanner's mutable state: finished tokens, the token being built, the open quote. */
  datatype Scanner = Scanner(tokens: seq<string>, current: string, quote: Option<char>) {

    function Flush(): Scanner {
      if current == "" then this else Scanner(tokens + [current], "", quote)
    }
  }

  const START := Scanner([], "", None)

  predicate RefusedInQuotes(c: char) {
    c == '\n' || c == '\r' || c == '`' || c == '$'
  }

  predicate RefusedOutsideQuotes(c: char) {
    RefusedInQuotes(c) || c == ';' || c == '(' || c == ')' || c == '<'
  }

  function ScanChar(s: Scanner, c: char): (r: Result<Scanner, ParseError>) {
    if s.quote.Some? then
      if c == s.quote.value then Ok(s.(quote := None))
      else if RefusedInQuotes(c) then Err(UnsupportedQuotedCharacter(c))
      else Ok(s.(current := s.current + [c]))
    else if IsSpace(c) then Ok(s.Flush())
    else if c == '\'' || c == '"' then Ok(s.(quote := Some(c)))
    else if c == '|' then Ok(s.Flush().(tokens := s.Flush().tokens + [PIPE]))
    else if RefusedOutsideQuotes(c) then Err(UnsupportedShellCharacter(c))
    else Ok(s.(current := s.current + [c]))
  }

  function ScanAll(s: Scanner, raw: string): (r: Result<Scanner, ParseError>)
    decreases |raw|
  {
    if raw == "" then Ok(s)
    else match ScanChar(s, raw[0])
      case Err(e) => Err(e)
      case Ok(next) => ScanAll(next, raw[1..])
  }

  predicate RedirectWord(token: string) {
    token == STDOUT_NULL || token == STDERR_NULL || token == STDERR_TO_STDOUT
  }

  function TokenError(token: string): (e: Option<ParseError>) {
    if token == "||" || token == "&&" then Some(UnsupportedOperator(token))
    else if '&' in token && token != STDERR_TO_STDOUT then Some(UnsupportedOperator(token))
    else if '>' in token && !RedirectWord(token) then Some(UnsupportedRedirection(token))
    else None
  }

  function FirstTokenError(tokens: seq<string>): (e: Option<ParseError>) {
    if tokens == [] then None
    else if TokenError(tokens[0]).Some? then TokenError(tokens[0])
    else FirstTokenError(tokens[1..])
  }

  function Tokenize(raw: string): (r: Result<seq<string>, ParseError>) {
    var text := TrimSpace(raw);
    if text == "" then Err(CommandIsEmpty)
    else match ScanAll(START, text)
      case Err(e) => Err(e)
      case Ok(s) =>
        if s.quote.Some? then Err(UnterminatedQuote)
        else
          var tokens := s.Flush().tokens;
          match FirstTokenError(tokens)
            case Some(e) => Err(e)
            case None => Ok(tokens)
  }

  method TokenizeReceiverCommand(raw: string) returns (r: Result<seq<string>, ParseError>)
    ensures r == Tokenize(raw)
  {
    var text := TrimSpace(raw);
    if text == "" {
      return Err(CommandIsEmpty);
    }
    var tokens: seq<string>, current: string, quote: Option<char> := [], "", None;
    for i := 0 to |text|
      invariant ScanAll(START, text) == ScanAll(Scanner(tokens, current, quote), text[i..])
    {
      var c := text[i];
      ghost var before := Scanner(tokens, current, quote);
      assert text[i..][0] == c && text[i..][1..] == text[i + 1..];
      if quote.Some? {
        if c == quote.value {
          quote := None;
        } else if RefusedInQuotes(c) {
          return Err(UnsupportedQuotedCharacter(c));
        } else {
          current := current + [c];
        }
        assert ScanChar(before, c) == Ok(Scanner(tokens, current, quote));
        continue;
      }
      if IsSpace(c) {
        if current != "" {
          tokens, current := tokens + [current], "";
        }
      } else if c == '\'' || c == '"' {
        quote := Some(c);
      } else if c == '|' {
        if current != "" {
          tokens, current := tokens + [current], "";
        }
        tokens := tokens + [PIPE];
      } else if RefusedOutsideQuotes(c) {
        return Err(UnsupportedShellCharacter(c));
      } else {
        current := current + [c];
      }
      assert ScanChar(before, c) == Ok(Scanner(tokens, current, quote));
    }
    assert text[|text|..] == "";
    if quote.Some? {
      return Err(UnterminatedQuote);
    }
    if current != "" {
      tokens, current := tokens + [current], "";
    }
    for i := 0 to |tokens|
      invariant FirstTokenError(tokens) == FirstTokenError(tokens[i..])
    {
      assert tokens[i..][0] == tokens[i] && tokens[i..][1..] == tokens[i + 1..];
      var token := tokens[i];
      if token == "||" || token == "&&" {
        return Err(UnsupportedOperator(token));
      }
      if '&' in token && token != STDERR_TO_STDOUT {
        return Err(UnsupportedOperator(token));
      }
      if '>' in token && !RedirectWord(token) {
        return Err(UnsupportedRedirection(token));
      }
    }
    return Ok(tokens);
  }

  // ----- Pipelines -----

  /** Where a step's redirects begin. */
  function ArgumentCount(tokens: seq<string>): (k: nat)
    ensures k <= |tokens|
    ensures forall i :: 0 <= i < k ==> !RedirectWord(tokens[i])
    ensures k < |tokens| ==> RedirectWord(tokens[k])
  {
    if tokens == [] || RedirectWord(tokens[0]) then 0 else 1 + ArgumentCount(tokens[1..])
  }

  function ParseStep(tokens: seq<string>): (r: Result<Step, ParseError>) {
    var k := ArgumentCount(tokens);
    if tokens == [] then Err(EmptyCommandInPipeline)
    else if exists i :: k <= i < |tokens| && !RedirectWord(tokens[i]) then Err(ArgumentsAfterRedirection)
    else if k == 0 then Err(EmptyCommand)
    else Ok(Step(tokens[0], tokens[1..k], STDOUT_NULL in tokens, STDERR_NULL in tokens, STDERR_TO_STDOUT in tokens))
  }

  method ParseReceiverCommandStep(tokens: seq<string>) returns (r: Result<Step, ParseError>)
    ensures r == ParseStep(tokens)
  {
    if |tokens| == 0 {
      return Err(EmptyCommandInPipeline);
    }
    var args: seq<string> := [];
    var stdoutNull, stderrNull, stderrToStdout, seenRedirect := false, false, false, false;
    ghost var k := ArgumentCount(tokens);
    for i := 0 to |tokens|
      invariant seenRedirect <==> k < i
      invariant args == tokens[..if i < k then i else k]
      invariant forall j :: k <= j < i ==> RedirectWord(tokens[j])
      invariant stdoutNull <==> STDOUT_NULL in tokens[..i]
      invariant stderrNull <==> STDERR_NULL in tokens[..i]
      invariant stderrToStdout <==> STDERR_TO_STDOUT in tokens[..i]
    {
      var token := tokens[i];
      assert tokens[..i + 1] == tokens[..i] + [token];
      if token == STDOUT_NULL {
        seenRedirect, stdoutNull := true, true;
      } else if token == STDERR_NULL {
        seenRedirect, stderrNull := true, true;
      } else if token == STDERR_TO_STDOUT {
        seenRedirect, stderrToStdout := true, true;
      } else {
        if seenRedirect {
          return Err(ArgumentsAfterRedirection);
        }
        args := args + [token];
      }
    }
    assert tokens[..|tokens|] == tokens;
    if |args| == 0 {
      return Err(EmptyCommand);
    }
    return Ok(Step(args[0], args[1..], stdoutNull, stderrNull, stderrToStdout));
  }

  function ParseParts(parts: seq<seq<string>>): (r: Result<seq<Step>, ParseError>) {
    if parts == [] then Ok([])
    else match ParseStep(parts[0])
      case Err(e) => Err(e)
      case Ok(step) =>
        match ParseParts(parts[1..])
        case Err(e) => Err(e)
        case Ok(steps) => Ok([step] + steps)
  }

  function ParseSteps(tokens: seq<string>): (r: Result<seq<Step>, ParseError>) {
    ParseParts(Split(tokens, PIPE))
  }

  /** What the steps so far, the part being collected and the tokens still to come will parse to. */
  ghost function Pending(steps: seq<Step>, part: seq<string>, tokens: seq<string>): Result<seq<Step>, ParseError> {
    var parts := Split(tokens, PIPE);
    match ParseParts([part + parts[0]] + parts[1..])
    case Err(e) => Err(e)
    case Ok(more) => Ok(steps + more)
  }

  lemma PendingStart(tokens: seq<string>)
    ensures Pending([], [], tokens) == ParseSteps(tokens)
  {
    var parts := Split(tokens, PIPE);
    assert [] + parts[0] == parts[0];
    assert [[] + parts[0]] + parts[1..] == parts;
    if ParseParts(parts).Ok? {
      assert [] + ParseParts(parts).value == ParseParts(parts).value;
    }
  }

  lemma PendingWord(steps: seq<Step>, part: seq<string>, token: string, tail: seq<string>)
    requires token != PIPE
    ensures Pending(steps, part, [token] + tail) == Pending(steps, part + [token], tail)
  {
    assert ([token] + tail)[1..] == tail;
    var rest := Split(tail, PIPE);
    assert part + ([token] + rest[0]) == part + [token] + rest[0];
  }

  lemma PendingBar(steps: seq<Step>, part: seq<string>, tail: seq<string>)
    ensures match ParseStep(part)
      case Err(e) => Pending(steps, part, [PIPE] + tail) == Err(e)
      case Ok(step) => Pending(steps, part, [PIPE] + tail) == Pending(steps + [step], [], tail)
  {
    assert ([PIPE] + tail)[1..] == tail;
    var rest := Split(tail, PIPE);
    assert part + [] == part && [] + rest[0] == rest[0];
    assert [[] + rest[0]] + rest[1..] == rest;
    assert ([part] + rest)[1..] == rest;
    if ParseStep(part).Ok? && ParseParts(rest).Ok? {
      var step, more := ParseStep(part).value, ParseParts(rest).value;
      assert steps + ([step] + more) == steps + [step] + more;
    }
  }

  lemma ParseOnePart(part: seq<string>)
    ensures match ParseStep(part)
      case Err(e) => ParseParts([part]) == Err(e)
      case Ok(step) => ParseParts([part]) == Ok([step])
  {
    assert [part][1..] == [];
    assert ParseParts([]) == Ok([]);
    if ParseStep(part).Ok? {
      assert [ParseStep(part).value] + [] == [ParseStep(part).value];
    }
  }

  lemma PendingEnd(steps: seq<Step>, part: seq<string>)
    ensures match ParseStep(part)
      case Err(e) => Pending(steps, part, []) == Err(e)
      case Ok(step) => Pending(steps, part, []) == Ok(steps + [step])
  {
    var parts := Split<string>([], PIPE);
    assert parts == [[]] && part + parts[0] == part;
    assert [part + parts[0]] + parts[1..] == [part];
    ParseOnePart(part);
  }

  method ParseReceiverCommandSteps(tokens: seq<string>) returns (r: Result<seq<Step>, ParseError>)
    ensures r == ParseSteps(tokens)
  {
    var steps: seq<Step>, part: seq<string> := [], [];
    PendingStart(tokens);
    assert tokens[0..] == tokens;
    for i := 0 to |tokens|
      invariant ParseSteps(tokens) == Pending(steps, part, tokens[i..])
    {
      var token := tokens[i];
      assert tokens[i..] == [token] + tokens[i + 1..];
      if token != PIPE {
        PendingWord(steps, part, token, tokens[i + 1..]);
        part := part + [token];
        continue;
      }
      PendingBar(steps, part, tokens[i + 1..]);
      var step := ParseReceiverCommandStep(part);
      if step.Err? {
        return Err(step.error);
      }
      steps, part := steps + [step.value], [];
    }
    assert tokens[|tokens|..] == [];
    PendingEnd(steps, part);
    var step := ParseReceiverCommandStep(part);
    if step.Err? {
      return Err(step.error);
    }
    return Ok(steps + [step.value]);
  }

  /** Tokenizer and parser in sequence. */
  function ParseCommand(raw: string): (r: Result<seq<Step>, ParseError>) {
    match Tokenize(raw)
    case Err(e) => Err(e)
    case Ok(tokens) => ParseSteps(tokens)
  }
}
