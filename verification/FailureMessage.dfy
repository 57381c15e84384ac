/** The sender's failure message: one line of valid UTF-8 of bounded length (internal/syncoidruntime/runtime.go). */
module FailureMessage {
  import opened Text
  import opened Utf8

  const MAX_FAILURE_MESSAGE_BYTES := 4096
  const FALLBACK_EXIT_CODE := 1
  const FALLBACK_MESSAGE := "syncoid failed"
  const REPLACEMENT := 0xFFFD as char

  /** strings.ToValidUTF8: each run of bytes that are no UTF-8 becomes one replacement character. */
  function Repaired(bytes: seq<Byte>, inRun: bool): (s: string)
    decreases |bytes|
  {
    if bytes == [] then ""
    else if FirstWidth(bytes) > 0 then [First(bytes)] + Repaired(bytes[FirstWidth(bytes)..], false)
    else (if inRun then "" else [REPLACEMENT]) + Repaired(bytes[1..], true)
  }

  /** A message that is already valid is not touched. */
  lemma {:induction false} RepairKeepsValid(s: string, inRun: bool)
    ensures Repaired(EncodeAll(s), inRun) == s
    decreases |s|
  {
    if s != "" {
      FirstOfEncoded(s[0], EncodeAll(s[1..]));
      RepairKeepsValid(s[1..], false);
      assert (Encode(s[0]) + EncodeAll(s[1..]))[Width(s[0])..] == EncodeAll(s[1..]);
      assert s == [s[0]] + s[1..];
    }
  }

  lemma {:induction false} RunAddsNothing(bad: seq<Byte>, rest: seq<Byte>)
    requires forall i :: 0 <= i < |bad| ==> FirstWidth((bad + rest)[i..]) == 0
    requires rest == [] || FirstWidth(rest) > 0
    ensures Repaired(bad + rest, true) == Repaired(rest, false)
  {
    if bad == [] {
      assert bad + rest == rest;
    } else {
      assert (bad + rest)[0..] == bad + rest && (bad + rest)[1..] == bad[1..] + rest;
      forall i | 0 <= i < |bad[1..]| ensures FirstWidth((bad[1..] + rest)[i..]) == 0 {
        assert (bad[1..] + rest)[i..] == (bad + rest)[i + 1..];
      }
      RunAddsNothing(bad[1..], rest);
    }
  }

  lemma CharacterIsKept(c: char, rest: seq<Byte>)
    ensures Repaired(Encode(c) + rest, false) == [c] + Repaired(rest, false)
  {
    FirstOfEncoded(c, rest);
    assert (Encode(c) + rest)[Width(c)..] == rest;
    hide FirstWidth, First, Encode;
  }

  /** A whole run of bytes at which no character begins becomes one replacement character. */
  lemma RunBecomesOne(bad: seq<Byte>, rest: seq<Byte>)
    requires bad != [] && forall i :: 0 <= i < |bad| ==> FirstWidth((bad + rest)[i..]) == 0
    requires rest == [] || FirstWidth(rest) > 0
    ensures Repaired(bad + rest, false) == [REPLACEMENT] + Repaired(rest, false)
  {
    hide FirstWidth, First;
    assert (bad + rest)[0..] == bad + rest && (bad + rest)[1..] == bad[1..] + rest;
    forall i | 0 <= i < |bad[1..]| ensures FirstWidth((bad[1..] + rest)[i..]) == 0 {
      assert (bad[1..] + rest)[i..] == (bad + rest)[i + 1..];
    }
    RunAddsNothing(bad[1..], rest);
  }

  /** strings.Fields after `word`: the words between spaces. */
  function FieldsFrom(word: string, s: string): (words: seq<string>)
    decreases |s|
  {
    if s == "" then if word == "" then [] else [word]
    else if IsSpace(s[0]) then (if word == "" then [] else [word]) + FieldsFrom("", s[1..])
    else FieldsFrom(word + [s[0]], s[1..])
  }

  function Fields(s: string): (words: seq<string>) {
    FieldsFrom("", s)
  }

  function OneLine(message: seq<Byte>): (line: string) {
    Join(Fields(Repaired(message, false)), ' ')
  }

  predicate Word(w: string) {
    w != "" && forall i :: 0 <= i < |w| ==> !IsSpace(w[i])
  }

  lemma {:induction false} FieldsAreWords(word: string, s: string)
    requires word == "" || Word(word)
    ensures forall w :: w in FieldsFrom(word, s) ==> Word(w)
    ensures FieldsFrom(word, s) == [] <==> word == "" && Blank(s)
    decreases |s|
  {
    if s != "" {
      if IsSpace(s[0]) {
        FieldsAreWords("", s[1..]);
      } else {
        FieldsAreWords(word + [s[0]], s[1..]);
      }
      assert forall c :: c in s <==> c == s[0] || c in s[1..];
    }
  }

  /** The word comes first, from k to m. */
  predicate Begins(w: string, s: string, k: int, m: int) {
    0 <= k <= m <= |s| && Blank(s[..k]) && s[k..m] == w && (m == |s| || IsSpace(s[m]))
  }

  /** The string is these words in this order, set apart and possibly surrounded by spaces. */
  ghost predicate Laid(words: seq<string>, s: string)
    decreases |words|
  {
    if words == [] then Blank(s)
    else exists k, m :: Begins(words[0], s, k, m) && Laid(words[1..], s[m..])
  }

  lemma LaidWord(words: seq<string>, s: string, k: nat, m: nat)
    requires words != [] && Begins(words[0], s, k, m) && Laid(words[1..], s[m..])
    ensures Laid(words, s)
  {
  }

  lemma BeginsLater(w: string, s: string, k: nat, m: nat)
    requires s != "" && IsSpace(s[0]) && Begins(w, s[1..], k, m)
    ensures Begins(w, s, k + 1, m + 1) && s[m + 1..] == s[1..][m..]
  {
    hide IsSpace;
    var t := s[1..];
    assert s[..k + 1] == [s[0]] + t[..k] && s[k + 1..m + 1] == t[k..m] && s[m + 1..] == t[m..];
  }

  lemma LaidAfterSpace(words: seq<string>, s: string)
    requires s != "" && IsSpace(s[0]) && Laid(words, s[1..])
    ensures Laid(words, s)
  {
    if words == [] {
      assert s == [s[0]] + s[1..];
    } else {
      var k, m :| Begins(words[0], s[1..], k, m) && Laid(words[1..], s[1..][m..]);
      BeginsLater(words[0], s, k, m);
      LaidWord(words, s, k + 1, m + 1);
    }
  }

  /** A word begun is carried on to the next space. */
  lemma {:induction false} WordEnds(word: string, s: string) returns (m: nat)
    requires word != ""
    ensures m <= |s| && (m == |s| || IsSpace(s[m]))
    ensures FieldsFrom(word, s) == [word + s[..m]] + FieldsFrom("", s[m..])
    decreases |s|
  {
    if s == "" || IsSpace(s[0]) {
      m := 0;
      assert word + s[..0] == word && s[0..] == s;
    } else {
      var n := WordEnds(word + [s[0]], s[1..]);
      m := n + 1;
      assert word + [s[0]] + s[1..][..n] == word + s[..m] && s[1..][n..] == s[m..];
    }
  }

  /** The fields of a string are its words, all of them and in order. */
  lemma {:induction false} FieldsAreLaid(s: string)
    ensures Laid(Fields(s), s)
    ensures forall w :: w in Fields(s) ==> Word(w)
    decreases |s|
  {
    FieldsAreWords("", s);
    if s != "" {
      if IsSpace(s[0]) {
        FieldsAreLaid(s[1..]);
        assert Fields(s) == Fields(s[1..]);
        LaidAfterSpace(Fields(s), s);
      } else {
        assert "" + [s[0]] == [s[0]];
        var m := WordEnds([s[0]], s[1..]);
        assert [s[0]] + s[1..][..m] == s[0..m + 1] && s[1..][m..] == s[m + 1..];
        FieldsAreLaid(s[m + 1..]);
        LaidWord(Fields(s), s, 0, m + 1);
      }
    }
  }

  /** The only spaces in a line are single blanks between words. */
  predicate SingleLine(line: string) {
    && (forall i :: 0 <= i < |line| && IsSpace(line[i]) ==> line[i] == ' ')
    && (forall i :: 0 <= i < |line| - 1 ==> !(line[i] == ' ' && line[i + 1] == ' '))
    && (line != "" ==> line[0] != ' ')
  }

  lemma {:induction false} JoinedWords(words: seq<string>)
    requires forall w :: w in words ==> Word(w)
    ensures SingleLine(Join(words, ' ')) && (Join(words, ' ') == "" <==> words == [])
    ensures words != [] ==> Join(words, ' ')[|Join(words, ' ')| - 1] != ' '
  {
    if words != [] {
      assert words[0] in words;
      JoinedWords(words[1..]);
    }
  }

  lemma OneLineIsSingle(message: seq<Byte>)
    ensures SingleLine(OneLine(message))
    ensures OneLine(message) == "" <==> Blank(Repaired(message, false))
  {
    FieldsAreWords("", Repaired(message, false));
    JoinedWords(Fields(Repaired(message, false)));
  }

  // ----- Cutting a valid string short -----

  /** Some whole characters end within four bytes of any cut. */
  lemma {:induction false} BoundaryNear(s: string, n: nat) returns (k: nat)
    requires n <= |EncodeAll(s)|
    ensures k <= n < k + 4 && Valid(EncodeAll(s)[..k])
    decreases |s|
  {
    if s == "" || n < Width(s[0]) {
      k := 0;
    } else {
      var w, rest := Width(s[0]), EncodeAll(s[1..]);
      var j := BoundaryNear(s[1..], n - w);
      k := w + j;
      assert EncodeAll(s)[..k] == Encode(s[0]) + rest[..j];
      FirstOfEncoded(s[0], rest[..j]);
      assert (Encode(s[0]) + rest[..j])[w..] == rest[..j];
    }
  }

  /** A valid prefix of an encoded string encodes a prefix of the string. */
  lemma {:induction false} ValidPrefix(q: string, s: string)
    requires EncodeAll(q) <= EncodeAll(s)
    ensures q <= s
    decreases |q|
  {
    if q != "" {
      var a, b := EncodeAll(q[1..]), EncodeAll(s[1..]);
      var bytes := EncodeAll(q);
      var tail := EncodeAll(s)[|bytes|..];
      assert EncodeAll(s) == Encode(q[0]) + (a + tail);
      FirstOfEncoded(q[0], a + tail);
      FirstOfEncoded(s[0], b);
      assert (Encode(q[0]) + (a + tail))[Width(q[0])..] == a + tail;
      assert (Encode(s[0]) + b)[Width(s[0])..] == b;
      ValidPrefix(q[1..], s[1..]);
      assert q == [q[0]] + q[1..] && s == [s[0]] + s[1..];
    }
  }

  /** What the message becomes: the whole line, or its longest valid prefix within the bound. */
  ghost predicate Normalizes(message: seq<Byte>, r: seq<Byte>) {
    var whole := EncodeAll(OneLine(message));
    if |whole| <= 4096 then r == whole
    else
      && r <= whole && Valid(r)
      && 4093 <= |r| <= 4096
      && forall k :: |r| < k <= 4096 ==> !Valid(whole[..k])
  }

  method NormalizeFailureMessage(message: seq<Byte>) returns (r: seq<Byte>)
    ensures Normalizes(message, r)
  {
    var line := OneLine(message);
    var whole := EncodeAll(line);
    if |whole| <= MAX_FAILURE_MESSAGE_BYTES {
      return whole;
    }
    ghost var boundary := BoundaryNear(line, MAX_FAILURE_MESSAGE_BYTES);
    r := whole[..MAX_FAILURE_MESSAGE_BYTES];
    while !Valid(r)
      invariant boundary <= |r| <= MAX_FAILURE_MESSAGE_BYTES && r == whole[..|r|]
      invariant forall k :: |r| < k <= MAX_FAILURE_MESSAGE_BYTES ==> !Valid(whole[..k])
      decreases |r|
    {
      ghost var n := |r|;
      r := r[..|r| - 1];
      assert r == whole[..n - 1];
    }
  }

  datatype Outcome = Outcome(exitCode: int, failureMessage: seq<Byte>)

  /** The published message, whatever went in: nonempty, one line, valid UTF-8, at most 4096 bytes. */
  ghost predicate Publishable(m: seq<Byte>) {
    && m != [] && |m| <= 4096 && Valid(m)
    && exists line :: m == EncodeAll(line) && SingleLine(line)
  }

  lemma {:induction false} PrefixIsSingleLine(q: string, line: string)
    requires q <= line && SingleLine(line)
    ensures SingleLine(q)
  {
    assert forall i :: 0 <= i < |q| ==> q[i] == line[i];
  }

  lemma NormalizedIsPublishable(message: seq<Byte>, r: seq<Byte>)
    requires Normalizes(message, r) && r != []
    ensures Publishable(r)
  {
    var line := OneLine(message);
    OneLineIsSingle(message);
    EncodedIsValid(line);
    ValidIffEncoded(r);
    var q :| r == EncodeAll(q);
    ValidPrefix(q, line);
    PrefixIsSingleLine(q, line);
  }

  lemma FallbackIsSingleLine()
    ensures SingleLine(FALLBACK_MESSAGE)
  {
    assert Word("syncoid") && Word("failed");
    JoinedWords(["syncoid", "failed"]);
    assert ["syncoid", "failed"][1..] == ["failed"];
    assert "syncoid" + [' '] + "failed" == FALLBACK_MESSAGE;
  }

  lemma FallbackIsPublishable()
    ensures Publishable(EncodeAll(FALLBACK_MESSAGE))
  {
    hide EncodeAll, Valid, SingleLine;
    FallbackIsSingleLine();
    EncodedLength(FALLBACK_MESSAGE);
    EncodedIsValid(FALLBACK_MESSAGE);
  }

  lemma NothingToSay(message: seq<Byte>)
    requires Normalizes(message, [])
    ensures OneLine(message) == ""
  {
    EncodedLength(OneLine(message));
  }

  method FailedOutcome(exitCode: int, message: seq<Byte>) returns (o: Outcome)
    ensures o.exitCode == if exitCode > 0 then exitCode else 1
    ensures Publishable(o.failureMessage)
    ensures Normalizes(message, o.failureMessage) ||
      (o.failureMessage == EncodeAll("syncoid failed") && OneLine(message) == "")
  {
    var code := if exitCode <= 0 then FALLBACK_EXIT_CODE else exitCode;
    var m := NormalizeFailureMessage(message);
    if m == [] {
      NothingToSay(message);
      FallbackIsPublishable();
      m := EncodeAll(FALLBACK_MESSAGE);
    } else {
      NormalizedIsPublishable(message, m);
    }
    return Outcome(code, m);
  }
}
