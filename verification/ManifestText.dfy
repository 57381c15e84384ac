/** The manifest's header line as text (internal/receiverauthorization/snapshot.go). */
module ManifestText {
  import opened Text

  const HEADER_PREFIX := "# receiver-authorization-snapshot "
  const SNAPSHOT_PREFIX := "snapshot-"
  const DIGEST_LENGTH := 64

  predicate HexDigit(c: char) {
    '0' <= c <= '9' || 'a' <= c <= 'f'
  }

  predicate ValidSnapshotID(id: string) {
    && |id| == |SNAPSHOT_PREFIX| + DIGEST_LENGTH
    && SNAPSHOT_PREFIX <= id
    && forall i :: |SNAPSHOT_PREFIX| <= i < |id| ==> HexDigit(id[i])
  }

  /** The rendered manifest: the header, then whatever the grants contribute. */
  function RenderText(id: string, lines: string): (data: string) {
    HEADER_PREFIX + id + "\n" + lines
  }

  function TrimPrefix(text: string, prefix: string): (rest: string) {
    if prefix <= text then text[|prefix|..] else text
  }

  function ParseSnapshotID(data: string): (id: Option<string>) {
    var (line, _, found) := Cut(data, '\n');
    if !found || !(HEADER_PREFIX <= line) then None
    else
      var id := TrimPrefix(line, HEADER_PREFIX);
      if !ValidSnapshotID(id) || |line| != |HEADER_PREFIX| + |id| then None else Some(id)
  }

  lemma HeaderIsOneLine(id: string)
    requires ValidSnapshotID(id)
    ensures '\n' !in HEADER_PREFIX + id
  {
    var line := HEADER_PREFIX + id;
    forall i | 0 <= i < |line| ensures line[i] != '\n' {
      if i >= |HEADER_PREFIX| {
        var k := i - |HEADER_PREFIX|;
        assert line[i] == id[k];
        if k < |SNAPSHOT_PREFIX| {
          assert id[k] == SNAPSHOT_PREFIX[k];
        }
      }
    }
  }

  /** An identity is the word "snapshot-" and 64 lower-case hexadecimal digits. */
  lemma IdentityText(id: string)
    ensures ValidSnapshotID(id) <==>
      |id| == 73 && id[..9] == "snapshot-" && forall i :: 9 <= i < 73 ==> id[i] in "0123456789abcdef"
  {
    forall c ensures HexDigit(c) <==> c in "0123456789abcdef" {
    }
    hide HexDigit;
  }

  /** A manifest is read back as `id` exactly when it is the rendering of the valid identity `id` and some lines. */
  lemma HeaderRoundTrip(data: string, id: string)
    ensures ParseSnapshotID(data) == Some(id) <==> ValidSnapshotID(id) && exists lines :: data == RenderText(id, lines)
  {
    CutMeaning(data, '\n');
    var (line, rest, found) := Cut(data, '\n');
    if ParseSnapshotID(data) == Some(id) {
      assert line == HEADER_PREFIX + id;
      assert data == HEADER_PREFIX + id + "\n" + rest;
      assert data == RenderText(id, rest);
    }
    if ValidSnapshotID(id) {
      HeaderIsOneLine(id);
      if lines :| data == RenderText(id, lines) {
        assert data == (HEADER_PREFIX + id) + ['\n'] + lines;
        CutOf(HEADER_PREFIX + id, lines, '\n');
        assert TrimPrefix(HEADER_PREFIX + id, HEADER_PREFIX) == id;
      }
    }
  }
}
