/** Dataset and snapshot names (internal/replication/replication.go). */
module Datasets {
  import opened Text

  const FORBIDDEN := "@# \t\r\n;|&`$()<>\\\"'*?["

  predicate ValidDatasetName(dataset: string) {
    && dataset != ""
    && dataset[0] != '/'
    && dataset[|dataset| - 1] != '/'
    && !(exists i :: 0 <= i < |dataset| - 1 && dataset[i] == '/' && dataset[i + 1] == '/')
    && !(exists i :: 0 <= i < |dataset| && dataset[i] in FORBIDDEN)
    && forall part :: part in Split(dataset, '/') ==>
         part != "" && part != "." && part != ".." && !(exists i :: 0 <= i < |part| && IsControl(part[i]))
  }

  predicate DatasetOrChild(value: string, target: string) {
    && ValidDatasetName(value)
    && ValidDatasetName(target)
    && (value == target || target + "/" <= value)
  }

  predicate TargetDatasetsOverlap(a: string, b: string) {
    DatasetOrChild(a, b) || DatasetOrChild(b, a)
  }

  predicate ValidSnapshotRune(c: char) {
    'a' <= c <= 'z' || 'A' <= c <= 'Z' || '0' <= c <= '9' || c == '_' || c == '-' || c == '.' || c == ':'
  }

  predicate ValidSnapshotName(snapshot: string) {
    && snapshot != "" && snapshot != "." && snapshot != ".."
    && forall i :: 0 <= i < |snapshot| ==> ValidSnapshotRune(snapshot[i])
  }

  function TargetPool(dataset: string): (pool: string) {
    Cut(dataset, '/').0
  }

  // ----- What a dataset name denotes: a path of components -----

  /** The path a name spells, pool first. */
  function Components(dataset: string): (path: seq<string>)
    ensures |path| >= 1
  {
    Split(dataset, '/')
  }

  predicate ValidComponent(part: string) {
    && part != "" && part != "." && part != ".."
    && forall i :: 0 <= i < |part| ==> part[i] != '/' && part[i] !in FORBIDDEN && !IsControl(part[i])
  }

  predicate ValidPath(path: seq<string>) {
    path != [] && forall part :: part in path ==> ValidComponent(part)
  }

  lemma {:induction false} FirstComponent(dataset: string)
    ensures Components(dataset)[0] == "" <==> dataset == "" || dataset[0] == '/'
  {
  }

  lemma {:induction false} NoEmptyComponentAfterSlash(tail: string)
    requires tail != "" && tail[0] == '/' && "" !in Components(tail)[1..]
    ensures |tail| > 1 && tail[1] != '/' && tail[|tail| - 1] != '/'
    ensures forall i :: 0 <= i < |tail| - 1 ==> !(tail[i] == '/' && tail[i + 1] == '/')
    decreases |tail|
  {
    assert Components(tail)[1..] == Components(tail[1..]);
    NoEmptyComponent(tail[1..]);
  }

  lemma {:induction false} NoEmptyComponent(dataset: string)
    requires "" !in Components(dataset)
    ensures dataset != "" && dataset[0] != '/' && dataset[|dataset| - 1] != '/'
    ensures forall i :: 0 <= i < |dataset| - 1 ==> !(dataset[i] == '/' && dataset[i + 1] == '/')
    decreases |dataset|
  {
    FirstComponent(dataset);
    assert Components(dataset)[0] in Components(dataset);
    var tail := dataset[1..];
    FirstComponent(tail);
    if tail != "" {
      var parts, rest := Components(dataset), Split(tail, '/');
      if tail[0] == '/' {
        assert rest[0] == "";
        assert forall p :: p in rest[1..] ==> p in parts[1..];
        NoEmptyComponentAfterSlash(tail);
      } else {
        assert forall p :: p in rest[1..] ==> p in parts[1..] && p in parts;
        assert "" !in rest;
        NoEmptyComponent(tail);
      }
    }
  }

  lemma {:induction false} JoinedCharacter(parts: seq<string>, sep: char, i: nat) returns (part: string)
    requires i < |Join(parts, sep)| && Join(parts, sep)[i] != sep
    ensures part in parts && Join(parts, sep)[i] in part
  {
    if |parts| == 1 || i < |parts[0]| {
      part := parts[0];
    } else {
      var rest := JoinedCharacter(parts[1..], sep, i - |parts[0]| - 1);
      part := rest;
    }
  }

  /** A name is valid exactly when every component of its path is. */
  lemma ValidByComponents(dataset: string)
    ensures ValidDatasetName(dataset) <==> ValidPath(Components(dataset))
  {
    var parts := Components(dataset);
    SplitPieces(dataset, '/');
    if ValidPath(parts) {
      NoEmptyComponent(dataset);
      JoinSplit(dataset, '/');
      forall i | 0 <= i < |dataset| ensures dataset[i] !in FORBIDDEN {
        if dataset[i] != '/' {
          var part := JoinedCharacter(parts, '/', i);
        }
      }
    }
    if ValidDatasetName(dataset) {
      forall part | part in parts ensures ValidComponent(part) {
        forall i | 0 <= i < |part| ensures part[i] != '/' && part[i] !in FORBIDDEN && !IsControl(part[i]) {
          assert part[i] in part && part[i] in dataset;
        }
      }
    }
  }

  /** What separates snapshots and bookmarks from datasets. */
  predicate ZfsMark(c: char) {
    c == '@' || c == '#'
  }

  /** What a shell takes for an operator, a substitution, a quotation or a pattern. */
  predicate ShellMark(c: char) {
    || c == ';' || c == '|' || c == '&' || c == '<' || c == '>' || c == '(' || c == ')'
    || c == '`' || c == '$' || c == '\\' || c == '"' || c == '\'' || c == '*' || c == '?' || c == '['
  }

  lemma ComponentOfOne(c: char)
    ensures ValidComponent([c]) <==> c != '/' && c != '.' && c !in FORBIDDEN && !IsControl(c)
  {
    hide IsControl;
    assert [c] == "." <==> c == '.';
    assert [c][0] == c;
  }

  lemma EmptyComponent()
    ensures !ValidComponent("")
  {
  }

  lemma PathOfOne(c: char)
    ensures ValidPath(Components([c])) <==> c != '/' && ValidComponent([c])
  {
    hide ValidComponent;
    var path := Components([c]);
    if c == '/' {
      assert path[0] == "" && path[0] in path;
      EmptyComponent();
    } else {
      SplitWhole([c], '/');
      assert path == [[c]];
    }
  }

  lemma ForbiddenIff(c: char)
    ensures c in FORBIDDEN <==> c == ' ' || c == '\t' || c == '\r' || c == '\n' || ZfsMark(c) || ShellMark(c)
    ensures c == '\t' || c == '\r' || c == '\n' ==> IsControl(c)
  {
    var f := FORBIDDEN;
    assert f[0] == '@' && f[1] == '#' && f[2] == ' ' && f[3] == '\t' && f[4] == '\r' && f[5] == '\n' && f[6] == ';';
    assert f[7] == '|' && f[8] == '&' && f[9] == '`' && f[10] == '$' && f[11] == '(' && f[12] == ')' && f[13] == '<';
    assert f[14] == '>' && f[15] == '\\' && f[16] == '"' && f[17] == '\'' && f[18] == '*' && f[19] == '?' && f[20] == '[';
  }

  /** A character by itself names a dataset exactly when it has no meaning of its own. */
  lemma CharacterIff(c: char)
    ensures ValidDatasetName([c]) <==> c != '/' && c != '.' && c != ' ' && !IsControl(c) && !ZfsMark(c) && !ShellMark(c)
  {
    hide *;
    ValidByComponents([c]);
    ComponentOfOne(c);
    ForbiddenIff(c);
    PathOfOne(c);
  }

  /** Writing a valid path out and reading it back. */
  lemma PathRoundTrip(path: seq<string>)
    requires ValidPath(path)
    ensures ValidDatasetName(Join(path, '/')) && Components(Join(path, '/')) == path
  {
    SplitJoin(path, '/');
    ValidByComponents(Join(path, '/'));
  }

  /** Containment by string prefix is containment of paths. */
  lemma ContainmentIsPathPrefix(value: string, target: string)
    ensures DatasetOrChild(value, target) <==>
      ValidDatasetName(value) && ValidDatasetName(target) && Components(target) <= Components(value)
  {
    var v, t := Components(value), Components(target);
    JoinSplit(value, '/');
    JoinSplit(target, '/');
    if target + "/" <= value {
      var rest := value[|target| + 1..];
      assert value == target + ['/'] + rest;
      SplitConcat(target, rest, '/');
    }
    if t <= v && t != v {
      assert v == t + v[|t|..];
      JoinConcat(t, v[|t|..], '/');
    }
  }

  lemma ContainmentIsPartialOrder(a: string, b: string, c: string)
    requires ValidDatasetName(a)
    ensures DatasetOrChild(a, a)
    ensures DatasetOrChild(a, b) && DatasetOrChild(b, a) ==> a == b
    ensures DatasetOrChild(a, b) && DatasetOrChild(b, c) ==> DatasetOrChild(a, c)
  {
    ContainmentIsPathPrefix(a, a);
    ContainmentIsPathPrefix(a, b);
    ContainmentIsPathPrefix(b, a);
    ContainmentIsPathPrefix(b, c);
    ContainmentIsPathPrefix(a, c);
    JoinSplit(a, '/');
    JoinSplit(b, '/');
  }

  lemma {:induction false} PoolIsFirstComponent(dataset: string)
    ensures TargetPool(dataset) == Components(dataset)[0]
  {
    if dataset != "" && dataset[0] != '/' {
      PoolIsFirstComponent(dataset[1..]);
    }
  }

  /** Two targets overlap exactly when one path is a prefix of the other; overlap implies one pool. */
  lemma OverlapIsPathPrefix(a: string, b: string)
    ensures TargetDatasetsOverlap(a, b) <==>
      && ValidDatasetName(a) && ValidDatasetName(b)
      && (Components(a) <= Components(b) || Components(b) <= Components(a))
    ensures TargetDatasetsOverlap(a, b) ==> TargetPool(a) == TargetPool(b)
  {
    ContainmentIsPathPrefix(a, b);
    ContainmentIsPathPrefix(b, a);
    PoolIsFirstComponent(a);
    PoolIsFirstComponent(b);
  }
}
