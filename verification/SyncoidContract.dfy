/** The Syncoid Replication Contract: one run's sender invocation and its receive permission
    (internal/syncoid/contract.go). */
module SyncoidContract {
  import opened Text
  import opened Datasets
  import opened Compression

  // ----- Snapshot ownership -----

  predicate ValidIdentifier(identifier: string) {
    identifier != "" && forall i :: 0 <= i < |identifier| ==> ValidSnapshotRune(identifier[i])
  }

  predicate SnapshotOwnedByIdentifier(snapshot: string, identifier: string) {
    && ValidIdentifier(identifier)
    && ValidSnapshotName(snapshot)
    && "syncoid_" + identifier + "_" <= snapshot
  }

  /** Identifiers of one length never own the same snapshot. */
  lemma OwnershipIsDisjoint(snapshot: string, a: string, b: string)
    requires SnapshotOwnedByIdentifier(snapshot, a) && SnapshotOwnedByIdentifier(snapshot, b)
    requires |a| == |b|
    ensures a == b
  {
    var n := |"syncoid_"|;
    assert snapshot[n..n + |a|] == a;
    assert snapshot[n..n + |b|] == b;
  }

  // ----- The two sides -----

  datatype SyncoidSpec = SyncoidSpec(
    noSyncSnap: Option<bool>,
    noRollback: Option<bool>,
    forceDelete: Option<bool>,
    deleteTargetSnapshots: Option<bool>,
    compress: string,
    receiveUnmounted: Option<bool>,
    receiveResumable: Option<bool>,
    includeSnaps: seq<string>,
    excludeSnaps: seq<string>)

  datatype RunSpec = RunSpec(sourceDataset: string, targetDataset: string, syncoid: SyncoidSpec)

  datatype Options = Options(
    noSyncSnap: bool,
    noRollback: bool,
    forceDelete: bool,
    deleteTargetSnapshots: bool,
    compression: string,
    identifier: string,
    receiveUnmounted: bool,
    receiveResumable: bool,
    includeSnapshots: seq<string>,
    excludeSnapshots: seq<string>)

  datatype ReceiverPolicy = ReceiverPolicy(
    receiveUnmounted: bool,
    receiveResumable: bool,
    allowRollback: bool,
    allowDestroy: bool,
    allowMount: bool,
    allowSyncSnapshotDestroy: bool,
    allowTargetSnapshotDestroy: bool,
    syncSnapshotIdentifier: string,
    compression: string)

  datatype Contract = Contract(sourceDataset: string, targetDataset: string, options: Options, receiverPolicy: ReceiverPolicy)

  datatype ContractError = InvalidSource | InvalidTarget | UnsupportedCompression

  function BoolDefault(value: Option<bool>, fallback: bool): bool {
    match value case None => fallback case Some(b) => b
  }

  /** The nonblank trimmed lines of one pattern list, in order. */
  function NonBlank(lines: seq<string>): (kept: seq<string>) {
    if lines == [] then []
    else (if TrimSpace(lines[0]) == "" then [] else [TrimSpace(lines[0])]) + NonBlank(lines[1..])
  }

  function NormalizePatterns(patterns: seq<string>): (kept: seq<string>) {
    if patterns == [] then [] else NonBlank(Split(patterns[0], '\n')) + NormalizePatterns(patterns[1..])
  }

  lemma {:induction false} NonBlankKeeps(lines: seq<string>)
    ensures "" !in NonBlank(lines)
  {
    hide TrimSpace;
    if lines != [] {
      NonBlankKeeps(lines[1..]);
    }
  }

  /** No pattern is kept empty. */
  lemma {:induction false} PatternsAreFilled(patterns: seq<string>)
    ensures "" !in NormalizePatterns(patterns)
  {
    hide NonBlank, Split;
    if patterns != [] {
      NonBlankKeeps(Split(patterns[0], '\n'));
      PatternsAreFilled(patterns[1..]);
    }
  }

  lemma {:induction false} NonBlankConcat(a: seq<string>, b: seq<string>)
    ensures NonBlank(a + b) == NonBlank(a) + NonBlank(b)
  {
    hide TrimSpace;
    if a == [] {
      assert a + b == b;
    } else {
      assert (a + b)[1..] == a[1..] + b;
      NonBlankConcat(a[1..], b);
    }
  }

  lemma {:induction false} PatternsConcat(a: seq<string>, b: seq<string>)
    ensures NormalizePatterns(a + b) == NormalizePatterns(a) + NormalizePatterns(b)
  {
    hide NonBlank, Split;
    if a == [] {
      assert a + b == b;
    } else {
      assert (a + b)[1..] == a[1..] + b;
      PatternsConcat(a[1..], b);
    }
  }

  lemma OnePattern(pattern: string)
    ensures NormalizePatterns([pattern]) == NonBlank(Split(pattern, '\n'))
  {
    hide NonBlank, Split;
    assert [pattern][1..] == [];
    assert NormalizePatterns([]) == [];
  }

  lemma OneLine(line: string)
    ensures NonBlank([line]) == if TrimSpace(line) == "" then [] else [TrimSpace(line)]
  {
    hide TrimSpace;
    assert [line][1..] == [];
  }

  /** A list of patterns is normalized pattern by pattern, a pattern line by line, and a line to what is left of it when the
      white space at its ends is taken away, or to nothing. These laws leave no other result. */
  lemma PatternLaws(a: seq<string>, b: seq<string>, first: string, rest: string, line: string)
    ensures NormalizePatterns([]) == []
    ensures NormalizePatterns(a + b) == NormalizePatterns(a) + NormalizePatterns(b)
    ensures NormalizePatterns([first + "\n" + rest]) == NormalizePatterns([first]) + NormalizePatterns([rest])
    ensures '\n' !in line ==> NormalizePatterns([line]) == if TrimSpace(line) == "" then [] else [TrimSpace(line)]
  {
    PatternsConcat(a, b);
    OnePattern(first + "\n" + rest);
    OnePattern(first);
    OnePattern(rest);
    OnePattern(line);
    SplitConcat(first, rest, '\n');
    assert first + ['\n'] + rest == first + "\n" + rest;
    hide NonBlank, Split, TrimSpace;
    NonBlankConcat(Split(first, '\n'), Split(rest, '\n'));
    if '\n' !in line {
      SplitWhole(line, '\n');
      OneLine(line);
    }
  }

  method NormalizeSnapshotPatterns(patterns: seq<string>) returns (normalized: seq<string>)
    ensures normalized == NormalizePatterns(patterns)
  {
    hide Split, TrimSpace;
    normalized := [];
    assert patterns[0..] == patterns;
    for i := 0 to |patterns|
      invariant normalized + NormalizePatterns(patterns[i..]) == NormalizePatterns(patterns)
    {
      var lines := Split(patterns[i], '\n');
      assert patterns[i..][0] == patterns[i] && patterns[i..][1..] == patterns[i + 1..];
      ghost var before := normalized;
      assert lines[0..] == lines;
      for j := 0 to |lines|
        invariant normalized + NonBlank(lines[j..]) == before + NonBlank(lines)
      {
        assert lines[j..][0] == lines[j] && lines[j..][1..] == lines[j + 1..];
        var line := TrimSpace(lines[j]);
        if line != "" {
          normalized := normalized + [line];
        }
      }
      assert lines[|lines|..] == [];
      assert normalized == before + NonBlank(lines);
    }
    assert patterns[|patterns|..] == [];
  }

  function Normalize(spec: SyncoidSpec): (options: Options) {
    Options(
      BoolDefault(spec.noSyncSnap, false),
      BoolDefault(spec.noRollback, true),
      BoolDefault(spec.forceDelete, false),
      BoolDefault(spec.deleteTargetSnapshots, false),
      if spec.compress == "" then COMPRESSION_NONE else spec.compress,
      "",
      BoolDefault(spec.receiveUnmounted, true),
      BoolDefault(spec.receiveResumable, true),
      NormalizePatterns(spec.includeSnaps),
      NormalizePatterns(spec.excludeSnaps))
  }

  predicate HexDigest(digest: string) {
    |digest| == 24 && forall i :: 0 <= i < |digest| ==> '0' <= digest[i] <= '9' || 'a' <= digest[i] <= 'f'
  }

  /** `digest` stands for the first twelve bytes, in hexadecimal, of the SHA-256 of the run's relationship. */
  function RelationshipIdentifier(digest: string): (identifier: string) {
    "zrc-" + digest
  }

  lemma RelationshipIdentifierValid(digest: string)
    requires HexDigest(digest)
    ensures ValidIdentifier(RelationshipIdentifier(digest)) && |RelationshipIdentifier(digest)| == 28
  {
    var identifier := RelationshipIdentifier(digest);
    forall i | 0 <= i < |identifier| ensures ValidSnapshotRune(identifier[i]) {
      if i >= 4 {
        assert identifier[i] == digest[i - 4];
      }
    }
  }

  function Translate(run: RunSpec, digest: string): (r: Result<Contract, ContractError>) {
    var options := Normalize(run.syncoid);
    if !ValidDatasetName(run.sourceDataset) then Err(InvalidSource)
    else if !ValidDatasetName(run.targetDataset) then Err(InvalidTarget)
    else if !CompressionSupported(options.compression) then Err(UnsupportedCompression)
    else
      var named := options.(identifier := RelationshipIdentifier(digest));
      Ok(Contract(run.sourceDataset, run.targetDataset, named, ReceiverPolicy(
        named.receiveUnmounted,
        named.receiveResumable,
        !named.noRollback,
        named.forceDelete,
        !named.receiveUnmounted,
        !named.noSyncSnap,
        named.deleteTargetSnapshots,
        named.identifier,
        named.compression)))
  }

  /** The options, word for word from the spec: what is off unless it is asked for, and what is on unless it is refused. */
  predicate OptionsAsked(spec: SyncoidSpec, o: Options) {
    && (o.noSyncSnap <==> spec.noSyncSnap == Some(true))
    && (o.noRollback <==> spec.noRollback != Some(false))
    && (o.forceDelete <==> spec.forceDelete == Some(true))
    && (o.deleteTargetSnapshots <==> spec.deleteTargetSnapshots == Some(true))
    && (o.receiveUnmounted <==> spec.receiveUnmounted != Some(false))
    && (o.receiveResumable <==> spec.receiveResumable != Some(false))
    && o.compression == (if spec.compress == "" then "none" else spec.compress)
    && o.includeSnapshots == NormalizePatterns(spec.includeSnaps)
    && o.excludeSnapshots == NormalizePatterns(spec.excludeSnaps)
  }

  /** The receiver's permissions, from the spec. */
  predicate PermissionsAsked(spec: SyncoidSpec, p: ReceiverPolicy) {
    && (p.receiveUnmounted <==> spec.receiveUnmounted != Some(false))
    && (p.receiveResumable <==> spec.receiveResumable != Some(false))
    && (p.allowRollback <==> spec.noRollback == Some(false))
    && (p.allowDestroy <==> spec.forceDelete == Some(true))
    && (p.allowMount <==> spec.receiveUnmounted == Some(false))
    && (p.allowSyncSnapshotDestroy <==> spec.noSyncSnap != Some(true))
    && (p.allowTargetSnapshotDestroy <==> spec.deleteTargetSnapshots == Some(true))
    && p.compression == (if spec.compress == "" then "none" else spec.compress)
  }

  lemma Asked(value: Option<bool>)
    ensures BoolDefault(value, false) <==> value == Some(true)
    ensures BoolDefault(value, true) <==> value != Some(false)
  {
  }

  lemma NormalizedAsAsked(spec: SyncoidSpec)
    ensures OptionsAsked(spec, Normalize(spec))
    ensures CompressionSupported(Normalize(spec).compression) <==> CompressionSupported(spec.compress)
  {
    assert CompressionSupported("") && CompressionSupported("none");
    Asked(spec.noSyncSnap);
    Asked(spec.noRollback);
    Asked(spec.forceDelete);
    Asked(spec.deleteTargetSnapshots);
    Asked(spec.receiveUnmounted);
    Asked(spec.receiveResumable);
    hide NormalizePatterns, CompressionSupported, BoolDefault;
  }

  lemma SidesAsAsked(run: RunSpec, digest: string)
    requires Translate(run, digest).Ok?
    ensures var c := Translate(run, digest).value;
      && c.sourceDataset == run.sourceDataset && c.targetDataset == run.targetDataset
      && OptionsAsked(run.syncoid, c.options) && PermissionsAsked(run.syncoid, c.receiverPolicy)
      && c.options.identifier == c.receiverPolicy.syncSnapshotIdentifier == "zrc-" + digest
  {
    NormalizedAsAsked(run.syncoid);
    hide ValidDatasetName, NormalizePatterns, CompressionSupported, Normalize;
  }

  /** A run is translated exactly when its datasets are valid and its compression is in the table; then both sides say what the
      spec says, for the datasets it names, under one identifier. */
  lemma TranslatedAsAsked(run: RunSpec, digest: string)
    ensures Translate(run, digest).Ok? <==>
      ValidDatasetName(run.sourceDataset) && ValidDatasetName(run.targetDataset) && CompressionSupported(run.syncoid.compress)
    ensures Translate(run, digest).Err? ==>
      match Translate(run, digest).error
      case InvalidSource => !ValidDatasetName(run.sourceDataset)
      case InvalidTarget => !ValidDatasetName(run.targetDataset)
      case UnsupportedCompression => !CompressionSupported(run.syncoid.compress)
    ensures Translate(run, digest).Ok? ==>
      var c := Translate(run, digest).value;
      && c.sourceDataset == run.sourceDataset && c.targetDataset == run.targetDataset
      && OptionsAsked(run.syncoid, c.options) && PermissionsAsked(run.syncoid, c.receiverPolicy)
      && c.options.identifier == c.receiverPolicy.syncSnapshotIdentifier == "zrc-" + digest
  {
    hide ValidDatasetName, NormalizePatterns, CompressionSupported, OptionsAsked, PermissionsAsked, Normalize;
    NormalizedAsAsked(run.syncoid);
    if Translate(run, digest).Ok? {
      SidesAsAsked(run, digest);
    }
  }

  // ----- The sender's argument vector -----

  datatype Connection = Connection(targetHost: string, sshKeyFile: string, knownHostsFile: string, sshPort: int)

  datatype ConnectionError = NoTargetHost | NoKeyFile | NoKnownHosts | InvalidPort | UnknownCompression

  /** One word of the vector, by what Syncoid takes it for. */
  datatype Argument =
    | NoSyncSnap
    | NoRollback
    | NoPrivilegeElevation
    | Compress(value: string)
    | Identifier(value: string)
    | DeleteTargetSnapshots
    | SshOption(value: string)
    | SshKey(value: string)
    | SshPort(value: string)
    | RecvOptions(value: string)
    | NoResume
    | IncludeSnaps(value: string)
    | ExcludeSnaps(value: string)
    | ForceDelete
    | Positional(value: string)

  function Spell(argument: Argument): (word: string) {
    match argument
    case NoSyncSnap => "--no-sync-snap"
    case NoRollback => "--no-rollback"
    case NoPrivilegeElevation => "--no-privilege-elevation"
    case Compress(v) => "--compress=" + v
    case Identifier(v) => "--identifier=" + v
    case DeleteTargetSnapshots => "--delete-target-snapshots"
    case SshOption(v) => "--sshoption=" + v
    case SshKey(v) => "--sshkey=" + v
    case SshPort(v) => "--sshport=" + v
    case RecvOptions(v) => "--recvoptions=" + v
    case NoResume => "--no-resume"
    case IncludeSnaps(v) => "--include-snaps=" + v
    case ExcludeSnaps(v) => "--exclude-snaps=" + v
    case ForceDelete => "--force-delete"
    case Positional(v) => v
  }

  function SpellAll(arguments: seq<Argument>): (words: seq<string>)
    ensures |words| == |arguments|
    ensures forall i :: 0 <= i < |arguments| ==> words[i] == Spell(arguments[i])
  {
    if arguments == [] then [] else [Spell(arguments[0])] + SpellAll(arguments[1..])
  }

  function Decimal(n: nat): (digits: string) {
    (if n < 10 then "" else Decimal(n / 10)) + [("0123456789")[n % 10]]
  }

  function If(on: bool, argument: Argument): (arguments: seq<Argument>) {
    if on then [argument] else []
  }

  function Includes(patterns: seq<string>): (arguments: seq<Argument>) {
    if patterns == [] then [] else [IncludeSnaps(patterns[0])] + Includes(patterns[1..])
  }

  function Excludes(patterns: seq<string>): (arguments: seq<Argument>) {
    if patterns == [] then [] else [ExcludeSnaps(patterns[0])] + Excludes(patterns[1..])
  }

  function ArgumentsFor(contract: Contract, connection: Connection, compression: string): (arguments: seq<Argument>)
    requires connection.sshPort >= 0
  {
    var o := contract.options;
    If(o.noSyncSnap, NoSyncSnap)
    + If(o.noRollback, NoRollback)
    + [NoPrivilegeElevation, Compress(compression), Identifier(o.identifier)]
    + If(o.deleteTargetSnapshots, DeleteTargetSnapshots)
    + [SshOption("UserKnownHostsFile=" + connection.knownHostsFile),
       SshOption("StrictHostKeyChecking=yes"),
       SshOption("IdentitiesOnly=yes"),
       SshKey(connection.sshKeyFile),
       SshPort(Decimal(connection.sshPort))]
    + If(o.receiveUnmounted, RecvOptions("u"))
    + If(!o.receiveResumable, NoResume)
    + Includes(o.includeSnapshots)
    + Excludes(o.excludeSnapshots)
    + If(o.forceDelete, ForceDelete)
    + [Positional(contract.sourceDataset), Positional(connection.targetHost + ":" + contract.targetDataset)]
  }

  method PatternArguments(wanted: seq<string>, unwanted: seq<string>)
    returns (includes: seq<Argument>, excludes: seq<Argument>)
    ensures includes == Includes(wanted) && excludes == Excludes(unwanted)
  {
    includes, excludes := [], [];
    for i := 0 to |wanted|
      invariant includes + Includes(wanted[i..]) == Includes(wanted)
    {
      assert wanted[i..] == [wanted[i]] + wanted[i + 1..];
      includes := includes + [IncludeSnaps(wanted[i])];
    }
    for i := 0 to |unwanted|
      invariant excludes + Excludes(unwanted[i..]) == Excludes(unwanted)
    {
      assert unwanted[i..] == [unwanted[i]] + unwanted[i + 1..];
      excludes := excludes + [ExcludeSnaps(unwanted[i])];
    }
  }

  method AppendIf(arguments: seq<Argument>, on: bool, argument: Argument) returns (result: seq<Argument>)
    ensures result == arguments + If(on, argument)
  {
    result := arguments;
    if on {
      result := result + [argument];
    }
  }

  method Arguments(contract: Contract, connection: Connection, compression: string) returns (result: seq<Argument>)
    requires connection.sshPort >= 0
    ensures result == ArgumentsFor(contract, connection, compression)
  {
    var o := contract.options;
    result := If(o.noSyncSnap, NoSyncSnap);
    result := AppendIf(result, o.noRollback, NoRollback);
    result := result + [NoPrivilegeElevation, Compress(compression), Identifier(o.identifier)];
    result := AppendIf(result, o.deleteTargetSnapshots, DeleteTargetSnapshots);
    result := result + [SshOption("UserKnownHostsFile=" + connection.knownHostsFile),
      SshOption("StrictHostKeyChecking=yes"),
      SshOption("IdentitiesOnly=yes"),
      SshKey(connection.sshKeyFile),
      SshPort(Decimal(connection.sshPort))];
    result := AppendIf(result, o.receiveUnmounted, RecvOptions("u"));
    result := AppendIf(result, !o.receiveResumable, NoResume);
    var includes, excludes := PatternArguments(o.includeSnapshots, o.excludeSnapshots);
    result := result + includes + excludes;
    result := AppendIf(result, o.forceDelete, ForceDelete);
    result := result + [Positional(contract.sourceDataset), Positional(connection.targetHost + ":" + contract.targetDataset)];
  }

  function SenderArguments(contract: Contract, connection: Connection): (r: Result<seq<string>, ConnectionError>)
    ensures r.Ok? <==>
      && connection.targetHost != "" && connection.sshKeyFile != "" && connection.knownHostsFile != ""
      && 0 < connection.sshPort < 65536 && CompressionSupported(contract.options.compression)
    ensures r == Err(InvalidPort) ==> !(0 < connection.sshPort < 65536)
    ensures r == Err(NoTargetHost) <==> connection.targetHost == ""
  {
    if connection.targetHost == "" then Err(NoTargetHost)
    else if connection.sshKeyFile == "" then Err(NoKeyFile)
    else if connection.knownHostsFile == "" then Err(NoKnownHosts)
    else if connection.sshPort < 1 || connection.sshPort > 65535 then Err(InvalidPort)
    else match SpecFor(contract.options.compression)
      case None => Err(UnknownCompression)
      case Some(spec) => Ok(SpellAll(ArgumentsFor(contract, connection, spec.sender)))
  }
}
