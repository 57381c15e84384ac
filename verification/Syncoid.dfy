/** What Syncoid 2.3.0 makes of the sender's argument vector, and the commands it then sends to the receiver
    (cmd/zfsrep-sender/testdata/syncoid-2.3.0). */
module Syncoid {
  import opened Text
  import opened Datasets
  import opened Compression
  import opened SyncoidContract
  import opened CommandRoundTrip
  import opened OptionReading

  // ----- The settings -----

  datatype Settings = Settings(
    compress: string,
    identifier: string,
    recvOptions: string,
    noSyncSnap: bool,
    noRollback: bool,
    noResume: bool,
    noPrivilegeElevation: bool,
    deleteTargetSnapshots: bool,
    forceDelete: bool,
    positional: seq<string>,
    others: seq<string>)

  const DEFAULTS := Settings("default", "", "", false, false, false, false, false, false, [], [])

  function Apply(s: Settings, argument: Argument): (t: Settings) {
    match argument
    case NoSyncSnap => s.(noSyncSnap := true)
    case NoRollback => s.(noRollback := true)
    case NoPrivilegeElevation => s.(noPrivilegeElevation := true)
    case Compress(v) => s.(compress := v)
    case Identifier(v) => s.(identifier := v)
    case DeleteTargetSnapshots => s.(deleteTargetSnapshots := true)
    case RecvOptions(v) => s.(recvOptions := v)
    case NoResume => s.(noResume := true)
    case ForceDelete => s.(forceDelete := true)
    case Positional(v) => s.(positional := s.positional + [v])
    case SshOption(_) => s
    case SshKey(_) => s
    case SshPort(_) => s
    case IncludeSnaps(_) => s
    case ExcludeSnaps(_) => s
  }

  function ApplyAll(s: Settings, arguments: seq<Argument>): (t: Settings)
    decreases |arguments|
  {
    if arguments == [] then s else ApplyAll(Apply(s, arguments[0]), arguments[1..])
  }

  function Settle(s: Settings, given: seq<Given>): (t: Settings)
    decreases |given|
  {
    if given == [] then s
    else match given[0]
      case Ours(argument) => Settle(Apply(s, argument), given[1..])
      case Other(name) => Settle(s.(others := s.others + [name]), given[1..])
  }

  function ReadSettings(words: seq<string>): (s: Option<Settings>) {
    match ReadWords(words)
    case None => None
    case Some(given) => Some(Settle(DEFAULTS, given))
  }

  // ----- user@host:dataset -----

  /** How many characters come before the first at-sign or colon. */
  function PlainLength(text: string): (n: nat)
    ensures n <= |text|
    ensures forall i :: 0 <= i < n ==> text[i] != '@' && text[i] != ':'
    ensures n < |text| ==> text[n] == '@' || text[n] == ':'
  {
    if text == "" || text[0] == '@' || text[0] == ':' then 0 else 1 + PlainLength(text[1..])
  }

  /** getssh: the host, up to the first colon when exactly one at-sign comes before it, and the dataset; otherwise the whole
      word is taken for both. */
  function Remote(word: string): (r: (string, string)) {
    var user := PlainLength(word);
    if user == |word| || word[user] == ':' then (word, word)
    else
      var colon := user + 1 + PlainLength(word[user + 1..]);
      if colon == |word| || word[colon] == '@' then (word, word) else (word[..colon], word[colon + 1..])
  }

  function TargetOf(positional: string): (dataset: string) {
    Remote(positional).1
  }

  // ----- What the contract's vector sets -----

  lemma {:induction false} ApplyConcat(s: Settings, a: seq<Argument>, b: seq<Argument>)
    ensures ApplyAll(s, a + b) == ApplyAll(ApplyAll(s, a), b)
    decreases |a|
  {
    if a == [] {
      assert a + b == b;
    } else {
      assert (a + b)[0] == a[0] && (a + b)[1..] == a[1..] + b;
      ApplyConcat(Apply(s, a[0]), a[1..], b);
    }
  }

  lemma {:induction false} ApplyPatterns(s: Settings, patterns: seq<string>)
    ensures ApplyAll(s, Includes(patterns)) == s && ApplyAll(s, Excludes(patterns)) == s
  {
    if patterns != [] {
      ApplyPatterns(s, patterns[1..]);
    }
  }

  lemma ApplyIf(s: Settings, on: bool, argument: Argument)
    ensures ApplyAll(s, If(on, argument)) == if on then Apply(s, argument) else s
  {
  }

  /** The settings Syncoid works with, in terms of the contract. */
  function SettingsOf(contract: Contract, connection: Connection, compression: string): (s: Settings) {
    var o := contract.options;
    Settings(compression, o.identifier, if o.receiveUnmounted then "u" else "",
      o.noSyncSnap, o.noRollback, !o.receiveResumable, true, o.deleteTargetSnapshots, o.forceDelete,
      [contract.sourceDataset, connection.targetHost + ":" + contract.targetDataset], [])
  }

  lemma ApplyThen(s: Settings, a: seq<Argument>, b: seq<Argument>, t: Settings, u: Settings)
    requires ApplyAll(s, a) == t && ApplyAll(t, b) == u
    ensures ApplyAll(s, a + b) == u
  {
    ApplyConcat(s, a, b);
  }

  lemma ApplyCons(s: Settings, argument: Argument, rest: seq<Argument>)
    ensures ApplyAll(s, [argument] + rest) == ApplyAll(Apply(s, argument), rest)
  {
    assert ([argument] + rest)[1..] == rest;
  }

  lemma ApplyNamed(s: Settings, compression: string, identifier: string)
    ensures ApplyAll(s, [NoPrivilegeElevation, Compress(compression), Identifier(identifier)])
      == s.(noPrivilegeElevation := true, compress := compression, identifier := identifier)
  {
    var s1 := s.(noPrivilegeElevation := true);
    var s2 := s1.(compress := compression);
    ApplyCons(s, NoPrivilegeElevation, [Compress(compression), Identifier(identifier)]);
    ApplyCons(s1, Compress(compression), [Identifier(identifier)]);
    ApplyCons(s2, Identifier(identifier), []);
    assert [NoPrivilegeElevation] + [Compress(compression), Identifier(identifier)]
        == [NoPrivilegeElevation, Compress(compression), Identifier(identifier)];
    assert [Compress(compression)] + [Identifier(identifier)] == [Compress(compression), Identifier(identifier)];
    assert [Identifier(identifier)] + [] == [Identifier(identifier)];
  }

  lemma {:induction false} ApplyIgnored(s: Settings, arguments: seq<Argument>)
    requires forall a :: a in arguments ==> a.SshOption? || a.SshKey? || a.SshPort?
    ensures ApplyAll(s, arguments) == s
    decreases |arguments|
  {
    if arguments != [] {
      assert arguments[0] in arguments;
      ApplyIgnored(s, arguments[1..]);
    }
  }

  function SshArguments(connection: Connection): (arguments: seq<Argument>)
    requires connection.sshPort >= 0
  {
    [SshOption("UserKnownHostsFile=" + connection.knownHostsFile),
     SshOption("StrictHostKeyChecking=yes"),
     SshOption("IdentitiesOnly=yes"),
     SshKey(connection.sshKeyFile),
     SshPort(Decimal(connection.sshPort))]
  }

  /** The options before the receive options. */
  function HeadArguments(o: Options, compression: string, connection: Connection): (arguments: seq<Argument>)
    requires connection.sshPort >= 0
  {
    If(o.noSyncSnap, NoSyncSnap) + If(o.noRollback, NoRollback)
    + [NoPrivilegeElevation, Compress(compression), Identifier(o.identifier)]
    + If(o.deleteTargetSnapshots, DeleteTargetSnapshots)
    + SshArguments(connection)
  }

  lemma ApplyHead(o: Options, compression: string, connection: Connection) returns (a: seq<Argument>, t: Settings)
    requires connection.sshPort >= 0
    ensures a == HeadArguments(o, compression, connection)
    ensures t == Settings(compression, o.identifier, "", o.noSyncSnap, o.noRollback, false, true,
      o.deleteTargetSnapshots, false, [], [])
    ensures ApplyAll(DEFAULTS, a) == t
  {
    var named := [NoPrivilegeElevation, Compress(compression), Identifier(o.identifier)];
    var host, strict := "UserKnownHostsFile=" + connection.knownHostsFile, "StrictHostKeyChecking=yes";
    var only, port := "IdentitiesOnly=yes", Decimal(connection.sshPort);
    var ssh := [SshOption(host), SshOption(strict), SshOption(only), SshKey(connection.sshKeyFile), SshPort(port)];
    var s1 := DEFAULTS.(noSyncSnap := o.noSyncSnap);
    var s2 := s1.(noRollback := o.noRollback);
    var s3 := s2.(noPrivilegeElevation := true, compress := compression, identifier := o.identifier);
    t := s3.(deleteTargetSnapshots := o.deleteTargetSnapshots);
    ApplyIf(DEFAULTS, o.noSyncSnap, NoSyncSnap);
    ApplyIf(s1, o.noRollback, NoRollback);
    ApplyNamed(s2, compression, o.identifier);
    ApplyIf(s3, o.deleteTargetSnapshots, DeleteTargetSnapshots);
    ApplyIgnored(t, ssh);
    a := If(o.noSyncSnap, NoSyncSnap) + If(o.noRollback, NoRollback);
    ApplyThen(DEFAULTS, If(o.noSyncSnap, NoSyncSnap), If(o.noRollback, NoRollback), s1, s2);
    ApplyThen(DEFAULTS, a, named, s2, s3);
    a := a + named;
    ApplyThen(DEFAULTS, a, If(o.deleteTargetSnapshots, DeleteTargetSnapshots), s3, t);
    a := a + If(o.deleteTargetSnapshots, DeleteTargetSnapshots);
    ApplyThen(DEFAULTS, a, ssh, t, t);
    a := a + ssh;
  }

  lemma ApplyTail(s: Settings, source: string, target: string)
    ensures ApplyAll(s, [Positional(source), Positional(target)]) == s.(positional := s.positional + [source, target])
  {
    ApplyCons(s, Positional(source), [Positional(target)]);
    ApplyCons(s.(positional := s.positional + [source]), Positional(target), []);
    assert [Positional(source)] + [Positional(target)] == [Positional(source), Positional(target)];
    assert [Positional(target)] + [] == [Positional(target)];
    assert s.positional + [source] + [target] == s.positional + [source, target];
  }

  /** Five more pieces after the prefix `a`. */
  lemma ApplyPieces(a: seq<Argument>, b: seq<Argument>, c: seq<Argument>, d: seq<Argument>, e: seq<Argument>,
                    s: Settings, t: Settings, u: Settings, v: Settings, w: Settings)
    requires ApplyAll(DEFAULTS, a) == s && ApplyAll(s, b) == t && ApplyAll(t, c) == u
    requires ApplyAll(u, d) == v && ApplyAll(v, e) == w
    ensures ApplyAll(DEFAULTS, a + b + c + d + e) == w
  {
    ApplyThen(DEFAULTS, a, b, s, t);
    ApplyThen(DEFAULTS, a + b, c, t, u);
    ApplyThen(DEFAULTS, a + b + c, d, u, v);
    ApplyThen(DEFAULTS, a + b + c + d, e, v, w);
  }

  lemma SettingsFromArguments(contract: Contract, connection: Connection, compression: string)
    requires connection.sshPort >= 0
    ensures ApplyAll(DEFAULTS, ArgumentsFor(contract, connection, compression)) == SettingsOf(contract, connection, compression)
  {
    hide ApplyAll;
    var o := contract.options;
    var a, s0 := ApplyHead(o, compression, connection);
    var s1 := s0.(recvOptions := if o.receiveUnmounted then "u" else "");
    var s2 := s1.(noResume := !o.receiveResumable);
    var s3 := s2.(forceDelete := o.forceDelete);
    var unmounted, resumeOff := If(o.receiveUnmounted, RecvOptions("u")), If(!o.receiveResumable, NoResume);
    var includes, excludes, force := Includes(o.includeSnapshots), Excludes(o.excludeSnapshots), If(o.forceDelete, ForceDelete);
    var target := connection.targetHost + ":" + contract.targetDataset;
    ApplyIf(s0, o.receiveUnmounted, RecvOptions("u"));
    ApplyIf(s1, !o.receiveResumable, NoResume);
    ApplyPatterns(s2, o.includeSnapshots);
    ApplyPatterns(s2, o.excludeSnapshots);
    ApplyIf(s2, o.forceDelete, ForceDelete);
    ApplyTail(s3, contract.sourceDataset, target);
    ApplyPieces(a, unmounted, resumeOff, includes, excludes, s0, s1, s2, s2, s2);
    ApplyThen(DEFAULTS, a + unmounted + resumeOff + includes + excludes, force, s2, s3);
    ApplyThen(DEFAULTS, a + unmounted + resumeOff + includes + excludes + force,
      [Positional(contract.sourceDataset), Positional(target)], s3, SettingsOf(contract, connection, compression));
  }

  // ----- The contract's vector, read back -----

  const RECEIVER_USER := "zfs-recv@"

  /** The connection a sender Job is given: the receiver's user at the address its task names. */
  predicate PodConnection(connection: Connection) {
    && RECEIVER_USER <= connection.targetHost
    && connection.sshKeyFile != "" && connection.knownHostsFile != ""
    && 1 <= connection.sshPort <= 65535
  }

  function HostOf(connection: Connection): (host: string)
    requires PodConnection(connection)
  {
    connection.targetHost[|RECEIVER_USER|..]
  }

  lemma HostIsTheRest(connection: Connection)
    requires PodConnection(connection)
    ensures connection.targetHost == RECEIVER_USER + HostOf(connection)
  {
  }

  /** An address without colon or at-sign, as an IPv6 address is not. */
  predicate PlainHost(host: string) {
    forall c :: c in host ==> c != ':' && c != '@'
  }

  /** The identifier and the patterns of a translated contract are never empty. */
  predicate Filled(o: Options) {
    o.identifier != "" && "" !in o.includeSnapshots && "" !in o.excludeSnapshots
  }

  lemma {:induction false} DecimalDigits(n: nat)
    ensures Decimal(n) != "" && forall c :: c in Decimal(n) ==> '0' <= c <= '9'
    decreases n
  {
    var last := ("0123456789")[n % 10];
    assert '0' <= last <= '9';
    if n >= 10 {
      DecimalDigits(n / 10);
    }
  }

  lemma DecimalIsNumber(n: nat)
    ensures NumberText(Decimal(n)) && Decimal(n) != ""
  {
    DecimalDigits(n);
    var digits := Decimal(n);
    hide Decimal;
    assert digits[0] in digits;
  }

  lemma {:induction false} PatternsReadable(patterns: seq<string>)
    requires "" !in patterns
    ensures forall a :: a in Includes(patterns) || a in Excludes(patterns) ==> Readable(a) && !a.Positional?
  {
    if patterns != [] {
      PatternsReadable(patterns[1..]);
    }
  }

  lemma SpecSender(compression: string)
    requires SpecFor(compression).Some?
    ensures SpecFor(compression).value.sender != ""
  {
  }

  lemma SshReadable(connection: Connection)
    requires PodConnection(connection)
    ensures forall a :: a in SshArguments(connection) ==> Readable(a) && !a.Positional?
  {
    DecimalIsNumber(connection.sshPort);
    hide NumberText, Decimal;
  }

  lemma HeadReadable(o: Options, compression: string, connection: Connection)
    requires PodConnection(connection) && Filled(o) && compression != ""
    ensures forall a :: a in HeadArguments(o, compression, connection) ==> Readable(a) && !a.Positional?
  {
    DecimalIsNumber(connection.sshPort);
    SshReadable(connection);
    hide NumberText, Decimal, PodConnection;
  }

  /** Everything before the two datasets. */
  function OptionArguments(contract: Contract, connection: Connection, compression: string): (arguments: seq<Argument>)
    requires connection.sshPort >= 0
  {
    var all := ArgumentsFor(contract, connection, compression);
    all[..|all| - 2]
  }

  lemma VectorParts(contract: Contract, connection: Connection, compression: string)
    requires PodConnection(connection) && Filled(contract.options) && compression != ""
    ensures ArgumentsFor(contract, connection, compression) == OptionArguments(contract, connection, compression)
      + [Positional(contract.sourceDataset), Positional(connection.targetHost + ":" + contract.targetDataset)]
    ensures forall a :: a in OptionArguments(contract, connection, compression) ==> Readable(a) && !a.Positional?
  {
    HeadReadable(contract.options, compression, connection);
    PatternsReadable(contract.options.includeSnapshots);
    PatternsReadable(contract.options.excludeSnapshots);
    hide Readable, Decimal;
  }

  lemma {:induction false} SpellConcat(a: seq<Argument>, b: seq<Argument>)
    ensures SpellAll(a + b) == SpellAll(a) + SpellAll(b)
  {
    hide Spell;
    assert forall i :: 0 <= i < |a + b| ==> SpellAll(a + b)[i] == (SpellAll(a) + SpellAll(b))[i];
  }

  lemma TwoSpelled(source: string, target: string)
    ensures SpellAll([Positional(source), Positional(target)]) == [source, target]
  {
    var words := SpellAll([Positional(source), Positional(target)]);
    assert words[0] == source && words[1] == target;
  }

  /** The vector is read as its options, and then as its last two words are read. */
  lemma VectorRead(contract: Contract, connection: Connection, compression: string)
    requires PodConnection(connection) && Filled(contract.options) && compression != ""
    ensures ReadWords(SpellAll(ArgumentsFor(contract, connection, compression)))
      == match ReadWords([contract.sourceDataset, connection.targetHost + ":" + contract.targetDataset])
         case None => None
         case Some(more) => Some(OursAll(OptionArguments(contract, connection, compression)) + more)
  {
    assert connection.sshPort >= 0;
    hide *;
    var source, target := contract.sourceDataset, connection.targetHost + ":" + contract.targetDataset;
    var options := OptionArguments(contract, connection, compression);
    VectorParts(contract, connection, compression);
    SpellConcat(options, [Positional(source), Positional(target)]);
    TwoSpelled(source, target);
    ReadPrefix(options, [source, target]);
  }

  lemma {:induction false} SettleOurs(s: Settings, arguments: seq<Argument>, rest: seq<Given>)
    ensures Settle(s, OursAll(arguments) + rest) == Settle(ApplyAll(s, arguments), rest)
    decreases |arguments|
  {
    if arguments == [] {
      assert [] + rest == rest;
    } else {
      var given := OursAll(arguments) + rest;
      assert given[0] == Ours(arguments[0]) && given[1..] == OursAll(arguments[1..]) + rest;
      hide Apply;
      SettleOurs(Apply(s, arguments[0]), arguments[1..], rest);
    }
  }

  lemma OperandAdds(s: Settings, argument: Argument)
    ensures |Apply(s, argument).positional| == |s.positional| + if argument.Positional? then 1 else 0
  {
    match argument
    case Positional(_) =>
    case _ => assert Apply(s, argument).positional == s.positional;
  }

  lemma {:induction false} SettleCounts(s: Settings, given: seq<Given>)
    ensures |Settle(s, given).positional| == |s.positional| + OperandCount(given)
    decreases |given|
  {
    hide Apply;
    if given != [] {
      match given[0]
      case Ours(argument) =>
        OperandAdds(s, argument);
        SettleCounts(Apply(s, argument), given[1..]);
      case Other(name) => SettleCounts(s.(others := s.others + [name]), given[1..]);
    }
  }

  lemma {:induction false} OptionsCountNothing(arguments: seq<Argument>, rest: seq<Given>)
    requires forall a :: a in arguments ==> !a.Positional?
    ensures OperandCount(OursAll(arguments) + rest) == OperandCount(rest)
  {
    if arguments == [] {
      assert [] + rest == rest;
    } else {
      var given := OursAll(arguments) + rest;
      assert arguments[0] in arguments;
      assert given[0] == Ours(arguments[0]) && given[1..] == OursAll(arguments[1..]) + rest;
      OptionsCountNothing(arguments[1..], rest);
    }
  }

  lemma TwoOperandsRead(source: string, target: string)
    requires !OptionLike(source) && !OptionLike(target)
    ensures ReadWords([source, target]) == Some(OursAll([Positional(source), Positional(target)]))
  {
    OneOperandRead(target);
    assert source != "--" && [source, target][1..] == [target];
    var both := [Positional(source), Positional(target)];
    assert both[1..] == [Positional(target)] && [Positional(target)][1..] == [];
    assert OursAll(both[1..]) == [Ours(Positional(target))] + OursAll([]);
    hide OptionLike, Meant, Lower, NameAndValue, OptionText, ReadNamed;
  }

  lemma {:induction false} OursConcat(a: seq<Argument>, b: seq<Argument>)
    ensures OursAll(a + b) == OursAll(a) + OursAll(b)
  {
    if a == [] {
      assert [] + b == b;
    } else {
      assert (a + b)[0] == a[0] && (a + b)[1..] == a[1..] + b;
      OursConcat(a[1..], b);
    }
  }

  lemma TargetIsOperand(connection: Connection, dataset: string)
    requires PodConnection(connection)
    ensures !OptionLike(connection.targetHost + ":" + dataset)
  {
    assert (connection.targetHost + ":" + dataset)[0] == RECEIVER_USER[0];
  }

  /** A source name that begins like an option (a plus, or a dash and something more) leaves Syncoid with fewer than two
      datasets, or makes it refuse the vector. */
  lemma OptionSourceIsMisread(contract: Contract, connection: Connection, compression: string)
    requires PodConnection(connection) && Filled(contract.options) && compression != "" && OptionLike(contract.sourceDataset)
    ensures var s := ReadSettings(SpellAll(ArgumentsFor(contract, connection, compression)));
      s.Some? ==> |s.value.positional| < 2
  {
    var options := OptionArguments(contract, connection, compression);
    var target := connection.targetHost + ":" + contract.targetDataset;
    VectorRead(contract, connection, compression);
    VectorParts(contract, connection, compression);
    TargetIsOperand(connection, contract.targetDataset);
    hide ReadWords, SpellAll, Settle, ArgumentsFor, OptionArguments, OperandCount, OptionLike, PodConnection, Filled, Readable;
    OptionLeavesFewer(contract.sourceDataset, target);
    var read := ReadWords([contract.sourceDataset, target]);
    if read.Some? {
      SettleCounts(DEFAULTS, OursAll(options) + read.value);
      OptionsCountNothing(options, read.value);
    }
  }

  lemma PlusSourceIsRefused(contract: Contract, connection: Connection, compression: string)
    requires PodConnection(connection) && Filled(contract.options) && compression != "" && contract.sourceDataset == "+tank/data"
    ensures ReadSettings(SpellAll(ArgumentsFor(contract, connection, compression))) == None
  {
    VectorRead(contract, connection, compression);
    PlusIsRefused();
    hide ReadWord, SpellAll, ArgumentsFor, OptionArguments, Filled;
  }

  lemma IdentifierSourceTakesTarget(contract: Contract, connection: Connection, compression: string)
    requires PodConnection(connection) && Filled(contract.options) && compression != "" && contract.sourceDataset == "--identifier"
    ensures var s := ReadSettings(SpellAll(ArgumentsFor(contract, connection, compression)));
      s.Some? && s.value.positional == []
  {
    var options := OptionArguments(contract, connection, compression);
    var target := connection.targetHost + ":" + contract.targetDataset;
    VectorRead(contract, connection, compression);
    VectorParts(contract, connection, compression);
    IdentifierTakesTheNext(target);
    var more := [Ours(Identifier(target))];
    assert OperandCount(more) == 0 && DEFAULTS.positional == [];
    hide ReadWords, SpellAll, ArgumentsFor, OptionArguments, Filled, PodConnection, OperandCount, Settle, Readable;
    SettleCounts(DEFAULTS, OursAll(options) + more);
    OptionsCountNothing(options, more);
  }

  lemma SettledSettings(arguments: seq<Argument>)
    ensures Settle(DEFAULTS, OursAll(arguments)) == ApplyAll(DEFAULTS, arguments)
  {
    SettleOurs(DEFAULTS, arguments, []);
    assert OursAll(arguments) + [] == OursAll(arguments);
  }

  lemma SettingsReadAs(words: seq<string>, given: seq<Given>)
    requires ReadWords(words) == Some(given)
    ensures ReadSettings(words) == Some(Settle(DEFAULTS, given))
  {
  }

  lemma OperandSourceIsRead(contract: Contract, connection: Connection, compression: string)
    requires PodConnection(connection) && Filled(contract.options) && compression != "" && !OptionLike(contract.sourceDataset)
    ensures ReadSettings(SpellAll(ArgumentsFor(contract, connection, compression)))
      == Some(SettingsOf(contract, connection, compression))
  {
    var arguments, options := ArgumentsFor(contract, connection, compression), OptionArguments(contract, connection, compression);
    var source, target := contract.sourceDataset, connection.targetHost + ":" + contract.targetDataset;
    assert connection.sshPort >= 0;
    TargetIsOperand(connection, contract.targetDataset);
    hide *;
    VectorRead(contract, connection, compression);
    VectorParts(contract, connection, compression);
    TwoOperandsRead(source, target);
    OursConcat(options, [Positional(source), Positional(target)]);
    SettingsFromArguments(contract, connection, compression);
    SettledSettings(arguments);
    SettingsReadAs(SpellAll(arguments), OursAll(arguments));
  }

  // ----- The vector, word for word -----

  /** Which words the vector has, by what the spec says. */
  predicate Asked(a: Argument, spec: SyncoidSpec, identifier: string, sender: string, source: string, target: string,
                  connection: Connection)
    requires connection.sshPort >= 0
  {
    match a
    case NoSyncSnap => spec.noSyncSnap == Some(true)
    case NoRollback => spec.noRollback != Some(false)
    case NoPrivilegeElevation => true
    case Compress(v) => v == sender
    case Identifier(v) => v == identifier
    case DeleteTargetSnapshots => spec.deleteTargetSnapshots == Some(true)
    case SshOption(v) =>
      v in {"UserKnownHostsFile=" + connection.knownHostsFile, "StrictHostKeyChecking=yes", "IdentitiesOnly=yes"}
    case SshKey(v) => v == connection.sshKeyFile
    case SshPort(v) => v == Decimal(connection.sshPort)
    case RecvOptions(v) => v == "u" && spec.receiveUnmounted != Some(false)
    case NoResume => spec.receiveResumable == Some(false)
    case IncludeSnaps(v) => v in NormalizePatterns(spec.includeSnaps)
    case ExcludeSnaps(v) => v in NormalizePatterns(spec.excludeSnaps)
    case ForceDelete => spec.forceDelete == Some(true)
    case Positional(v) => v == source || v == target
  }

  lemma {:induction false} PatternMembers(patterns: seq<string>, a: Argument)
    ensures a in Includes(patterns) <==> a.IncludeSnaps? && a.value in patterns
    ensures a in Excludes(patterns) <==> a.ExcludeSnaps? && a.value in patterns
  {
    if patterns != [] {
      PatternMembers(patterns[1..], a);
      assert patterns == [patterns[0]] + patterns[1..];
    }
  }

  lemma IfMember(on: bool, argument: Argument, a: Argument)
    ensures a in If(on, argument) <==> on && a == argument
  {
  }

  lemma SshMember(connection: Connection, a: Argument)
    requires connection.sshPort >= 0
    ensures a in SshArguments(connection) <==>
      match a
      case SshOption(v) =>
        v in {"UserKnownHostsFile=" + connection.knownHostsFile, "StrictHostKeyChecking=yes", "IdentitiesOnly=yes"}
      case SshKey(v) => v == connection.sshKeyFile
      case SshPort(v) => v == Decimal(connection.sshPort)
      case _ => false
  {
    hide Decimal;
  }

  lemma HeadMember(o: Options, compression: string, connection: Connection, a: Argument)
    requires connection.sshPort >= 0
    ensures a in HeadArguments(o, compression, connection) <==>
      match a
      case NoSyncSnap => o.noSyncSnap
      case NoRollback => o.noRollback
      case NoPrivilegeElevation => true
      case Compress(v) => v == compression
      case Identifier(v) => v == o.identifier
      case DeleteTargetSnapshots => o.deleteTargetSnapshots
      case _ => a in SshArguments(connection)
  {
    SshMember(connection, a);
    IfMember(o.noSyncSnap, NoSyncSnap, a);
    IfMember(o.noRollback, NoRollback, a);
    IfMember(o.deleteTargetSnapshots, DeleteTargetSnapshots, a);
    hide If, SshArguments, Decimal;
  }

  function TailArguments(o: Options, source: string, target: string): (arguments: seq<Argument>) {
    If(o.receiveUnmounted, RecvOptions("u")) + If(!o.receiveResumable, NoResume)
    + Includes(o.includeSnapshots) + Excludes(o.excludeSnapshots)
    + If(o.forceDelete, ForceDelete) + [Positional(source), Positional(target)]
  }

  lemma TailMember(o: Options, source: string, target: string, a: Argument)
    ensures a in TailArguments(o, source, target) <==>
      match a
      case RecvOptions(v) => o.receiveUnmounted && v == "u"
      case NoResume => !o.receiveResumable
      case IncludeSnaps(v) => v in o.includeSnapshots
      case ExcludeSnaps(v) => v in o.excludeSnapshots
      case ForceDelete => o.forceDelete
      case Positional(v) => v == source || v == target
      case _ => false
  {
    IfMember(o.receiveUnmounted, RecvOptions("u"), a);
    IfMember(!o.receiveResumable, NoResume, a);
    IfMember(o.forceDelete, ForceDelete, a);
    PatternMembers(o.includeSnapshots, a);
    PatternMembers(o.excludeSnapshots, a);
    hide If, Includes, Excludes;
  }

  lemma VectorIsHeadAndTail(contract: Contract, connection: Connection, compression: string, a: Argument)
    requires connection.sshPort >= 0
    ensures var o := contract.options;
      a in ArgumentsFor(contract, connection, compression) <==>
        a in HeadArguments(o, compression, connection)
        || a in TailArguments(o, contract.sourceDataset, connection.targetHost + ":" + contract.targetDataset)
  {
    hide If, Includes, Excludes, Decimal;
  }

  /** The vector has exactly the words the spec asks for. */
  lemma VectorMember(contract: Contract, connection: Connection, compression: string, spec: SyncoidSpec, a: Argument)
    requires connection.sshPort >= 0 && OptionsAsked(spec, contract.options)
    ensures a in ArgumentsFor(contract, connection, compression) <==>
      Asked(a, spec, contract.options.identifier, compression, contract.sourceDataset,
            connection.targetHost + ":" + contract.targetDataset, connection)
  {
    VectorIsHeadAndTail(contract, connection, compression, a);
    HeadMember(contract.options, compression, connection, a);
    TailMember(contract.options, contract.sourceDataset, connection.targetHost + ":" + contract.targetDataset, a);
    SshMember(connection, a);
    hide ArgumentsFor, HeadArguments, TailArguments, SshArguments, NormalizePatterns, Decimal;
  }

  lemma {:induction false} OursMember(arguments: seq<Argument>, given: Given)
    ensures given in OursAll(arguments) <==> given.Ours? && given.argument in arguments
  {
    if arguments != [] {
      OursMember(arguments[1..], given);
      assert arguments == [arguments[0]] + arguments[1..];
    }
  }

  lemma TranslatedIsFilled(run: RunSpec, digest: string)
    requires Translate(run, digest).Ok?
    ensures Filled(Translate(run, digest).value.options)
  {
    PatternsAreFilled(run.syncoid.includeSnaps);
    PatternsAreFilled(run.syncoid.excludeSnaps);
    hide ValidDatasetName, CompressionSupported, NormalizePatterns;
  }

  lemma OperandVectorRead(contract: Contract, connection: Connection, compression: string)
    requires PodConnection(connection) && Filled(contract.options) && compression != "" && !OptionLike(contract.sourceDataset)
    ensures ReadWords(SpellAll(ArgumentsFor(contract, connection, compression)))
      == Some(OursAll(ArgumentsFor(contract, connection, compression)))
  {
    assert connection.sshPort >= 0;
    var options := OptionArguments(contract, connection, compression);
    var source, target := contract.sourceDataset, connection.targetHost + ":" + contract.targetDataset;
    TargetIsOperand(connection, contract.targetDataset);
    hide *;
    VectorRead(contract, connection, compression);
    VectorParts(contract, connection, compression);
    TwoOperandsRead(source, target);
    OursConcat(options, [Positional(source), Positional(target)]);
  }

  lemma SenderOf(run: RunSpec, digest: string)
    requires Translate(run, digest).Ok?
    ensures var c := Translate(run, digest).value;
      && SpecFor(c.options.compression).Some? && SpecFor(run.syncoid.compress).Some?
      && SpecFor(c.options.compression).value.sender == SpecFor(run.syncoid.compress).value.sender
  {
    TranslatedAsAsked(run, digest);
    hide ValidDatasetName, NormalizePatterns, Translate;
  }

  lemma PortIsNatural(connection: Connection)
    requires PodConnection(connection)
    ensures connection.sshPort >= 0
  {
  }

  lemma SenderVector(contract: Contract, connection: Connection, compression: string)
    requires PodConnection(connection) && SpecFor(contract.options.compression).Some?
    requires compression == SpecFor(contract.options.compression).value.sender
    ensures SenderArguments(contract, connection) == Ok(SpellAll(ArgumentsFor(contract, connection, compression)))
  {
    hide SpellAll, ArgumentsFor, SpecFor;
  }

  /** For every run that is translated, from a source that does not begin like an option: what Syncoid reads in its vector is
      exactly what the run's own spec asks for, and nothing else. */
  lemma VectorSays(run: RunSpec, digest: string, connection: Connection, given: Given)
    requires Translate(run, digest).Ok? && PodConnection(connection) && !OptionLike(run.sourceDataset)
    ensures SpecFor(run.syncoid.compress).Some?
    ensures SenderArguments(Translate(run, digest).value, connection).Ok?
    ensures var read := ReadWords(SenderArguments(Translate(run, digest).value, connection).value);
      && read.Some?
      && (given in read.value <==>
            && given.Ours?
            && Asked(given.argument, run.syncoid, "zrc-" + digest, SpecFor(run.syncoid.compress).value.sender, run.sourceDataset,
                     connection.targetHost + ":" + run.targetDataset, connection))
  {
    hide *;
    TranslatedAsAsked(run, digest);
    var contract := Translate(run, digest).value;
    SenderOf(run, digest);
    TranslatedIsFilled(run, digest);
    var compression := SpecFor(run.syncoid.compress).value.sender;
    SpecSender(run.syncoid.compress);
    PortIsNatural(connection);
    SenderVector(contract, connection, compression);
    OperandVectorRead(contract, connection, compression);
    OursMember(ArgumentsFor(contract, connection, compression), given);
    if given.Ours? {
      VectorMember(contract, connection, compression, run.syncoid, given.argument);
    }
  }

  // ----- The target, read back -----

  lemma PlainLengthIs(text: string, n: nat)
    requires n < |text| && (text[n] == '@' || text[n] == ':')
    requires forall i :: 0 <= i < n ==> text[i] != '@' && text[i] != ':'
    ensures PlainLength(text) == n
  {
  }

  /** Syncoid finds the dataset exactly when the address has no colon and no at-sign; then it finds the host, too. */
  lemma TargetReadIff(host: string, dataset: string)
    ensures var word := RECEIVER_USER + host + ":" + dataset;
      && (TargetOf(word) == dataset <==> PlainHost(host))
      && (PlainHost(host) ==> Remote(word) == (RECEIVER_USER + host, dataset))
  {
    var word, tail := RECEIVER_USER + host + ":" + dataset, host + ":" + dataset;
    PlainLengthIs(word, 8);
    assert word[9..] == tail;
    var n := PlainLength(tail);
    if PlainHost(host) {
      assert forall i :: 0 <= i < |host| ==> tail[i] == host[i] && host[i] in host;
      PlainLengthIs(tail, |host|);
      assert word[..9 + |host|] == RECEIVER_USER + host && word[9 + |host| + 1..] == dataset;
    } else {
      var c :| c in host && (c == ':' || c == '@');
      var i :| 0 <= i < |host| && host[i] == c;
      assert tail[i] == host[i] && n <= i;
      assert word[9 + n] == tail[n];
    }
  }

  lemma FirstColonOf(host: string) returns (n: nat)
    requires ':' in host && '@' !in host
    ensures n < |host| && host[n] == ':' && forall i :: 0 <= i < n ==> host[i] != ':' && host[i] != '@'
  {
    var first :| 0 <= first < |host| && host[first] == ':';
    n := PlainLength(host);
    assert n <= first && host[n] in host;
  }

  lemma WordAfterUser(host: string, dataset: string)
    ensures (RECEIVER_USER + host + ":" + dataset)[9..] == host + ":" + dataset
    ensures (RECEIVER_USER + host + ":" + dataset)[8] == '@'
    ensures forall i :: 0 <= i < 8 ==> RECEIVER_USER[i] != '@' && RECEIVER_USER[i] != ':'
  {
    assert |RECEIVER_USER| == 9;
  }

  /** An address with a colon, as IPv6 addresses have, is cut at the first one; what follows goes to the dataset. */
  lemma AddressIsCut(host: string, dataset: string) returns (n: nat)
    requires ':' in host && '@' !in host
    ensures n < |host| && host[n] == ':' && ':' !in host[..n]
    ensures Remote(RECEIVER_USER + host + ":" + dataset) == (RECEIVER_USER + host[..n], host[n + 1..] + ":" + dataset)
  {
    n := FirstColonOf(host);
    WordAfterUser(host, dataset);
    var word, tail := RECEIVER_USER + host + ":" + dataset, host + ":" + dataset;
    PlainLengthIs(word, 8);
    PlainLengthIs(tail, n);
    assert word[9 + n] == tail[n] == ':';
    hide PlainLength;
    assert word[..9 + n] == RECEIVER_USER + host[..n] && word[9 + n + 1..] == host[n + 1..] + ":" + dataset;
  }

  /** Syncoid understands the whole vector as the contract meant it exactly when the source name does not begin like an
      option; and it finds the target in it exactly when the address is plain. */
  lemma SyncoidReadsContract(contract: Contract, connection: Connection)
    requires PodConnection(connection) && SpecFor(contract.options.compression).Some? && Filled(contract.options)
    ensures SenderArguments(contract, connection).Ok?
    ensures var s := ReadSettings(SenderArguments(contract, connection).value);
      if OptionLike(contract.sourceDataset) then s.Some? ==> |s.value.positional| < 2
      else s == Some(SettingsOf(contract, connection, SpecFor(contract.options.compression).value.sender))
    ensures TargetOf(connection.targetHost + ":" + contract.targetDataset) == contract.targetDataset <==> PlainHost(HostOf(connection))
  {
    var compression := SpecFor(contract.options.compression).value.sender;
    SpecSender(contract.options.compression);
    assert connection.targetHost == RECEIVER_USER + HostOf(connection);
    hide SpecFor, ReadSettings, ArgumentsFor, SpellAll, OptionLike, TargetOf, PlainHost, Filled, SettingsOf;
    TargetReadIff(HostOf(connection), contract.targetDataset);
    if OptionLike(contract.sourceDataset) {
      OptionSourceIsMisread(contract, connection, compression);
    } else {
      OperandSourceIsRead(contract, connection, compression);
    }
  }

  // ----- The commands sent to the receiver -----

  datatype Stage = Stage(name: string, args: string)

  /** compressargset: the decompression command for a --compress value; the empty name means none. */
  function Decompression(compress: string): (stage: Stage) {
    if compress == "none" then Stage("", "")
    else if compress == "gzip" then Stage("zcat", "")
    else if compress == "pigz-fast" || compress == "pigz-slow" then Stage("pigz", "-dc")
    else if compress == "zstd-fast" || compress == "zstd-slow" then Stage("zstd", "-dc")
    else if compress == "zstdmt-fast" || compress == "zstdmt-slow" then Stage("zstdmt", "-dc")
    else if compress == "xz" then Stage("xz", "-d")
    else if compress == "lz4" then Stage("lz4", "-dc")
    else Stage("lzop", "-dfc")
  }

  function Sudo(s: Settings): (command: string) {
    if s.noPrivilegeElevation then "" else "sudo"
  }

  function TextIf(on: bool, text: string): (t: string) {
    if on then text else ""
  }

  function ReceiveOptionsText(s: Settings, resume: bool): (text: string) {
    TextIf(s.recvOptions == "u", "-u ") + TextIf(resume, " -s") + TextIf(!s.noRollback, " -F")
  }

  const MBUFFER_TEXT := " mbuffer  -q -s 128k -m 16M |"

  function DecompressionText(stage: Stage): (text: string) {
    " " + stage.name + " " + stage.args + " |"
  }

  function ReceiveText(s: Settings, target: string, resume: bool): (text: string) {
    " " + Sudo(s) + " zfs receive " + ReceiveOptionsText(s, resume) + " " + QuoteWord(target) + " 2>&1"
  }

  /** buildsynccmd, the part run on a remote target; it is the same whether the source is local or remote. `mbuffer` and
      `compress` say what was found available. */
  function ReceiveCommand(s: Settings, target: string, mbuffer: bool, compress: bool, resume: bool): (text: string) {
    TextIf(mbuffer, MBUFFER_TEXT)
    + TextIf(compress, DecompressionText(Decompression(s.compress)))
    + ReceiveText(s, target, resume)
  }

  /** pruneoldsyncsnaps, one command: one destroy per snapshot, the last separator stripped. */
  function PruneCommand(s: Settings, target: string, snaps: seq<string>): (text: string)
    requires snaps != []
  {
    var one := Sudo(s) + " zfs destroy " + QuoteWord(target) + "@" + snaps[0];
    if |snaps| == 1 then one else one + "; " + PruneCommand(s, target, snaps[1..])
  }

  /** --force-delete when no snapshot matches; the trailing separator stays. */
  function ForceDestroyCommand(s: Settings, target: string): (text: string) {
    Sudo(s) + " zfs destroy -r " + QuoteWord(target) + "; "
  }

  /** --delete-target-snapshots: one destroy for a list of snapshots. */
  function DeleteSnapshotsCommand(s: Settings, target: string, snaps: seq<string>): (text: string) {
    Sudo(s) + " zfs destroy " + QuoteWord(target) + "@" + Join(snaps, ',')
  }

  /** resetreceivestate: abandon a partial receive. */
  function AbortCommand(s: Settings, target: string): (text: string) {
    Sudo(s) + " zfs receive -A " + QuoteWord(target)
  }
}
