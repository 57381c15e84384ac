/** What an admitted plan can do to the receiver's datasets, and that its policy licenses all of it. */
module CommandSoundness {
  import opened Text
  import opened Datasets
  import opened Compression
  import opened CommandParse
  import opened CommandAuthorize
  import opened CommandRoundTrip
  import SyncoidContract

  // ----- What an argument vector does when executed -----

  datatype Effect =
    | Harmless
    | ReadDataset(dataset: string)
    | ReadPool(pool: string)
    | ReceiveInto(dataset: string, options: seq<string>)
    | AbortReceive(dataset: string)
    | DestroyDataset(dataset: string, recursive: bool)
    | DestroySnapshots(dataset: string, names: seq<string>)
    | Unaccounted

  function OperandEffect(operand: string, recursive: bool): (e: Effect) {
    if '@' in operand then
      var (dataset, names, _) := Cut(operand, '@');
      if recursive then Unaccounted else DestroySnapshots(dataset, Split(names, ','))
    else DestroyDataset(operand, recursive)
  }

  function DestroyEffect(args: seq<string>): (e: Effect)
    requires |args| >= 2
  {
    if |args| == 2 then OperandEffect(args[1], false)
    else if |args| == 3 && args[1] == "-r" then OperandEffect(args[2], true)
    else Unaccounted
  }

  function ReceiveEffect(args: seq<string>): (e: Effect)
    requires |args| >= 2
  {
    if |args| == 3 && args[1] == "-A" then AbortReceive(args[2])
    else ReceiveInto(args[|args| - 1], args[1..|args| - 1])
  }

  /** The queries, up to the dataset they ask about: they print properties of it, or of its snapshots, and change nothing. */
  const QUERIES: seq<seq<string>> := [
    ["get", "-H", "name"],
    ["get", "-H", "receive_resume_token"],
    ["get", "-Hpd", "1", "-t", "snapshot", "guid,creation"],
    ["get", "-Hpd", "1", "type,guid,creation"],
    ["get", "-H", "-p", "used"]]

  const FEATURE_QUERY := ["get", "-o", "value", "-H", "feature@extensible_dataset"]

  function QueryEffect(args: seq<string>): (e: Effect)
    requires args != []
  {
    if args[..|args| - 1] in QUERIES then ReadDataset(args[|args| - 1]) else Unaccounted
  }

  function PoolQueryEffect(args: seq<string>): (e: Effect) {
    if args != [] && args[..|args| - 1] == FEATURE_QUERY then ReadPool(args[|args| - 1]) else Unaccounted
  }

  function ZfsEffect(args: seq<string>): (e: Effect) {
    if |args| < 2 then Unaccounted
    else if args[0] == "get" then QueryEffect(args)
    else if args[0] == "receive" then ReceiveEffect(args)
    else if args[0] == "destroy" then DestroyEffect(args)
    else Unaccounted
  }

  /** A size or a percentage. */
  predicate SizeText(v: string) {
    v != "" && forall i :: 0 <= i < |v| ==> v[i] in "0123456789kKmMgG%"
  }

  /** A word that only sets a buffer's size or silences it: it names no file and no address. */
  predicate TuningWord(a: string) {
    || a == "-q" || a == "-Q" || SizeText(a)
    || (|a| >= 2 && a[0] == '-' && a[1] in "smP" && (|a| == 2 || SizeText(a[2..])))
  }

  predicate Tuning(args: seq<string>) {
    forall a :: a in args ==> TuningWord(a)
  }

  /** What decompresses each compression, reading its input and writing its output. */
  const DECOMPRESSIONS: seq<(string, string, seq<string>)> := [
    ("gzip", "zcat", []), ("gzip", "gzip", ["-dc"]), ("pigz", "pigz", ["-dc"]), ("zstd", "zstd", ["-dc"]),
    ("zstdmt", "zstdmt", ["-dc"]), ("xz", "xz", ["-d"]), ("xz", "xz", ["-dc"]), ("xz", "xz", ["-d", "-c"]),
    ("lzop", "lzop", ["-dfc"]), ("lzop", "lzop", ["-dc"]), ("lz4", "lz4", ["-dc"])]

  predicate Decompresses(step: Step) {
    exists c: string :: c in COMPRESSORS && (c, step.name, step.args) in DECOMPRESSIONS
  }

  lemma TableMember(c: string, name: string, args: seq<string>)
    requires (c, name, args) in DECOMPRESSIONS
    ensures Compressed(c) && Invocation(name, args) in SpecFor(c).value.allowed
  {
    var i :| 0 <= i < |DECOMPRESSIONS| && DECOMPRESSIONS[i] == (c, name, args);
    var allowed := SpecFor(c).value.allowed;
    if i == 1 || i == 6 || i == 9 {
      assert allowed[1] == Invocation(name, args);
    } else if i == 7 {
      assert allowed[2] == Invocation(name, args);
    } else {
      assert allowed[0] == Invocation(name, args);
    }
  }

  lemma TableKnows(c: string, name: string, args: seq<string>)
    requires Compressed(c) && Invocation(name, args) in SpecFor(c).value.allowed
    ensures (c, name, args) in DECOMPRESSIONS
  {
    var allowed := SpecFor(c).value.allowed;
    var i :| 0 <= i < |allowed| && allowed[i] == Invocation(name, args);
    var first := if c == "gzip" then 0 else if c == "pigz" then 2 else if c == "zstd" then 3 else if c == "zstdmt" then 4
      else if c == "xz" then 5 else if c == "lzop" then 8 else 10;
    assert DECOMPRESSIONS[first + i] == (c, name, args);
  }

  /** The receiver's table allows exactly these. */
  lemma TableIff(c: string, name: string, args: seq<string>)
    ensures Compressed(c) && Invocation(name, args) in SpecFor(c).value.allowed <==> (c, name, args) in DECOMPRESSIONS
  {
    hide SpecFor, DECOMPRESSIONS;
    if (c, name, args) in DECOMPRESSIONS {
      TableMember(c, name, args);
    }
    if Compressed(c) && Invocation(name, args) in SpecFor(c).value.allowed {
      TableKnows(c, name, args);
    }
  }

  // ----- What mbuffer may be told -----

  /** Silence, or a size for -s, -m or -P, in the same word or the next. */
  datatype BufferOption = Quiet | NoLog | Sized(letter: char, size: string, apart: bool)

  predicate GoodOption(o: BufferOption) {
    o.Sized? ==> o.letter in "smP" && SizeText(o.size)
  }

  function OptionWords(o: BufferOption): (words: seq<string>) {
    match o
    case Quiet => ["-q"]
    case NoLog => ["-Q"]
    case Sized(letter, size, apart) => if apart then [['-', letter], size] else [['-', letter] + size]
  }

  function BufferWords(options: seq<BufferOption>): (words: seq<string>) {
    if options == [] then [] else OptionWords(options[0]) + BufferWords(options[1..])
  }

  /** The words spell a list of such options. */
  ghost predicate Buffers(args: seq<string>) {
    exists options: seq<BufferOption> :: (forall o :: o in options ==> GoodOption(o)) && args == BufferWords(options)
  }

  lemma SizeIff(v: string)
    ensures SafeMbufferValue(v) <==> SizeText(v)
  {
  }

  lemma {:induction false} BufferSpelled(options: seq<BufferOption>)
    requires forall o :: o in options ==> GoodOption(o)
    ensures MbufferArgsAllowed(BufferWords(options))
  {
    if options != [] {
      var o, words, rest := options[0], OptionWords(options[0]), BufferWords(options[1..]);
      BufferSpelled(options[1..]);
      assert (words + rest)[|words|..] == rest;
      if o.Sized? {
        SizeIff(o.size);
        assert o in options;
        if !o.apart {
          assert (['-', o.letter] + o.size)[2..] == o.size;
        }
      }
    }
  }

  lemma {:induction false} BufferRead(args: seq<string>) returns (options: seq<BufferOption>)
    requires MbufferArgsAllowed(args)
    ensures (forall o :: o in options ==> GoodOption(o)) && args == BufferWords(options)
    decreases |args|
  {
    if args == [] {
      return [];
    }
    var first, rest := Quiet, 1;
    if args[0] == "-Q" {
      first := NoLog;
      assert OptionWords(first) == args[..1];
    } else if args[0] == "-s" || args[0] == "-m" || args[0] == "-P" {
      SizeIff(args[1]);
      first, rest := Sized(args[0][1], args[1], true), 2;
      assert OptionWords(first) == args[..2];
    } else if args[0] == "-q" {
      assert OptionWords(first) == args[..1];
    } else {
      SizeIff(args[0][2..]);
      first := Sized(args[0][1], args[0][2..], false);
      assert args[0] == ['-', args[0][1]] + args[0][2..];
      assert OptionWords(first) == args[..1];
    }
    var more := BufferRead(args[rest..]);
    options := [first] + more;
    assert options[1..] == more && args == args[..rest] + args[rest..];
  }

  /** mbuffer's words are let through exactly when they spell such a list. */
  lemma BuffersIff(args: seq<string>)
    ensures MbufferArgsAllowed(args) <==> Buffers(args)
  {
    if MbufferArgsAllowed(args) {
      var options := BufferRead(args);
    }
    if options: seq<BufferOption> :| (forall o :: o in options ==> GoodOption(o)) && args == BufferWords(options) {
      BufferSpelled(options);
    }
  }

  const FEATURE_PATTERNS: seq<string> := ["(active|enabled)", "\\(active\\|enabled\\)"]

  /** The stages that touch no dataset, whatever they are given on their input: the words count, not only the name. */
  predicate Filters(step: Step) {
    || (step.name == "mbuffer" && Tuning(step.args))
    || Decompresses(step)
    || (step.name == "grep" && |step.args| == 1 && step.args[0] in FEATURE_PATTERNS)
    || (step.name == "ps" && step.args == ["-Ao", "args="])
  }

  function StepEffect(step: Step): (e: Effect) {
    if step.name == "zfs" then ZfsEffect(step.args)
    else if step.name == "zpool" then PoolQueryEffect(step.args)
    else if Filters(step) then Harmless
    else Unaccounted
  }

  // ----- What a policy licenses -----

  predicate LicensedOption(option: string, policy: CommandPolicy) {
    || (option == "-u" && policy.receiveUnmounted)
    || (option == "-s" && policy.receiveResumable)
    || (option == "-F" && policy.allowRollback)
  }

  predicate NameCharacter(c: char) {
    c in "_-.:" || '0' <= c <= '9' || 'A' <= c <= 'Z' || 'a' <= c <= 'z'
  }

  predicate NameText(name: string) {
    name != "" && forall i :: 0 <= i < |name| ==> NameCharacter(name[i])
  }

  /** The name Syncoid gives its snapshots under an identifier, up to the host and the time. */
  predicate SyncSnapshot(name: string, identifier: string) {
    NameText(name) && "syncoid_" + identifier + "_" <= name
  }

  /** Any snapshot of the target, or one that Syncoid made under the policy's identifier. */
  predicate LicensedName(name: string, policy: CommandPolicy) {
    && NameText(name) && name != "." && name != ".."
    && (policy.allowTargetSnapshotDestroy
        || (policy.allowSyncSnapshotDestroy && NameText(policy.syncSnapshotIdentifier)
            && SyncSnapshot(name, policy.syncSnapshotIdentifier)))
  }

  lemma NameTextIff(name: string)
    ensures ValidSnapshotName(name) <==> NameText(name) && name != "." && name != ".."
    ensures SyncoidContract.ValidIdentifier(name) <==> NameText(name)
  {
    forall c ensures ValidSnapshotRune(c) <==> NameCharacter(c) {
    }
    hide NameCharacter, ValidSnapshotRune;
  }

  lemma LicensedNameIff(name: string, policy: CommandPolicy)
    ensures SnapshotDestroyLicensed(name, policy) <==> LicensedName(name, policy)
  {
    NameTextIff(name);
    NameTextIff(policy.syncSnapshotIdentifier);
    hide NameText, ValidSnapshotName, SyncoidContract.ValidIdentifier;
  }

  predicate Licensed(e: Effect, policy: CommandPolicy) {
    match e
    case Harmless => true
    case ReadDataset(dataset) => dataset == policy.targetDataset
    case ReadPool(pool) => pool == TargetPool(policy.targetDataset)
    case ReceiveInto(dataset, options) =>
      && dataset == policy.targetDataset
      && (forall option :: option in options ==> LicensedOption(option, policy))
      && ("-u" in options || policy.allowMount)
    case AbortReceive(dataset) => dataset == policy.targetDataset && policy.receiveResumable
    case DestroyDataset(dataset, _) =>
      && policy.allowDestroy
      && ValidDatasetName(dataset)
      && Components(policy.targetDataset) <= Components(dataset)
    case DestroySnapshots(dataset, names) =>
      && dataset == policy.targetDataset
      && forall name :: name in names ==> LicensedName(name, policy)
    case Unaccounted => false
  }

  // ----- Receiving, exactly -----

  lemma FlagLicensed(flag: string, policy: CommandPolicy)
    ensures ReceiveFlagError(flag, policy).None? <==> LicensedOption(flag, policy)
  {
  }

  lemma {:induction false} FlagsLicensed(flags: seq<string>, policy: CommandPolicy)
    ensures ReceiveFlagsError(flags, policy).None? <==>
      forall option :: option in flags ==> LicensedOption(option, policy)
  {
    if flags != [] {
      FlagLicensed(flags[0], policy);
      FlagsLicensed(flags[1..], policy);
      assert forall option :: option in flags <==> option == flags[0] || option in flags[1..];
    }
  }

  /** The odd spelling the trailing abort check still catches: a target named "-A", with stderr redirected. */
  predicate AbortLookalike(step: Step) {
    step.args == ["receive", "-A"] && step.stderrToStdout
  }

  lemma LeadingAbortRefused(flags: seq<string>, policy: CommandPolicy)
    requires flags != [] && flags[0] == "-A"
    ensures ReceiveFlagsError(flags, policy).Some?
  {
  }

  lemma PlainReceiveExact(step: Step, policy: CommandPolicy)
    requires |step.args| >= 2 && step.args[0] == "receive" && !(|step.args| == 3 && step.args[1] == "-A")
    requires ValidDatasetName(policy.targetDataset)
    ensures ReceiveError(step, policy).None? <==> Licensed(ReceiveEffect(step.args), policy) && !AbortLookalike(step)
  {
    hide ValidDatasetName, ReceiveFlagsError, LicensedOption;
    var args := step.args;
    var flags := args[1..|args| - 1];
    FlagsLicensed(flags, policy);
    if |args| > 2 {
      if args[1] == "-A" {
        LeadingAbortRefused(flags, policy);
      }
    } else {
      assert args == ["receive", args[1]];
    }
  }

  /** A zfs receive step is accepted exactly when its effect is licensed. */
  lemma ReceiveAcceptedIffLicensed(step: Step, policy: CommandPolicy)
    requires |step.args| >= 2 && step.args[0] == "receive"
    requires ValidDatasetName(policy.targetDataset)
    ensures ReceiveError(step, policy).None? <==> Licensed(ReceiveEffect(step.args), policy) && !AbortLookalike(step)
  {
    if !(|step.args| == 3 && step.args[1] == "-A") {
      PlainReceiveExact(step, policy);
    }
  }

  // ----- Destroying, exactly -----

  lemma SnapshotListHasNoAt(names: string)
    requires forall name :: name in Split(names, ',') ==> ValidSnapshotName(name)
    ensures '@' !in names
  {
    JoinSplit(names, ',');
    forall i | 0 <= i < |names| ensures names[i] != '@' {
      if names[i] != ',' {
        var part := JoinedCharacter(Split(names, ','), ',', i);
        var j :| 0 <= j < |part| && part[j] == names[i];
        assert ValidSnapshotRune(part[j]);
      }
    }
  }

  lemma SnapshotOperandExact(operand: string, policy: CommandPolicy)
    requires '@' in operand
    ensures Licensed(OperandEffect(operand, false), policy) <==> SnapshotDestroyAllowed(operand, policy)
    ensures !Licensed(OperandEffect(operand, true), policy) && !DatasetDestroyAllowed(operand, policy)
  {
    CutMeaning(operand, '@');
    var (dataset, names, _) := Cut(operand, '@');
    forall name ensures SnapshotDestroyLicensed(name, policy) <==> LicensedName(name, policy) {
      LicensedNameIff(name, policy);
    }
    if forall name :: name in Split(names, ',') ==> SnapshotDestroyLicensed(name, policy) {
      SnapshotListHasNoAt(names);
    }
    hide SnapshotDestroyLicensed, LicensedName, DatasetOrChild;
  }

  lemma DatasetOperandExact(operand: string, recursive: bool, policy: CommandPolicy)
    requires '@' !in operand && ValidDatasetName(policy.targetDataset)
    ensures Licensed(OperandEffect(operand, recursive), policy) <==> DatasetDestroyAllowed(operand, policy)
    ensures !SnapshotDestroyAllowed(operand, policy)
  {
    CutMeaning(operand, '@');
    ContainmentIsPathPrefix(operand, policy.targetDataset);
    hide SnapshotDestroyLicensed, LicensedName, ValidDatasetName, DatasetOrChild;
  }

  lemma OperandExact(operand: string, policy: CommandPolicy)
    requires ValidDatasetName(policy.targetDataset)
    ensures Licensed(OperandEffect(operand, false), policy) <==>
      SnapshotDestroyAllowed(operand, policy) || DatasetDestroyAllowed(operand, policy)
    ensures Licensed(OperandEffect(operand, true), policy) <==> DatasetDestroyAllowed(operand, policy)
  {
    hide *;
    if '@' in operand {
      SnapshotOperandExact(operand, policy);
    } else {
      DatasetOperandExact(operand, false, policy);
      DatasetOperandExact(operand, true, policy);
    }
  }

  lemma DestroyTwoWords(args: seq<string>, policy: CommandPolicy)
    requires |args| == 2 && args[0] == "destroy" && ValidDatasetName(policy.targetDataset)
    ensures ZfsDestroyAllowed(args, policy) <==> Licensed(OperandEffect(args[1], false), policy)
  {
    OperandExact(args[1], policy);
  }

  lemma DestroyThreeWords(args: seq<string>, policy: CommandPolicy)
    requires |args| == 3 && args[0] == "destroy" && ValidDatasetName(policy.targetDataset)
    ensures ZfsDestroyAllowed(args, policy) <==> args[1] == "-r" && Licensed(OperandEffect(args[2], true), policy)
  {
    OperandExact(args[2], policy);
  }

  /** A zfs destroy step is accepted exactly when its effect is licensed. */
  lemma DestroyAcceptedIffLicensed(args: seq<string>, policy: CommandPolicy)
    requires |args| >= 2 && args[0] == "destroy"
    requires ValidDatasetName(policy.targetDataset)
    ensures ZfsDestroyAllowed(args, policy) <==> Licensed(DestroyEffect(args), policy)
  {
    if |args| == 2 {
      DestroyTwoWords(args, policy);
    } else if |args| == 3 {
      DestroyThreeWords(args, policy);
    }
  }

  // ----- Whole plans -----

  function PlanSteps(plan: Plan): (steps: seq<Step>) {
    match plan
    case Pipeline(steps) => steps
    case Batch(plans) => BatchSteps(plans)
    case _ => []
  }

  function BatchSteps(plans: seq<Plan>): (steps: seq<Step>) {
    if plans == [] then [] else PlanSteps(plans[0]) + BatchSteps(plans[1..])
  }

  /** Nothing is changed. */
  predicate Inert(e: Effect) {
    e.Harmless? || e.ReadDataset? || e.ReadPool?
  }

  /** At most three steps, of which only the last may change anything; a batch is 1 to 32 destroys, never nested. */
  predicate PlanShape(plan: Plan) {
    match plan
    case Pipeline(steps) =>
      && 1 <= |steps| <= 3
      && forall i :: 0 <= i < |steps| - 1 ==> Inert(StepEffect(steps[i]))
    case Batch(plans) =>
      && 1 <= |plans| <= MAX_DESTROY_BATCH
      && forall plan :: plan in plans ==> PlanIsDestroy(plan)
    case _ => true
  }

  predicate PlanLicensed(plan: Plan, policy: CommandPolicy) {
    forall step :: step in PlanSteps(plan) ==> Licensed(StepEffect(step), policy)
  }

  /** An accepted mbuffer stage only tunes buffers: it has no word that names a file or an address. */
  lemma {:induction false} MbufferOnlyTunes(args: seq<string>)
    requires MbufferArgsAllowed(args)
    ensures Tuning(args)
    decreases |args|
  {
    if args != [] {
      if args[0] == "-s" || args[0] == "-m" || args[0] == "-P" {
        MbufferOnlyTunes(args[2..]);
        assert forall a :: a in args ==> a == args[0] || a == args[1] || a in args[2..];
      } else {
        MbufferOnlyTunes(args[1..]);
        assert forall a :: a in args ==> a == args[0] || a in args[1..];
      }
    }
  }

  lemma CompressorKey(compression: string)
    requires Compressed(compression)
    ensures compression in COMPRESSORS
  {
  }

  lemma DecompressorIsFilter(step: Step, policy: CommandPolicy)
    requires DecompressorStepAllowed(step, policy)
    ensures Filters(step)
  {
    CompressorKey(policy.compression);
    hide SpecFor, COMPRESSORS;
  }

  lemma FilterIsHarmless(step: Step)
    requires Filters(step) && step.name != "zfs" && step.name != "zpool"
    ensures StepEffect(step).Harmless?
  {
    hide Filters;
  }

  lemma AllowedNames(step: Step, policy: CommandPolicy)
    requires DecompressorStepAllowed(step, policy)
    ensures step.name != "zfs" && step.name != "zpool"
  {
    var allowed := SpecFor(policy.compression).value.allowed;
    var i :| 0 <= i < |allowed| && allowed[i] == Invocation(step.name, step.args);
  }

  lemma EarlierStageIsFilter(step: Step, policy: CommandPolicy)
    requires (step.name == "mbuffer" && MbufferStepAllowed(step)) || DecompressorStepAllowed(step, policy)
    ensures StepEffect(step).Harmless?
  {
    if step.name == "mbuffer" && MbufferStepAllowed(step) {
      MbufferOnlyTunes(step.args);
      hide Tuning, Decompresses;
      FilterIsHarmless(step);
    } else {
      DecompressorIsFilter(step, policy);
      AllowedNames(step, policy);
      FilterIsHarmless(step);
    }
  }

  lemma ReceiveStepEffect(step: Step)
    requires step.name == "zfs" && |step.args| >= 2 && step.args[0] == "receive"
    ensures StepEffect(step) == ReceiveEffect(step.args)
  {
    hide ReceiveEffect, DestroyEffect, Filters;
  }

  lemma ReceiveHasOperand(step: Step, policy: CommandPolicy)
    requires ReceiveError(step, policy).None?
    ensures |step.args| >= 2
  {
    hide ReceiveFlagsError, ValidDatasetName;
  }

  lemma ReceiveStepLicensed(step: Step, policy: CommandPolicy)
    requires ValidDatasetName(policy.targetDataset)
    requires step.name == "zfs" && step.args != [] && step.args[0] == "receive" && ReceiveError(step, policy).None?
    ensures Licensed(StepEffect(step), policy)
  {
    hide *;
    ReceiveHasOperand(step, policy);
    ReceiveAcceptedIffLicensed(step, policy);
    ReceiveStepEffect(step);
  }

  lemma LastStepOnly(steps: seq<Step>, policy: CommandPolicy)
    requires 1 <= |steps| <= 3 && Licensed(StepEffect(steps[|steps| - 1]), policy)
    requires forall i :: 0 <= i < |steps| - 1 ==> Inert(StepEffect(steps[i])) && Licensed(StepEffect(steps[i]), policy)
    ensures PlanShape(Pipeline(steps)) && PlanLicensed(Pipeline(steps), policy)
  {
    forall i | 0 <= i < |steps| ensures Licensed(StepEffect(steps[i]), policy) {
    }
  }

  lemma ReceivePipelineParts(steps: seq<Step>, policy: CommandPolicy)
    requires ReceivePipelineAllowed(steps, policy)
    ensures 1 <= |steps| <= 3
    ensures var last := steps[|steps| - 1];
      last.name == "zfs" && last.args != [] && last.args[0] == "receive" && ReceiveError(last, policy).None?
    ensures forall i :: 0 <= i < |steps| - 1 ==>
      (steps[i].name == "mbuffer" && MbufferStepAllowed(steps[i])) || DecompressorStepAllowed(steps[i], policy)
  {
    hide ReceiveError, MbufferStepAllowed, DecompressorStepAllowed;
  }

  lemma ReceivePipelineLicensed(steps: seq<Step>, policy: CommandPolicy)
    requires ValidDatasetName(policy.targetDataset) && ReceivePipelineAllowed(steps, policy)
    ensures PlanShape(Pipeline(steps)) && PlanLicensed(Pipeline(steps), policy)
  {
    ReceivePipelineParts(steps, policy);
    ReceiveStepLicensed(steps[|steps| - 1], policy);
    forall i | 0 <= i < |steps| - 1 ensures Inert(StepEffect(steps[i])) && Licensed(StepEffect(steps[i]), policy) {
      EarlierStageIsFilter(steps[i], policy);
    }
    LastStepOnly(steps, policy);
  }

  lemma DestroyHasOperand(args: seq<string>, policy: CommandPolicy)
    requires ZfsDestroyAllowed(args, policy)
    ensures |args| >= 2
  {
  }

  lemma EffectOfDestroy(args: seq<string>)
    requires |args| >= 2 && args[0] == "destroy"
    ensures ZfsEffect(args) == DestroyEffect(args)
  {
    hide DestroyEffect, QueryEffect, ReceiveEffect;
    assert |"destroy"| == |"receive"| && "destroy"[0] != "receive"[0];
  }

  lemma DestroyStepLicensed(args: seq<string>, policy: CommandPolicy)
    requires ValidDatasetName(policy.targetDataset) && args != [] && args[0] == "destroy"
    requires ZfsDestroyAllowed(args, policy)
    ensures Licensed(ZfsEffect(args), policy)
  {
    hide *;
    DestroyHasOperand(args, policy);
    DestroyAcceptedIffLicensed(args, policy);
    EffectOfDestroy(args);
  }

  lemma QueryForm(form: seq<string>, args: seq<string>, target: string)
    requires args != []
    ensures args == form + [target] <==> args[..|args| - 1] == form && args[|args| - 1] == target
  {
    if args[..|args| - 1] == form {
      assert args == args[..|args| - 1] + [args[|args| - 1]];
    }
  }

  /** A query is accepted exactly when it is one of the known ones and asks about the policy's dataset. */
  lemma QueryAcceptedIffLicensed(args: seq<string>, policy: CommandPolicy)
    requires args != [] && args[0] == "get"
    ensures ZfsGetAllowed(args, policy.targetDataset) <==> Licensed(ZfsEffect(args), policy)
  {
    var target := policy.targetDataset;
    assert forall i :: 0 <= i < |QUERIES| ==> |QUERIES[i]| >= 3;
    QueryForm(["get", "-H", "name"], args, target);
    QueryForm(["get", "-H", "receive_resume_token"], args, target);
    QueryForm(["get", "-Hpd", "1", "-t", "snapshot", "guid,creation"], args, target);
    QueryForm(["get", "-Hpd", "1", "type,guid,creation"], args, target);
    QueryForm(["get", "-H", "-p", "used"], args, target);
    assert ["get", "-H", "name"] + [target] == ["get", "-H", "name", target];
    assert ["get", "-H", "receive_resume_token"] + [target] == ["get", "-H", "receive_resume_token", target];
    assert ["get", "-Hpd", "1", "-t", "snapshot", "guid,creation"] + [target]
        == ["get", "-Hpd", "1", "-t", "snapshot", "guid,creation", target];
    assert ["get", "-Hpd", "1", "type,guid,creation"] + [target] == ["get", "-Hpd", "1", "type,guid,creation", target];
    assert ["get", "-H", "-p", "used"] + [target] == ["get", "-H", "-p", "used", target];
  }

  lemma ZfsStepLicensed(step: Step, policy: CommandPolicy)
    requires ValidDatasetName(policy.targetDataset) && step.name == "zfs" && ZfsStepError(step, policy).None?
    ensures Licensed(ZfsEffect(step.args), policy)
  {
    hide ZfsGetAllowed, ReceiveError, ZfsDestroyAllowed;
    if step.args[0] == "get" {
      QueryAcceptedIffLicensed(step.args, policy);
    } else if step.args[0] == "receive" {
      ReceiveStepLicensed(step, policy);
    } else if step.args[0] == "destroy" {
      DestroyStepLicensed(step.args, policy);
    }
  }

  lemma ProcessListHarmless(step: Step)
    requires step.name == "ps" && step.args == ["-Ao", "args="]
    ensures StepEffect(step).Harmless?
  {
    hide Tuning, Decompresses;
    FilterIsHarmless(step);
  }

  lemma ZpoolGetLicensed(step: Step, policy: CommandPolicy)
    requires ZpoolFeatureGetAllowed(step, policy)
    ensures StepEffect(step) == ReadPool(TargetPool(policy.targetDataset))
    ensures Inert(StepEffect(step)) && Licensed(StepEffect(step), policy)
  {
    var args := step.args;
    hide TargetPool;
    assert args[..5] == FEATURE_QUERY && args[5] == TargetPool(policy.targetDataset);
  }

  lemma SingleStepCases(step: Step, policy: CommandPolicy)
    requires SingleStepError(step, policy).None?
    ensures || (step.name == "ps" && step.args == ["-Ao", "args="])
            || ZpoolFeatureGetAllowed(step, policy)
            || (step.name == "zfs" && ZfsStepError(step, policy).None?)
  {
    hide ZfsStepError, ZpoolFeatureGetAllowed;
  }

  lemma ZfsEffectOf(step: Step)
    requires step.name == "zfs"
    ensures StepEffect(step) == ZfsEffect(step.args)
  {
    hide ZfsEffect, PoolQueryEffect, Filters;
  }

  lemma HarmlessIsLicensed(e: Effect, policy: CommandPolicy)
    requires e.Harmless?
    ensures Licensed(e, policy)
  {
  }

  lemma SingleStepLicensed(step: Step, policy: CommandPolicy)
    requires ValidDatasetName(policy.targetDataset) && SingleStepError(step, policy).None?
    ensures Licensed(StepEffect(step), policy)
  {
    hide *;
    SingleStepCases(step, policy);
    if step.name == "ps" && step.args == ["-Ao", "args="] {
      ProcessListHarmless(step);
      HarmlessIsLicensed(StepEffect(step), policy);
    } else if ZpoolFeatureGetAllowed(step, policy) {
      ZpoolGetLicensed(step, policy);
    } else {
      ZfsStepLicensed(step, policy);
      ZfsEffectOf(step);
    }
  }

  lemma GrepHarmless(step: Step)
    requires step.name == "grep" && |step.args| == 1 && step.args[0] in FEATURE_PATTERNS
    ensures StepEffect(step).Harmless?
  {
    hide Tuning, Decompresses;
    FilterIsHarmless(step);
  }

  lemma FeatureCheckLicensed(steps: seq<Step>, policy: CommandPolicy)
    requires ZpoolFeatureCheckAllowed(steps, policy)
    ensures PlanShape(Pipeline(steps)) && PlanLicensed(Pipeline(steps), policy)
  {
    ZpoolGetLicensed(steps[0], policy);
    GrepHarmless(steps[1]);
    hide ZpoolFeatureCheckAllowed, StepEffect;
    LastStepOnly(steps, policy);
  }

  lemma BuiltinPlanInert(step: Step, policy: CommandPolicy)
    requires BuiltinPlan(step, policy).Some?
    ensures var plan := BuiltinPlan(step, policy).value; !plan.Pipeline? && !plan.Batch?
  {
  }

  lemma StepsLicensed(steps: seq<Step>, policy: CommandPolicy)
    requires ValidDatasetName(policy.targetDataset) && AuthorizeSteps(steps, policy).Ok?
    ensures var plan := AuthorizeSteps(steps, policy).value; PlanShape(plan) && PlanLicensed(plan, policy) && !plan.Batch?
  {
    hide BuiltinPlan, ZpoolFeatureCheckAllowed, ReceivePipelineAllowed, SingleStepError, StepEffect, Licensed;
    if |steps| == 1 && BuiltinPlan(steps[0], policy).Some? {
      BuiltinPlanInert(steps[0], policy);
    } else if ZpoolFeatureCheckAllowed(steps, policy) {
      FeatureCheckLicensed(steps, policy);
    } else if ReceivePipelineAllowed(steps, policy) {
      ReceivePipelineLicensed(steps, policy);
    } else {
      SingleStepLicensed(steps[0], policy);
      assert steps == [steps[0]];
      LastStepOnly(steps, policy);
    }
  }

  lemma LicenceIgnoresCompression(e: Effect, policy: CommandPolicy)
    ensures Licensed(e, Effective(policy)) <==> Licensed(e, policy)
  {
    var p := Effective(policy);
    assert forall o :: LicensedOption(o, p) <==> LicensedOption(o, policy);
    assert forall n :: LicensedName(n, p) <==> LicensedName(n, policy);
    assert p == policy.(compression := p.compression);
    hide LicensedOption, LicensedName, Effective, ValidDatasetName;
  }

  lemma OneCommandLicensed(text: string, policy: CommandPolicy)
    requires AuthorizeOne(text, policy).Ok?
    ensures var plan := AuthorizeOne(text, policy).value; PlanShape(plan) && PlanLicensed(plan, policy) && !plan.Batch?
  {
    var steps := ParseCommand(text).value;
    StepsLicensed(steps, Effective(policy));
    var plan := AuthorizeOne(text, policy).value;
    forall step | step in PlanSteps(plan) ensures Licensed(StepEffect(step), policy) {
      assert Licensed(StepEffect(step), Effective(policy));
      LicenceIgnoresCompression(StepEffect(step), policy);
    }
  }

  // ----- Batches, exactly -----

  /** The commands of a batch: its parts, without a blank part after the last separator. */
  function BatchCommands(parts: seq<string>): (commands: seq<string>) {
    if parts != [] && TrimSpace(parts[|parts| - 1]) == "" then parts[..|parts| - 1] else parts
  }

  ghost predicate Pointwise(commands: seq<string>, plans: seq<Plan>, authorize: Authorizer) {
    && |plans| == |commands|
    && forall i :: 0 <= i < |commands| ==>
         && TrimSpace(commands[i]) != ""
         && authorize(TrimSpace(commands[i])) == Ok(plans[i])
  }

  lemma BatchCommandsStep(parts: seq<string>)
    requires parts != [] && TrimSpace(parts[0]) != ""
    ensures BatchCommands(parts) == [parts[0]] + BatchCommands(parts[1..])
  {
    if |parts| > 1 {
      assert parts[1..][|parts| - 2] == parts[|parts| - 1];
    }
  }

  lemma PointwiseStep(commands: seq<string>, plans: seq<Plan>, authorize: Authorizer)
    requires commands != [] && plans != []
    ensures Pointwise(commands, plans, authorize) <==>
      && TrimSpace(commands[0]) != "" && authorize(TrimSpace(commands[0])) == Ok(plans[0])
      && Pointwise(commands[1..], plans[1..], authorize)
  {
    if Pointwise(commands[1..], plans[1..], authorize) {
      forall i | 1 <= i < |commands|
        ensures TrimSpace(commands[i]) != "" && authorize(TrimSpace(commands[i])) == Ok(plans[i])
      {
        assert commands[1..][i - 1] == commands[i] && plans[1..][i - 1] == plans[i];
      }
    }
  }

  /** One more part: it is refused, or its plan comes first. */
  lemma PartsStep(parts: seq<string>, done: nat, plans: seq<Plan>, authorize: Authorizer)
    requires done <= MAX_DESTROY_BATCH && parts != [] && TrimSpace(parts[0]) != ""
    ensures AuthorizeParts(parts, done, authorize) == Ok(plans) <==>
      && done < MAX_DESTROY_BATCH && plans != []
      && authorize(TrimSpace(parts[0])) == Ok(plans[0])
      && AuthorizeParts(parts[1..], done + 1, authorize) == Ok(plans[1..])
  {
    hide TrimSpace;
    if plans != [] {
      assert plans == [plans[0]] + plans[1..];
    }
  }

  lemma PointwiseNonempty(commands: seq<string>, plans: seq<Plan>, authorize: Authorizer)
    requires Pointwise(commands, plans, authorize) && commands != []
    ensures plans != []
  {
  }

  lemma PartsPointwiseBlank(parts: seq<string>, done: nat, plans: seq<Plan>, authorize: Authorizer)
    requires done <= MAX_DESTROY_BATCH && (parts == [] || TrimSpace(parts[0]) == "")
    ensures AuthorizeParts(parts, done, authorize) == Ok(plans) <==>
      done + |plans| <= MAX_DESTROY_BATCH && Pointwise(BatchCommands(parts), plans, authorize)
  {
    hide TrimSpace;
    if |parts| > 1 {
      assert BatchCommands(parts)[0] == parts[0];
    }
  }

  lemma {:induction false} PartsPointwise(parts: seq<string>, done: nat, plans: seq<Plan>, authorize: Authorizer)
    requires done <= MAX_DESTROY_BATCH
    ensures AuthorizeParts(parts, done, authorize) == Ok(plans) <==>
      done + |plans| <= MAX_DESTROY_BATCH && Pointwise(BatchCommands(parts), plans, authorize)
    decreases |parts|
  {
    hide *;
    if parts == [] || TrimSpace(parts[0]) == "" {
      PartsPointwiseBlank(parts, done, plans, authorize);
    } else {
      PartsStep(parts, done, plans, authorize);
      BatchCommandsStep(parts);
      var commands := BatchCommands(parts);
      assert commands[1..] == BatchCommands(parts[1..]);
      if plans == [] {
        if Pointwise(commands, plans, authorize) {
          PointwiseNonempty(commands, plans, authorize);
        }
      } else {
        PointwiseStep(commands, plans, authorize);
        if done < MAX_DESTROY_BATCH {
          PartsPointwise(parts[1..], done + 1, plans[1..], authorize);
        }
      }
    }
  }

  lemma BatchExact(text: string, plan: Plan, authorize: Authorizer)
    ensures AuthorizeBatch(text, authorize) == Ok(plan) <==>
      && plan.Batch?
      && 1 <= |plan.plans| <= MAX_DESTROY_BATCH
      && Pointwise(BatchCommands(Split(text, ';')), plan.plans, authorize)
  {
    var parts := Split(text, ';');
    var r := AuthorizeParts(parts, 0, authorize);
    if plan.Batch? {
      PartsPointwise(parts, 0, plan.plans, authorize);
    }
    if r.Ok? {
      PartsPointwise(parts, 0, r.value, authorize);
    }
  }

  lemma DestroyPart(command: string, plan: Plan, policy: CommandPolicy)
    requires ';' !in command
    ensures DestroyAuthorizer(policy)(TrimSpace(command)) == Ok(plan) <==>
      Authorize(TrimSpace(command), policy) == Ok(plan) && PlanIsDestroy(plan)
  {
    TrimSpaceKeeps(command);
    SimpleIsWhole(TrimSpace(command), policy);
  }

  /** A batch is admitted exactly when it has 1 to 32 commands, each admitted by itself, each a destroy. */
  lemma BatchIsPointwise(raw: string, plan: Plan, policy: CommandPolicy)
    requires ';' in TrimSpace(raw)
    ensures Authorize(raw, policy) == Ok(plan) <==>
      && ByteLength(TrimSpace(raw)) <= MAX_COMMAND_LENGTH
      && plan.Batch?
      && 1 <= |plan.plans| <= MAX_DESTROY_BATCH
      && var commands := BatchCommands(Split(TrimSpace(raw), ';'));
      && |commands| == |plan.plans|
      && forall i :: 0 <= i < |commands| ==>
           && TrimSpace(commands[i]) != ""
           && Authorize(TrimSpace(commands[i]), policy) == Ok(plan.plans[i])
           && PlanIsDestroy(plan.plans[i])
  {
    var text := TrimSpace(raw);
    BatchExact(text, plan, DestroyAuthorizer(policy));
    SplitPieces(text, ';');
    var commands := BatchCommands(Split(text, ';'));
    forall i, p | 0 <= i < |commands|
      ensures DestroyAuthorizer(policy)(TrimSpace(commands[i])) == Ok(p) <==>
        Authorize(TrimSpace(commands[i]), policy) == Ok(p) && PlanIsDestroy(p)
    {
      assert commands[i] in Split(text, ';');
      DestroyPart(commands[i], p, policy);
    }
  }

  lemma {:induction false} BatchLicensed(plans: seq<Plan>, policy: CommandPolicy)
    requires forall plan :: plan in plans ==> PlanLicensed(plan, policy)
    ensures forall step :: step in BatchSteps(plans) ==> Licensed(StepEffect(step), policy)
  {
    if plans != [] {
      assert plans[0] in plans;
      BatchLicensed(plans[1..], policy);
    }
  }

  lemma OneIsAuthorized(raw: string, policy: CommandPolicy)
    requires Authorize(raw, policy).Ok?
    ensures ';' !in TrimSpace(raw) ==> AuthorizeOne(TrimSpace(raw), policy) == Authorize(raw, policy)
    ensures ';' in TrimSpace(raw) ==> AuthorizeBatch(TrimSpace(raw), DestroyAuthorizer(policy)) == Authorize(raw, policy)
  {
    hide TrimSpace, ByteLength, AuthorizeOne, AuthorizeBatch;
  }

  lemma PartIsOne(part: string, plan: Plan, policy: CommandPolicy)
    requires DestroyAuthorizer(policy)(part) == Ok(plan)
    ensures AuthorizeOne(TrimSpace(part), policy) == Ok(plan) && PlanIsDestroy(plan)
  {
    hide AuthorizeOne, TrimSpace, PlanIsDestroy, ByteLength;
  }

  lemma PartIsLicensed(part: string, plan: Plan, policy: CommandPolicy)
    requires DestroyAuthorizer(policy)(part) == Ok(plan)
    ensures PlanLicensed(plan, policy) && PlanIsDestroy(plan)
  {
    PartIsOne(part, plan, policy);
    hide *;
    OneCommandLicensed(TrimSpace(part), policy);
  }

  lemma BatchIsLicensed(text: string, plan: Plan, policy: CommandPolicy)
    requires AuthorizeBatch(text, DestroyAuthorizer(policy)) == Ok(plan)
    ensures PlanShape(plan) && PlanLicensed(plan, policy) && plan.Batch?
  {
    hide PlanIsDestroy, DestroyAuthorizer, AuthorizeBatch, BatchCommands, Split, TrimSpace, StepEffect, Licensed;
    BatchExact(text, plan, DestroyAuthorizer(policy));
    var commands := BatchCommands(Split(text, ';'));
    forall p | p in plan.plans ensures PlanIsDestroy(p) && PlanLicensed(p, policy) {
      var i :| 0 <= i < |plan.plans| && plan.plans[i] == p;
      PartIsLicensed(TrimSpace(commands[i]), p, policy);
    }
    BatchLicensed(plan.plans, policy);
  }

  /** Every admitted command, whatever its text, has the plain shape above and does only what its policy licenses. */
  lemma AdmittedPlansAreLicensed(raw: string, policy: CommandPolicy)
    requires Authorize(raw, policy).Ok?
    ensures PlanShape(Authorize(raw, policy).value)
    ensures PlanLicensed(Authorize(raw, policy).value, policy)
    ensures Authorize(raw, policy).value.Batch? <==> ';' in TrimSpace(raw)
  {
    hide *;
    OneIsAuthorized(raw, policy);
    if ';' in TrimSpace(raw) {
      BatchIsLicensed(TrimSpace(raw), Authorize(raw, policy).value, policy);
    } else {
      OneCommandLicensed(TrimSpace(raw), policy);
    }
  }

  lemma NoTableMbuffer(step: Step)
    requires step.name == "mbuffer"
    ensures !Decompresses(step)
  {
  }

  lemma StepIsLicensed(plan: Plan, step: Step, policy: CommandPolicy)
    requires PlanLicensed(plan, policy) && step in PlanSteps(plan)
    ensures Licensed(StepEffect(step), policy)
  {
    hide Licensed, StepEffect, PlanSteps;
  }

  lemma LicensedFilters(step: Step, policy: CommandPolicy)
    requires Licensed(StepEffect(step), policy)
    ensures step.name != "zfs" && step.name != "zpool" ==> Filters(step)
    ensures step.name == "mbuffer" ==> Tuning(step.args)
  {
    hide Tuning, Decompresses, ZfsEffect, LicensedOption, LicensedName, ValidDatasetName, Components;
    if step.name == "mbuffer" {
      NoTableMbuffer(step);
    }
  }

  /** In every admitted plan, a stage other than zfs and zpool only filters its input: an mbuffer whose every word tunes it, a
      decompressor of the table, or one of the fixed grep and ps calls. */
  lemma AdmittedStagesFilter(raw: string, policy: CommandPolicy, step: Step)
    requires Authorize(raw, policy).Ok? && step in PlanSteps(Authorize(raw, policy).value)
    ensures step.name != "zfs" && step.name != "zpool" ==> Filters(step)
    ensures step.name == "mbuffer" ==> Tuning(step.args)
  {
    hide *;
    AdmittedPlansAreLicensed(raw, policy);
    StepIsLicensed(Authorize(raw, policy).value, step, policy);
    LicensedFilters(step, policy);
  }

  lemma LicensedPoolQuery(step: Step, policy: CommandPolicy)
    requires Licensed(StepEffect(step), policy) && step.name == "zpool"
    ensures step.args == FEATURE_QUERY + [TargetPool(policy.targetDataset)]
  {
    hide ZfsEffect, Filters, TargetPool, LicensedOption, LicensedName, ValidDatasetName, Components;
    var args := step.args;
    assert args == args[..|args| - 1] + [args[|args| - 1]];
  }

  lemma LicensedQuery(step: Step, policy: CommandPolicy)
    requires Licensed(StepEffect(step), policy) && step.name == "zfs" && step.args != [] && step.args[0] == "get"
    ensures ZfsGetAllowed(step.args, policy.targetDataset)
  {
    hide *;
    ZfsEffectOf(step);
    QueryAcceptedIffLicensed(step.args, policy);
  }

  /** The queries of an admitted plan are the known ones, about the policy's own dataset and pool. */
  lemma AdmittedQueries(raw: string, policy: CommandPolicy, step: Step)
    requires Authorize(raw, policy).Ok? && step in PlanSteps(Authorize(raw, policy).value)
    ensures step.name == "zpool" ==> step.args == FEATURE_QUERY + [TargetPool(policy.targetDataset)]
    ensures step.name == "zfs" && step.args != [] && step.args[0] == "get" ==> ZfsGetAllowed(step.args, policy.targetDataset)
  {
    hide *;
    AdmittedPlansAreLicensed(raw, policy);
    StepIsLicensed(Authorize(raw, policy).value, step, policy);
    if step.name == "zpool" {
      LicensedPoolQuery(step, policy);
    }
    if step.name == "zfs" && step.args != [] && step.args[0] == "get" {
      LicensedQuery(step, policy);
    }
  }

  // ----- Everything that is admitted, and as what -----

  /** What the receiver must have configured for the authorizer to look at a command at all. */
  predicate UsablePolicy(policy: CommandPolicy) {
    && ValidDatasetName(policy.targetDataset)
    && (policy.syncSnapshotIdentifier == "" || SyncoidContract.ValidIdentifier(policy.syncSnapshotIdentifier))
  }

  predicate Unredirected(step: Step) {
    !step.stdoutNull && !step.stderrNull && !step.stderrToStdout
  }

  const COMPRESSOR_NAMES := {"gzip", "pigz", "zstd", "zstdmt", "xz", "lzop", "lz4"}

  /** The commands the receiver answers itself, by their words, and the answer each is taken for. */
  predicate Answers(plan: Plan, step: Step, policy: CommandPolicy) {
    match plan
    case Exit => step.name == "exit" && (step.args == [] || step.args == ["0"]) && Unredirected(step)
    case Echo(words) => step.name == "echo" && step.args == ["-n"] + words && Unredirected(step)
    case Lookup(name) =>
      && step.name == "command" && step.args == ["-v", name] && !step.stdoutNull && !step.stderrToStdout
      && (name == "mbuffer" || (name == policy.compression && name in COMPRESSOR_NAMES))
    case ProcessList => step.name == "ps" && step.args == ["-Ao", "args="] && Unredirected(step)
    case _ => false
  }

  predicate AsksDataset(step: Step, policy: CommandPolicy) {
    step.name == "zfs" && Unredirected(step) && exists query :: query in QUERIES && step.args == query + [policy.targetDataset]
  }

  predicate AsksPool(step: Step, policy: CommandPolicy) {
    && step.name == "zpool" && !step.stdoutNull && !step.stderrToStdout
    && step.args == FEATURE_QUERY + [TargetPool(policy.targetDataset)]
  }

  predicate Destroys(step: Step, policy: CommandPolicy) {
    && step.name == "zfs" && |step.args| >= 2 && step.args[0] == "destroy" && Unredirected(step)
    && Licensed(DestroyEffect(step.args), policy)
  }

  predicate Receives(step: Step, policy: CommandPolicy) {
    && step.name == "zfs" && |step.args| >= 2 && step.args[0] == "receive"
    && Licensed(ReceiveEffect(step.args), policy) && !AbortLookalike(step)
  }

  predicate DecompressesFor(step: Step, policy: CommandPolicy) {
    Unredirected(step) && (policy.compression, step.name, step.args) in DECOMPRESSIONS
  }

  predicate Greps(step: Step) {
    step.name == "grep" && step.stdoutNull && step.stderrToStdout && |step.args| == 1 && step.args[0] in FEATURE_PATTERNS
  }

  /** What comes before a receive: nothing, a buffer when there is no compression, the policy's decompressor, or a buffer and
      that decompressor. */
  ghost predicate Feeds(before: seq<Step>, policy: CommandPolicy) {
    || before == []
    || (|before| == 1 && if before[0].name == "mbuffer" then
          Unredirected(before[0]) && Buffers(before[0].args) && (policy.compression == "" || policy.compression == "none")
        else DecompressesFor(before[0], policy))
    || (|before| == 2 && before[0].name == "mbuffer" && Unredirected(before[0]) && Buffers(before[0].args)
        && DecompressesFor(before[1], policy))
  }

  /** The pipelines the receiver runs. */
  ghost predicate Runs(steps: seq<Step>, policy: CommandPolicy) {
    || (|steps| == 1 && (AsksDataset(steps[0], policy) || AsksPool(steps[0], policy) || Destroys(steps[0], policy)))
    || (|steps| == 2 && AsksPool(steps[0], policy) && Greps(steps[1]))
    || (steps != [] && Receives(steps[|steps| - 1], policy) && Feeds(steps[..|steps| - 1], policy))
  }

  ghost predicate Means(plan: Plan, steps: seq<Step>, policy: CommandPolicy) {
    if plan.Pipeline? then plan.steps == steps && Runs(steps, policy)
    else |steps| == 1 && Answers(plan, steps[0], policy)
  }

  lemma CompressorNames(name: string)
    ensures CompressorAllowed(name) <==> name in COMPRESSOR_NAMES
  {
    var c0, c1, c2, c3 := COMPRESSORS[0], COMPRESSORS[1], COMPRESSORS[2], COMPRESSORS[3];
    var c4, c5, c6 := COMPRESSORS[4], COMPRESSORS[5], COMPRESSORS[6];
    assert forall c :: c in COMPRESSORS ==> SpecFor(c).Some? && SpecFor(c).value.decompressor == c;
    assert forall n :: n in COMPRESSOR_NAMES ==> n in COMPRESSORS;
    assert forall n :: n in COMPRESSORS ==> n in COMPRESSOR_NAMES;
  }

  lemma LookupNames(name: string, policy: CommandPolicy)
    ensures CommandLookupAllowed(name, Effective(policy)) <==>
      name == "mbuffer" || (name == policy.compression && name in COMPRESSOR_NAMES)
  {
    CompressorNames(name);
    assert "none" !in COMPRESSOR_NAMES && "" !in COMPRESSOR_NAMES;
    hide CompressorAllowed;
  }

  lemma EchoWords(args: seq<string>, words: seq<string>)
    ensures |args| >= 1 && args[0] == "-n" && args[1..] == words <==> args == ["-n"] + words
  {
    if |args| >= 1 && args[0] == "-n" {
      assert args == [args[0]] + args[1..];
    }
  }

  /** A command is answered by the receiver itself exactly when its words say so, and as what they say. */
  lemma AnsweredIff(plan: Plan, step: Step, policy: CommandPolicy)
    ensures BuiltinPlan(step, Effective(policy)) == Some(plan) <==> Answers(plan, step, policy)
  {
    match plan {
      case Lookup(name) => LookupNames(name, policy);
      case Echo(words) => EchoWords(step.args, words);
      case _ =>
    }
    hide CommandLookupAllowed;
  }

  lemma QueriesIff(args: seq<string>, target: string)
    ensures ZfsGetAllowed(args, target) <==> exists query :: query in QUERIES && args == query + [target]
  {
    assert ["get", "-H", "name"] + [target] == ["get", "-H", "name", target];
    assert ["get", "-H", "receive_resume_token"] + [target] == ["get", "-H", "receive_resume_token", target];
    assert ["get", "-Hpd", "1", "-t", "snapshot", "guid,creation"] + [target]
        == ["get", "-Hpd", "1", "-t", "snapshot", "guid,creation", target];
    assert ["get", "-Hpd", "1", "type,guid,creation"] + [target] == ["get", "-Hpd", "1", "type,guid,creation", target];
    assert ["get", "-H", "-p", "used"] + [target] == ["get", "-H", "-p", "used", target];
    assert QUERIES[0] in QUERIES && QUERIES[1] in QUERIES && QUERIES[2] in QUERIES && QUERIES[3] in QUERIES && QUERIES[4] in QUERIES;
  }

  lemma AsksDatasetIff(step: Step, policy: CommandPolicy)
    requires step.name == "zfs"
    ensures AsksDataset(step, policy) <==> NoRedirects(step) && ZfsGetAllowed(step.args, policy.targetDataset)
  {
    hide ZfsGetAllowed;
    QueriesIff(step.args, policy.targetDataset);
  }

  lemma AsksPoolIff(step: Step, policy: CommandPolicy)
    ensures ZpoolFeatureGetAllowed(step, Effective(policy)) <==> AsksPool(step, policy)
  {
    hide TargetPool;
    assert FEATURE_QUERY + [TargetPool(policy.targetDataset)]
        == ["get", "-o", "value", "-H", "feature@extensible_dataset", TargetPool(policy.targetDataset)];
  }

  lemma DestroysIff(step: Step, policy: CommandPolicy)
    requires ValidDatasetName(policy.targetDataset) && step.name == "zfs" && step.args != [] && step.args[0] == "destroy"
    ensures NoRedirects(step) && ZfsDestroyAllowed(step.args, Effective(policy)) <==> Destroys(step, policy)
  {
    if |step.args| >= 2 {
      DestroyAcceptedIffLicensed(step.args, Effective(policy));
      LicenceIgnoresCompression(DestroyEffect(step.args), policy);
    }
    hide Licensed, DestroyEffect, DatasetDestroyAllowed, SnapshotDestroyAllowed, ValidDatasetName;
  }

  lemma ReceivesIff(step: Step, policy: CommandPolicy)
    requires ValidDatasetName(policy.targetDataset) && step.name == "zfs" && step.args != [] && step.args[0] == "receive"
    ensures ReceiveError(step, Effective(policy)).None? <==> Receives(step, policy)
  {
    if |step.args| >= 2 {
      ReceiveAcceptedIffLicensed(step, Effective(policy));
      LicenceIgnoresCompression(ReceiveEffect(step.args), policy);
    } else {
      assert ReceiveError(step, Effective(policy)).Some?;
    }
    hide Licensed, ReceiveEffect, ReceiveError, ValidDatasetName, AbortLookalike;
  }

  lemma GetIsFirst(args: seq<string>, target: string)
    requires ZfsGetAllowed(args, target)
    ensures args != [] && args[0] == "get"
  {
  }

  lemma FirstWords()
    ensures "get" != "destroy" && "get" != "receive" && "destroy" != "receive"
  {
    assert "destroy"[0] != "receive"[0];
  }

  lemma ZfsCases(step: Step, policy: CommandPolicy)
    ensures ZfsStepError(step, policy).None? <==>
      && step.args != []
      && ((step.args[0] == "get" && NoRedirects(step) && ZfsGetAllowed(step.args, policy.targetDataset))
          || (step.args[0] == "receive" && ReceiveError(step, policy).None?)
          || (step.args[0] == "destroy" && NoRedirects(step) && ZfsDestroyAllowed(step.args, policy)))
  {
    FirstWords();
    hide ZfsGetAllowed, ReceiveError, ZfsDestroyAllowed, NoRedirects;
  }

  lemma WhatTheyBeginWith(step: Step, policy: CommandPolicy)
    ensures Destroys(step, policy) ==> step.args != [] && step.args[0] == "destroy"
    ensures Receives(step, policy) ==> step.args != [] && step.args[0] == "receive"
    ensures Effective(policy).targetDataset == policy.targetDataset
  {
    hide Licensed, DestroyEffect, ReceiveEffect, AbortLookalike;
  }

  lemma ZfsIff(step: Step, policy: CommandPolicy)
    requires ValidDatasetName(policy.targetDataset) && step.name == "zfs"
    ensures ZfsStepError(step, Effective(policy)).None? <==>
      AsksDataset(step, policy) || Destroys(step, policy) || Receives(step, policy)
  {
    hide *;
    ZfsCases(step, Effective(policy));
    WhatTheyBeginWith(step, policy);
    AsksDatasetIff(step, policy);
    if ZfsGetAllowed(step.args, policy.targetDataset) {
      GetIsFirst(step.args, policy.targetDataset);
    }
    if step.args != [] && step.args[0] == "destroy" {
      DestroysIff(step, policy);
    }
    if step.args != [] && step.args[0] == "receive" {
      ReceivesIff(step, policy);
    }
  }

  /** A step by itself. */
  lemma SingleIff(step: Step, policy: CommandPolicy)
    requires ValidDatasetName(policy.targetDataset) && step.name != "ps"
    ensures SingleStepError(step, Effective(policy)).None? <==>
      AsksDataset(step, policy) || AsksPool(step, policy) || Destroys(step, policy) || Receives(step, policy)
  {
    AsksPoolIff(step, policy);
    if step.name == "zfs" {
      ZfsIff(step, policy);
    }
    hide ZpoolFeatureGetAllowed, ZfsStepError, Effective, Licensed, ValidDatasetName;
  }

  lemma NoneDecompressesNothing(name: string, args: seq<string>)
    ensures ("", name, args) !in DECOMPRESSIONS && ("none", name, args) !in DECOMPRESSIONS
  {
  }

  lemma BufferStepIff(step: Step)
    ensures MbufferStepAllowed(step) <==> Unredirected(step) && Buffers(step.args)
  {
    BuffersIff(step.args);
    hide Buffers, MbufferArgsAllowed;
  }

  lemma DecompressesIff(step: Step, policy: CommandPolicy)
    ensures DecompressorStepAllowed(step, Effective(policy)) <==> DecompressesFor(step, policy)
  {
    TableIff(Effective(policy).compression, step.name, step.args);
    NoneDecompressesNothing(step.name, step.args);
    hide SpecFor, DECOMPRESSIONS;
  }

  /** The same as `Feeds`, in the authorizer's terms. */
  predicate FeedsAllowed(before: seq<Step>, policy: CommandPolicy) {
    || before == []
    || (|before| == 1 && if before[0].name == "mbuffer" then
          MbufferStepAllowed(before[0]) && policy.compression == COMPRESSION_NONE
        else DecompressorStepAllowed(before[0], policy))
    || (|before| == 2 && before[0].name == "mbuffer" && MbufferStepAllowed(before[0]) && DecompressorStepAllowed(before[1], policy))
  }

  lemma FeedsAllowedIff(before: seq<Step>, policy: CommandPolicy)
    ensures FeedsAllowed(before, Effective(policy)) <==> Feeds(before, policy)
  {
    hide MbufferStepAllowed, DecompressorStepAllowed, DecompressesFor, Buffers, Unredirected;
    if |before| >= 1 {
      DecompressesIff(before[0], policy);
      BufferStepIff(before[0]);
    }
    if |before| >= 2 {
      DecompressesIff(before[1], policy);
    }
  }

  lemma PipelineCases(steps: seq<Step>, policy: CommandPolicy)
    requires steps != []
    ensures var last := steps[|steps| - 1];
      ReceivePipelineAllowed(steps, policy) <==>
        && last.name == "zfs" && last.args != [] && last.args[0] == "receive" && ReceiveError(last, policy).None?
        && FeedsAllowed(steps[..|steps| - 1], policy)
  {
    hide ReceiveError, MbufferStepAllowed, DecompressorStepAllowed;
  }

  lemma NameOfReceive(step: Step, policy: CommandPolicy)
    ensures Receives(step, policy) ==> step.name == "zfs"
  {
    hide Licensed, ReceiveEffect, AbortLookalike;
  }

  lemma FeedsIff(steps: seq<Step>, policy: CommandPolicy)
    requires ValidDatasetName(policy.targetDataset) && steps != []
    ensures ReceivePipelineAllowed(steps, Effective(policy)) <==>
      Receives(steps[|steps| - 1], policy) && Feeds(steps[..|steps| - 1], policy)
  {
    hide *;
    var last := steps[|steps| - 1];
    PipelineCases(steps, Effective(policy));
    FeedsAllowedIff(steps[..|steps| - 1], policy);
    WhatTheyBeginWith(last, policy);
    NameOfReceive(last, policy);
    if last.name == "zfs" && last.args != [] && last.args[0] == "receive" {
      ReceivesIff(last, policy);
    }
  }

  lemma FeatureIff(steps: seq<Step>, policy: CommandPolicy)
    ensures ZpoolFeatureCheckAllowed(steps, Effective(policy)) <==>
      |steps| == 2 && AsksPool(steps[0], policy) && Greps(steps[1])
  {
    if |steps| == 2 {
      AsksPoolIff(steps[0], policy);
    }
    assert FEATURE_PATTERNS[0] in FEATURE_PATTERNS && FEATURE_PATTERNS[1] in FEATURE_PATTERNS;
    hide ZpoolFeatureGetAllowed, AsksPool;
  }

  /** What AuthorizeSteps comes to. */
  lemma StepsCases(steps: seq<Step>, plan: Plan, policy: CommandPolicy)
    ensures AuthorizeSteps(steps, policy) == Ok(plan) <==>
      if |steps| == 1 && BuiltinPlan(steps[0], policy).Some? then BuiltinPlan(steps[0], policy) == Some(plan)
      else plan == Pipeline(steps)
           && (ZpoolFeatureCheckAllowed(steps, policy) || ReceivePipelineAllowed(steps, policy)
               || (|steps| == 1 && SingleStepError(steps[0], policy).None?))
  {
    hide BuiltinPlan, ZpoolFeatureCheckAllowed, ReceivePipelineAllowed, SingleStepError;
  }

  lemma BuiltinNames(step: Step, policy: CommandPolicy)
    ensures BuiltinPlan(step, policy).Some? ==>
      && (step.name == "exit" || step.name == "echo" || step.name == "command" || step.name == "ps")
      && !BuiltinPlan(step, policy).value.Pipeline?
    ensures step.name == "ps" ==> (BuiltinPlan(step, policy).Some? <==> SingleStepError(step, policy).None?)
  {
    hide CommandLookupAllowed, ZpoolFeatureGetAllowed, ZfsStepError;
  }

  lemma AnswersNoPipeline(plan: Plan, step: Step, policy: CommandPolicy)
    ensures Answers(plan, step, policy) ==> !plan.Pipeline?
  {
  }

  lemma RunNames(step: Step, policy: CommandPolicy)
    ensures AsksDataset(step, policy) || Destroys(step, policy) || Receives(step, policy) ==> step.name == "zfs"
    ensures AsksPool(step, policy) ==> step.name == "zpool"
  {
    hide Licensed, DestroyEffect, ReceiveEffect, AbortLookalike;
  }

  lemma OnlyAReceive(steps: seq<Step>, policy: CommandPolicy)
    requires |steps| == 1
    ensures Feeds(steps[..0], policy)
    ensures Runs(steps, policy) <==>
      AsksDataset(steps[0], policy) || AsksPool(steps[0], policy) || Destroys(steps[0], policy) || Receives(steps[0], policy)
  {
    hide AsksDataset, AsksPool, Destroys, Receives, Greps, DecompressesFor, MbufferStepAllowed;
  }

  lemma SeveralSteps(steps: seq<Step>, policy: CommandPolicy)
    requires |steps| != 1
    ensures Runs(steps, policy) <==>
      || (|steps| == 2 && AsksPool(steps[0], policy) && Greps(steps[1]))
      || (steps != [] && Receives(steps[|steps| - 1], policy) && Feeds(steps[..|steps| - 1], policy))
  {
    hide AsksDataset, AsksPool, Destroys, Receives, Greps, Feeds;
  }

  lemma OneStepIff(steps: seq<Step>, plan: Plan, policy: CommandPolicy)
    requires ValidDatasetName(policy.targetDataset) && |steps| == 1
    ensures AuthorizeSteps(steps, Effective(policy)) == Ok(plan) <==> Means(plan, steps, policy)
  {
    var step, p := steps[0], Effective(policy);
    hide ValidDatasetName, AuthorizeSteps, Effective, Runs, Answers, BuiltinPlan, SingleStepError, AsksDataset, AsksPool, Destroys,
      Receives, Feeds, ZpoolFeatureCheckAllowed, ReceivePipelineAllowed;
    StepsCases(steps, plan, p);
    BuiltinNames(step, p);
    AnsweredIff(plan, step, policy);
    if BuiltinPlan(step, p).Some? {
      AnsweredIff(BuiltinPlan(step, p).value, step, policy);
    }
    AnswersNoPipeline(plan, step, policy);
    OnlyAReceive(steps, policy);
    RunNames(step, policy);
    FeatureIff(steps, policy);
    FeedsIff(steps, policy);
    if step.name != "ps" {
      SingleIff(step, policy);
    }
  }

  lemma NothingIsNoReceive(policy: CommandPolicy)
    ensures !ReceivePipelineAllowed([], policy)
  {
  }

  lemma SeveralStepsIff(steps: seq<Step>, plan: Plan, policy: CommandPolicy)
    requires ValidDatasetName(policy.targetDataset) && |steps| != 1
    ensures AuthorizeSteps(steps, Effective(policy)) == Ok(plan) <==> Means(plan, steps, policy)
  {
    hide ValidDatasetName, AuthorizeSteps, Effective, Runs, Answers, Feeds, Receives, Greps, AsksPool,
      ZpoolFeatureCheckAllowed, ReceivePipelineAllowed;
    StepsCases(steps, plan, Effective(policy));
    FeatureIff(steps, policy);
    SeveralSteps(steps, policy);
    if steps != [] {
      FeedsIff(steps, policy);
    } else {
      NothingIsNoReceive(Effective(policy));
    }
  }

  lemma OneTextIff(text: string, plan: Plan, policy: CommandPolicy)
    ensures AuthorizeOne(text, policy) == Ok(plan) <==>
      UsablePolicy(policy) && ParseCommand(text).Ok? && Means(plan, ParseCommand(text).value, policy)
  {
    if UsablePolicy(policy) && ParseCommand(text).Ok? {
      var steps := ParseCommand(text).value;
      if |steps| == 1 {
        OneStepIff(steps, plan, policy);
      } else {
        SeveralStepsIff(steps, plan, policy);
      }
    }
    assert policy.targetDataset == "" ==> !ValidDatasetName(policy.targetDataset);
    hide ValidDatasetName, SyncoidContract.ValidIdentifier, ParseCommand, AuthorizeSteps, Means, Effective;
  }

  /** For every command line without a separator, every policy and every plan: it is admitted as that plan if and only if it is
      not too long, the policy is usable, and the words it parses to mean that plan. */
  lemma AdmittedIff(raw: string, plan: Plan, policy: CommandPolicy)
    requires ';' !in TrimSpace(raw)
    ensures Authorize(raw, policy) == Ok(plan) <==>
      && ByteLength(TrimSpace(raw)) <= 8192 && UsablePolicy(policy)
      && ParseCommand(TrimSpace(raw)).Ok? && Means(plan, ParseCommand(TrimSpace(raw)).value, policy)
  {
    OneTextIff(TrimSpace(raw), plan, policy);
    hide AuthorizeOne, ParseCommand, Means, UsablePolicy, ByteLength, TrimSpace;
  }

  /** One licensed destroy and nothing else. */
  predicate DestroysOnce(plan: Plan, policy: CommandPolicy) {
    plan.Pipeline? && |plan.steps| == 1 && Destroys(plan.steps[0], policy)
  }

  lemma DestroyIsFirst(step: Step, policy: CommandPolicy)
    ensures Destroys(step, policy) ==> step.name == "zfs" && step.args != [] && step.args[0] == "destroy"
    ensures step.args != [] && step.args[0] == "destroy" ==> !AsksDataset(step, policy) && !Receives(step, policy)
    ensures AsksPool(step, policy) ==> step.name == "zpool"
  {
    FirstWords();
    hide Licensed, DestroyEffect, ReceiveEffect, AbortLookalike, TargetPool;
    if AsksDataset(step, policy) {
      var query :| query in QUERIES && step.args == query + [policy.targetDataset];
      assert query[0] == "get";
    }
  }

  lemma DestroyRunIff(steps: seq<Step>, policy: CommandPolicy)
    ensures Runs(steps, policy) && PlanIsDestroy(Pipeline(steps)) <==> DestroysOnce(Pipeline(steps), policy)
  {
    hide AsksDataset, AsksPool, Destroys, Receives, Greps, Feeds;
    if |steps| == 1 {
      DestroyIsFirst(steps[0], policy);
    }
  }

  lemma DestroyCommandIff(command: string, plan: Plan, policy: CommandPolicy)
    requires ';' !in TrimSpace(command)
    ensures Authorize(command, policy) == Ok(plan) && PlanIsDestroy(plan) <==>
      Authorize(command, policy) == Ok(plan) && DestroysOnce(plan, policy)
  {
    AdmittedIff(command, plan, policy);
    if plan.Pipeline? {
      DestroyRunIff(plan.steps, policy);
    }
    hide Authorize, Runs, Destroys, UsablePolicy, ParseCommand, ByteLength, TrimSpace;
  }

  lemma PartHasNoSeparator(text: string, part: string)
    requires part in BatchCommands(Split(text, ';'))
    ensures ';' !in TrimSpace(TrimSpace(part))
  {
    SplitPieces(text, ';');
    TrimSpaceKeeps(part);
    TrimSpaceKeeps(TrimSpace(part));
  }

  /** For every command line with a separator: it is admitted exactly as a batch of 1 to 32 commands, each admitted by itself as
      one licensed destroy. */
  lemma BatchAdmittedIff(raw: string, plan: Plan, policy: CommandPolicy)
    requires ';' in TrimSpace(raw)
    ensures Authorize(raw, policy) == Ok(plan) <==>
      && ByteLength(TrimSpace(raw)) <= 8192
      && plan.Batch? && 1 <= |plan.plans| <= 32
      && var commands := BatchCommands(Split(TrimSpace(raw), ';'));
      && |commands| == |plan.plans|
      && forall i :: 0 <= i < |commands| ==>
           && TrimSpace(commands[i]) != ""
           && Authorize(TrimSpace(commands[i]), policy) == Ok(plan.plans[i])
           && DestroysOnce(plan.plans[i], policy)
  {
    BatchIsPointwise(raw, plan, policy);
    var commands := BatchCommands(Split(TrimSpace(raw), ';'));
    forall i, p | 0 <= i < |commands|
      ensures Authorize(TrimSpace(commands[i]), policy) == Ok(p) && PlanIsDestroy(p) <==>
        Authorize(TrimSpace(commands[i]), policy) == Ok(p) && DestroysOnce(p, policy)
    {
      PartHasNoSeparator(TrimSpace(raw), commands[i]);
      DestroyCommandIff(TrimSpace(commands[i]), p, policy);
    }
    hide Authorize, PlanIsDestroy, DestroysOnce, BatchCommands, Split, TrimSpace, ByteLength;
  }
}
