/** Which receiver commands a policy admits (internal/receiverauthorization/command_authorize.go). */
module CommandAuthorize {
  import opened Text
  import opened Datasets
  import opened Compression
  import opened CommandParse
  import SyncoidContract

  const MAX_COMMAND_LENGTH := 8192
  const MAX_DESTROY_BATCH := 32

  datatype CommandPolicy = CommandPolicy(
    targetDataset: string,
    receiveUnmounted: bool,
    receiveResumable: bool,
    allowRollback: bool,
    allowDestroy: bool,
    allowMount: bool,
    allowSyncSnapshotDestroy: bool,
    allowTargetSnapshotDestroy: bool,
    syncSnapshotIdentifier: string,
    compression: string)

  datatype Plan =
    | Exit
    | Echo(echoArgs: seq<string>)
    | Lookup(command: string)
    | ProcessList
    | Pipeline(steps: seq<Step>)
    | Batch(plans: seq<Plan>)

  datatype Denial =
    | CommandTooLong
    | TargetDatasetEmpty
    | TargetDatasetInvalid
    | SyncSnapshotIdentifierInvalid
    | Unparsable(reason: ParseError)
    | UnsupportedPipeline
    | UnsupportedCommand
    | UnsupportedProcessList
    | UnsupportedZpool
    | MissingSubcommand
    | UnsupportedSubcommand
    | UnsupportedGet
    | UnsupportedDestroy
    | AbortOutsidePolicy
    | AbortNeedsResumable
    | UnsupportedReceive
    | ReceiveOutsidePolicy
    | UnmountedNotAllowed
    | ResumableNotAllowed
    | RollbackNotAllowed
    | UnsupportedReceiveArgument(arg: string)
    | MountedNotAllowed
    | AbortRedirect
    | EmptyCommandInBatch
    | OnlyDestroyInBatch
    | TooManyInBatch
    | EmptyBatch

  predicate NoRedirects(step: Step) {
    !step.stdoutNull && !step.stderrNull && !step.stderrToStdout
  }

  predicate NoStdoutRedirects(step: Step) {
    !step.stdoutNull && !step.stderrToStdout
  }

  // ----- Commands answered by the receiver itself -----

  predicate CommandLookupAllowed(name: string, policy: CommandPolicy) {
    name == "mbuffer" || (policy.compression != COMPRESSION_NONE && name == policy.compression && CompressorAllowed(name))
  }

  function BuiltinPlan(step: Step, policy: CommandPolicy): (plan: Option<Plan>) {
    if step.name == "exit" && NoRedirects(step) && (step.args == [] || step.args == ["0"]) then Some(Exit)
    else if step.name == "echo" && NoRedirects(step) && |step.args| >= 1 && step.args[0] == "-n" then
      Some(Echo(step.args[1..]))
    else if step.name == "command" && NoStdoutRedirects(step) && |step.args| == 2 && step.args[0] == "-v"
            && CommandLookupAllowed(step.args[1], policy) then Some(Lookup(step.args[1]))
    else if step.name == "ps" && NoRedirects(step) && step.args == ["-Ao", "args="] then Some(ProcessList)
    else None
  }

  // ----- Queries -----

  predicate ZfsGetAllowed(args: seq<string>, target: string) {
    || args == ["get", "-H", "name", target]
    || args == ["get", "-H", "receive_resume_token", target]
    || args == ["get", "-Hpd", "1", "-t", "snapshot", "guid,creation", target]
    || args == ["get", "-Hpd", "1", "type,guid,creation", target]
    || args == ["get", "-H", "-p", "used", target]
  }

  predicate ZpoolFeatureGetAllowed(step: Step, policy: CommandPolicy) {
    && step.name == "zpool"
    && NoStdoutRedirects(step)
    && step.args == ["get", "-o", "value", "-H", "feature@extensible_dataset", TargetPool(policy.targetDataset)]
  }

  predicate ZpoolFeatureCheckAllowed(steps: seq<Step>, policy: CommandPolicy) {
    && |steps| == 2
    && ZpoolFeatureGetAllowed(steps[0], policy)
    && steps[1].name == "grep" && steps[1].stdoutNull && steps[1].stderrToStdout
    && (steps[1].args == ["(active|enabled)"] || steps[1].args == ["\\(active\\|enabled\\)"])
  }

  // ----- Receiving -----

  predicate SafeMbufferValue(value: string) {
    value != "" && forall i :: 0 <= i < |value| ==>
      var c := value[i];
      '0' <= c <= '9' || c == 'k' || c == 'K' || c == 'm' || c == 'M' || c == 'g' || c == 'G' || c == '%'
  }

  predicate MbufferArgsAllowed(args: seq<string>)
    decreases |args|
  {
    if args == [] then true
    else if args[0] == "-q" || args[0] == "-Q" then MbufferArgsAllowed(args[1..])
    else if args[0] == "-s" || args[0] == "-m" || args[0] == "-P" then
      |args| >= 2 && SafeMbufferValue(args[1]) && MbufferArgsAllowed(args[2..])
    else
      && ("-s" <= args[0] || "-m" <= args[0] || "-P" <= args[0])
      && SafeMbufferValue(args[0][2..])
      && MbufferArgsAllowed(args[1..])
  }

  predicate MbufferStepAllowed(step: Step) {
    NoRedirects(step) && MbufferArgsAllowed(step.args)
  }

  method ValidateMbufferStep(step: Step) returns (ok: bool)
    ensures ok == MbufferStepAllowed(step)
  {
    if !NoRedirects(step) {
      return false;
    }
    var i := 0;
    assert step.args[0..] == step.args;
    while i < |step.args|
      invariant i <= |step.args|
      invariant MbufferArgsAllowed(step.args) == MbufferArgsAllowed(step.args[i..])
    {
      var arg := step.args[i];
      ghost var rest := step.args[i..];
      assert rest[0] == arg && rest[1..] == step.args[i + 1..];
      if arg == "-q" || arg == "-Q" {
        i := i + 1;
        continue;
      }
      if arg == "-s" || arg == "-m" || arg == "-P" {
        i := i + 1;
        if i >= |step.args| || !SafeMbufferValue(step.args[i]) {
          return false;
        }
        assert rest[1] == step.args[i] && rest[2..] == step.args[i + 1..];
        i := i + 1;
        continue;
      }
      if "-s" <= arg || "-m" <= arg || "-P" <= arg {
        if SafeMbufferValue(arg[2..]) {
          i := i + 1;
          continue;
        }
      }
      return false;
    }
    assert step.args[i..] == [];
    return true;
  }

  predicate DecompressorStepAllowed(step: Step, policy: CommandPolicy) {
    && policy.compression != COMPRESSION_NONE
    && NoRedirects(step)
    && DecompressorAllowed(step.name, step.args, policy.compression)
  }

  function ReceiveFlagError(flag: string, policy: CommandPolicy): (e: Option<Denial>) {
    if flag == "-u" then if policy.receiveUnmounted then None else Some(UnmountedNotAllowed)
    else if flag == "-s" then if policy.receiveResumable then None else Some(ResumableNotAllowed)
    else if flag == "-F" then if policy.allowRollback then None else Some(RollbackNotAllowed)
    else Some(UnsupportedReceiveArgument(flag))
  }

  function ReceiveFlagsError(flags: seq<string>, policy: CommandPolicy): (e: Option<Denial>) {
    if flags == [] then None
    else if ReceiveFlagError(flags[0], policy).Some? then ReceiveFlagError(flags[0], policy)
    else ReceiveFlagsError(flags[1..], policy)
  }

  function ReceiveError(step: Step, policy: CommandPolicy): (e: Option<Denial>) {
    var args := step.args;
    if |args| == 3 && args[0] == "receive" && args[1] == "-A" then
      if !ValidDatasetName(args[2]) || args[2] != policy.targetDataset then Some(AbortOutsidePolicy)
      else if !policy.receiveResumable then Some(AbortNeedsResumable)
      else None
    else if |args| < 2 || args[0] != "receive" then Some(UnsupportedReceive)
    else
      var target, flags := args[|args| - 1], args[1..|args| - 1];
      if !ValidDatasetName(target) || target != policy.targetDataset then Some(ReceiveOutsidePolicy)
      else if ReceiveFlagsError(flags, policy).Some? then ReceiveFlagsError(flags, policy)
      else if "-u" !in flags && !policy.allowMount then Some(MountedNotAllowed)
      else if args[1] == "-A" && step.stderrToStdout then Some(AbortRedirect)
      else None
  }

  method CheckReceiveFlags(flags: seq<string>, policy: CommandPolicy)
    returns (e: Option<Denial>, seenUnmounted: bool)
    ensures e == ReceiveFlagsError(flags, policy)
    ensures e.None? ==> (seenUnmounted <==> "-u" in flags)
  {
    seenUnmounted := false;
    assert flags[0..] == flags;
    for i := 0 to |flags|
      invariant ReceiveFlagsError(flags, policy) == ReceiveFlagsError(flags[i..], policy)
      invariant seenUnmounted <==> "-u" in flags[..i]
    {
      var arg := flags[i];
      assert flags[i..][0] == arg && flags[i..][1..] == flags[i + 1..];
      assert flags[..i + 1] == flags[..i] + [arg];
      if arg == "-u" {
        if !policy.receiveUnmounted {
          return Some(UnmountedNotAllowed), seenUnmounted;
        }
        seenUnmounted := true;
      } else if arg == "-s" {
        if !policy.receiveResumable {
          return Some(ResumableNotAllowed), seenUnmounted;
        }
      } else if arg == "-F" {
        if !policy.allowRollback {
          return Some(RollbackNotAllowed), seenUnmounted;
        }
      } else {
        return Some(UnsupportedReceiveArgument(arg)), seenUnmounted;
      }
    }
    assert flags[..|flags|] == flags;
    e := None;
  }

  method ValidateZFSReceiveStep(step: Step, policy: CommandPolicy) returns (e: Option<Denial>)
    ensures e == ReceiveError(step, policy)
  {
    var args := step.args;
    if |args| == 3 && args[0] == "receive" && args[1] == "-A" {
      if !ValidDatasetName(args[2]) || args[2] != policy.targetDataset {
        return Some(AbortOutsidePolicy);
      }
      if !policy.receiveResumable {
        return Some(AbortNeedsResumable);
      }
      return None;
    }
    if |args| < 2 || args[0] != "receive" {
      return Some(UnsupportedReceive);
    }
    var target := args[|args| - 1];
    if !ValidDatasetName(target) || target != policy.targetDataset {
      return Some(ReceiveOutsidePolicy);
    }
    var e', seenUnmounted := CheckReceiveFlags(args[1..|args| - 1], policy);
    if e'.Some? {
      return e';
    }
    if !seenUnmounted && !policy.allowMount {
      return Some(MountedNotAllowed);
    }
    if |args| > 1 && args[1] == "-A" && step.stderrToStdout {
      return Some(AbortRedirect);
    }
    return None;
  }

  predicate ReceivePipelineAllowed(steps: seq<Step>, policy: CommandPolicy) {
    && 1 <= |steps| <= 3
    && var last := steps[|steps| - 1];
    && last.name == "zfs" && last.args != [] && last.args[0] == "receive"
    && ReceiveError(last, policy).None?
    && (|steps| == 2 ==>
        if steps[0].name == "mbuffer" then MbufferStepAllowed(steps[0]) && policy.compression == COMPRESSION_NONE
        else DecompressorStepAllowed(steps[0], policy))
    && (|steps| == 3 ==>
        steps[0].name == "mbuffer" && MbufferStepAllowed(steps[0]) && DecompressorStepAllowed(steps[1], policy))
  }

  // ----- Destroying -----

  predicate SnapshotDestroyLicensed(snapshot: string, policy: CommandPolicy) {
    && ValidSnapshotName(snapshot)
    && (policy.allowTargetSnapshotDestroy
        || (policy.allowSyncSnapshotDestroy
            && SyncoidContract.SnapshotOwnedByIdentifier(snapshot, policy.syncSnapshotIdentifier)))
  }

  predicate SnapshotDestroyAllowed(target: string, policy: CommandPolicy) {
    var (dataset, snapshots, ok) := Cut(target, '@');
    && ok
    && '@' !in snapshots
    && dataset == policy.targetDataset
    && forall snapshot :: snapshot in Split(snapshots, ',') ==> SnapshotDestroyLicensed(snapshot, policy)
  }

  predicate DatasetDestroyAllowed(target: string, policy: CommandPolicy) {
    policy.allowDestroy && DatasetOrChild(target, policy.targetDataset) && '@' !in target
  }

  predicate ZfsDestroyAllowed(args: seq<string>, policy: CommandPolicy) {
    || (|args| == 2 && args[0] == "destroy"
        && (SnapshotDestroyAllowed(args[1], policy) || DatasetDestroyAllowed(args[1], policy)))
    || (|args| == 3 && args[0] == "destroy" && args[1] == "-r" && DatasetDestroyAllowed(args[2], policy))
  }

  // ----- One command -----

  function ZfsStepError(step: Step, policy: CommandPolicy): (e: Option<Denial>) {
    if step.args == [] then Some(MissingSubcommand)
    else if step.args[0] == "get" then
      if !NoRedirects(step) || !ZfsGetAllowed(step.args, policy.targetDataset) then Some(UnsupportedGet) else None
    else if step.args[0] == "receive" then ReceiveError(step, policy)
    else if step.args[0] == "destroy" then
      if !NoRedirects(step) || !ZfsDestroyAllowed(step.args, policy) then Some(UnsupportedDestroy) else None
    else Some(UnsupportedSubcommand)
  }

  function SingleStepError(step: Step, policy: CommandPolicy): (e: Option<Denial>) {
    if step.name == "ps" then
      if !NoRedirects(step) || step.args != ["-Ao", "args="] then Some(UnsupportedProcessList) else None
    else if step.name == "zpool" then
      if !ZpoolFeatureGetAllowed(step, policy) then Some(UnsupportedZpool) else None
    else if step.name == "zfs" then ZfsStepError(step, policy)
    else Some(UnsupportedCommand)
  }

  function AuthorizeSteps(steps: seq<Step>, policy: CommandPolicy): (r: Result<Plan, Denial>) {
    if |steps| == 1 && BuiltinPlan(steps[0], policy).Some? then Ok(BuiltinPlan(steps[0], policy).value)
    else if ZpoolFeatureCheckAllowed(steps, policy) || ReceivePipelineAllowed(steps, policy) then Ok(Pipeline(steps))
    else if |steps| != 1 then Err(UnsupportedPipeline)
    else match SingleStepError(steps[0], policy)
      case Some(e) => Err(e)
      case None => Ok(Pipeline(steps))
  }

  function Effective(policy: CommandPolicy): (p: CommandPolicy) {
    policy.(compression := CompressionDefault(policy.compression))
  }

  function AuthorizeOne(text: string, policy: CommandPolicy): (r: Result<Plan, Denial>) {
    if policy.targetDataset == "" then Err(TargetDatasetEmpty)
    else if !ValidDatasetName(policy.targetDataset) then Err(TargetDatasetInvalid)
    else if policy.syncSnapshotIdentifier != "" && !SyncoidContract.ValidIdentifier(policy.syncSnapshotIdentifier) then
      Err(SyncSnapshotIdentifierInvalid)
    else match ParseCommand(text)
      case Err(e) => Err(Unparsable(e))
      case Ok(steps) => AuthorizeSteps(steps, Effective(policy))
  }

  // ----- A command line -----

  predicate PlanIsDestroy(plan: Plan) {
    && plan.Pipeline? && |plan.steps| == 1
    && plan.steps[0].name == "zfs" && plan.steps[0].args != [] && plan.steps[0].args[0] == "destroy"
  }

  /** A command line without batching. */
  function AuthorizeSimple(raw: string, policy: CommandPolicy): (r: Result<Plan, Denial>) {
    var text := TrimSpace(raw);
    if ByteLength(text) > MAX_COMMAND_LENGTH then Err(CommandTooLong) else AuthorizeOne(text, policy)
  }

  type Authorizer = string -> Result<Plan, Denial>

  /** What one part of a batch may be. */
  function AuthorizeDestroy(raw: string, policy: CommandPolicy): (r: Result<Plan, Denial>) {
    match AuthorizeSimple(raw, policy)
    case Err(e) => Err(e)
    case Ok(plan) => if PlanIsDestroy(plan) then Ok(plan) else Err(OnlyDestroyInBatch)
  }

  function DestroyAuthorizer(policy: CommandPolicy): (authorize: Authorizer) {
    (raw: string) => AuthorizeDestroy(raw, policy)
  }

  /** The plans of a batch's parts, `done` of them already taken. */
  function AuthorizeParts(parts: seq<string>, done: nat, authorize: Authorizer): (r: Result<seq<Plan>, Denial>) {
    if parts == [] then Ok([])
    else
      var part := TrimSpace(parts[0]);
      if part == "" then
        if |parts| == 1 then Ok([]) else Err(EmptyCommandInBatch)
      else match authorize(part)
        case Err(e) => Err(e)
        case Ok(plan) =>
          if done + 1 > MAX_DESTROY_BATCH then Err(TooManyInBatch)
          else match AuthorizeParts(parts[1..], done + 1, authorize)
            case Err(e) => Err(e)
            case Ok(plans) => Ok([plan] + plans)
  }

  function AuthorizeBatch(text: string, authorize: Authorizer): (r: Result<Plan, Denial>) {
    match AuthorizeParts(Split(text, ';'), 0, authorize)
    case Err(e) => Err(e)
    case Ok(plans) => if plans == [] then Err(EmptyBatch) else Ok(Batch(plans))
  }

  function Authorize(raw: string, policy: CommandPolicy): (r: Result<Plan, Denial>) {
    var text := TrimSpace(raw);
    if ByteLength(text) > MAX_COMMAND_LENGTH then Err(CommandTooLong)
    else if ';' in text then AuthorizeBatch(text, DestroyAuthorizer(policy))
    else AuthorizeOne(text, policy)
  }

  /** The batch so far and what the remaining parts will add to it. */
  ghost function Taken(batch: seq<Plan>, parts: seq<string>, authorize: Authorizer): Result<seq<Plan>, Denial> {
    match AuthorizeParts(parts, |batch|, authorize)
    case Err(e) => Err(e)
    case Ok(plans) => Ok(batch + plans)
  }

  lemma TakeOne(batch: seq<Plan>, parts: seq<string>, plan: Plan, authorize: Authorizer)
    requires parts != [] && TrimSpace(parts[0]) != "" && authorize(TrimSpace(parts[0])) == Ok(plan)
    ensures |batch| < MAX_DESTROY_BATCH ==> Taken(batch, parts, authorize) == Taken(batch + [plan], parts[1..], authorize)
    ensures |batch| >= MAX_DESTROY_BATCH ==> Taken(batch, parts, authorize) == Err(TooManyInBatch)
  {
    var tail := AuthorizeParts(parts[1..], |batch| + 1, authorize);
    if tail.Ok? {
      assert batch + ([plan] + tail.value) == batch + [plan] + tail.value;
    }
  }

  /** Without a separator, a command line is authorized alike inside and outside a batch. */
  lemma SimpleIsWhole(raw: string, policy: CommandPolicy)
    requires ';' !in raw
    ensures Authorize(raw, policy) == AuthorizeSimple(raw, policy)
  {
    TrimSpaceKeeps(raw);
  }

  method AuthorizeReceiverCommandBatch(raw: string, policy: CommandPolicy) returns (r: Result<Plan, Denial>)
    requires ';' in raw
    ensures r == AuthorizeBatch(raw, DestroyAuthorizer(policy))
    decreases false, 1
  {
    var parts, batch: seq<Plan> := Split(raw, ';'), [];
    SplitPieces(raw, ';');
    ghost var authorize := DestroyAuthorizer(policy);
    ghost var whole := AuthorizeParts(parts, 0, authorize);
    assert parts[0..] == parts;
    assert whole.Ok? ==> [] + whole.value == whole.value;
    for i := 0 to |parts|
      invariant |batch| <= MAX_DESTROY_BATCH
      invariant whole == Taken(batch, parts[i..], authorize)
    {
      ghost var rest := parts[i..];
      assert rest[0] == parts[i] && rest[1..] == parts[i + 1..];
      var part := TrimSpace(parts[i]);
      TrimSpaceKeeps(parts[i]);
      if part == "" {
        if i == |parts| - 1 {
          assert parts[i + 1..] == [];
          continue;
        }
        return Err(EmptyCommandInBatch);
      }
      var plan := AuthorizeReceiverCommand(part, policy);
      SimpleIsWhole(part, policy);
      if plan.Err? {
        return Err(plan.error);
      }
      if !PlanIsDestroy(plan.value) {
        return Err(OnlyDestroyInBatch);
      }
      TakeOne(batch, rest, plan.value, authorize);
      batch := batch + [plan.value];
      if |batch| > MAX_DESTROY_BATCH {
        return Err(TooManyInBatch);
      }
    }
    assert parts[|parts|..] == [];
    assert batch + [] == batch;
    if |batch| == 0 {
      return Err(EmptyBatch);
    }
    return Ok(Batch(batch));
  }

  method AuthorizeReceiverCommand(raw: string, policy: CommandPolicy) returns (r: Result<Plan, Denial>)
    ensures r == Authorize(raw, policy)
    decreases ';' in raw, 0
  {
    var text := TrimSpace(raw);
    TrimSpaceKeeps(raw);
    if ByteLength(text) > MAX_COMMAND_LENGTH {
      return Err(CommandTooLong);
    }
    if ';' in text {
      r := AuthorizeReceiverCommandBatch(text, policy);
      return;
    }
    if policy.targetDataset == "" {
      return Err(TargetDatasetEmpty);
    }
    if !ValidDatasetName(policy.targetDataset) {
      return Err(TargetDatasetInvalid);
    }
    if policy.syncSnapshotIdentifier != "" && !SyncoidContract.ValidIdentifier(policy.syncSnapshotIdentifier) {
      return Err(SyncSnapshotIdentifierInvalid);
    }
    var tokens := TokenizeReceiverCommand(text);
    if tokens.Err? {
      return Err(Unparsable(tokens.error));
    }
    var steps := ParseReceiverCommandSteps(tokens.value);
    if steps.Err? {
      return Err(Unparsable(steps.error));
    }
    return AuthorizeSteps(steps.value, Effective(policy));
  }
}
