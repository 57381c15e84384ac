/** The status of the Receive Tasks under two kinds of writers: the receiver, whose patches carry the version they read, and
    the run controller, whose terminal patches do not (cmd/zfsrep-receiver/main.go,
    internal/controller/zfsreplication_run_controller.go). */
module TaskStatus {
  import opened Text
  import opened RunApi
  import opened DiskModel
  import opened SnapshotState

  /** One stored version of the object under a task's name. */
  datatype Stored = Stored(name: string, uid: string, version: nat, phase: TaskPhase, error: string)

  datatype Verdict = Ready | Rejected(message: string)

  /** A status the receiver owes one task. */
  datatype Due = Due(name: string, uid: string, verdict: Verdict)

  /** What the receiver read and means to write. */
  datatype Holding = Holding(copy: Stored, verdict: Verdict)

  /** `disk` is every state the receiver's directory has gone through; `due` what its last publication came to;
      `controllers` what the run controllers' caches gave them; `readied` the UIDs Ready was ever written for. */
  datatype State = State(
    tasks: map<string, Stored>,
    next: nat,
    past: set<Stored>,
    disk: seq<FileSystem>,
    due: seq<Due>,
    receiver: Option<Holding>,
    controllers: map<string, Stored>,
    readied: set<string>)

  const EMPTY := State(map[], 0, {}, [], [], None, map[], {})

  datatype Step =
    | Create(name: string, uid: string)
    | Delete(name: string)
    | UpdateSpec(name: string)
    | DiskMoves(states: seq<FileSystem>)
    | Reconciled(due: seq<Due>)
    | ReceiverRead(d: Due)
    | ReceiverPatch
    | ControllerRead(copy: Stored)
    | ControllerPatch(name: string, phase: TaskPhase, message: string)

  /** What a publication may come to: Ready exactly for the tasks the snapshot now published grants. */
  predicate Judges(disk: seq<FileSystem>, due: seq<Due>) {
    due != [] ==>
      disk != []
      && forall i :: 0 <= i < |due| ==> (due[i].verdict == Ready <==> Holds(disk[|disk| - 1], due[i].uid))
  }

  predicate Enabled(s: State, step: Step) {
    match step
    case Create(name, uid) => name !in s.tasks && forall t :: t in s.past ==> t.uid != uid
    case Delete(name) => name in s.tasks
    case UpdateSpec(name) => name in s.tasks
    case DiskMoves(_) => true
    case Reconciled(due) => Judges(s.disk, due)
    case ReceiverRead(d) => d in s.due
    case ReceiverPatch => s.receiver.Some?
    case ControllerRead(copy) => copy in s.past
    case ControllerPatch(name, phase, _) => name in s.controllers && TaskTerminal(phase)
  }

  /** Every write gets a version of its own. */
  function Write(s: State, t: Stored): (u: State) {
    var stored := t.(version := s.next);
    s.(tasks := s.tasks[t.name := stored], next := s.next + 1, past := s.past + {stored})
  }

  /** The version-checked patch, when it applies. */
  predicate Applies(s: State) {
    && s.receiver.Some?
    && s.receiver.value.copy.name in s.tasks
    && s.tasks[s.receiver.value.copy.name].version == s.receiver.value.copy.version
  }

  function Judged(t: Stored, verdict: Verdict): (u: Stored) {
    match verdict
    case Ready => t.(phase := TaskReady, error := "")
    case Rejected(message) => t.(phase := TaskFailed, error := message)
  }

  /** The merge patch from the cached copy: only what differs from it is sent. */
  function Ended(t: Stored, cached: Stored, phase: TaskPhase, message: string): (u: Stored) {
    t.(phase := if cached.phase != phase then phase else t.phase,
       error := if cached.error != message then message else t.error)
  }

  /** The controller has something to send, and somewhere to send it. */
  predicate Lands(s: State, name: string, phase: TaskPhase, message: string) {
    && name in s.controllers && name in s.tasks
    && !(s.controllers[name].phase == phase && s.controllers[name].error == message)
  }

  function Next(s: State, step: Step): (t: State)
    requires Enabled(s, step)
  {
    match step
    case Create(name, uid) => Write(s, Stored(name, uid, 0, TaskUnset, ""))
    case Delete(name) => s.(tasks := s.tasks - {name})
    case UpdateSpec(name) => Write(s, s.tasks[name].(name := name))
    case DiskMoves(states) => s.(disk := s.disk + states)
    case Reconciled(due) => s.(due := due)
    case ReceiverRead(d) =>
      if d.name in s.tasks && s.tasks[d.name].uid == d.uid && !TaskTerminal(s.tasks[d.name].phase)
      then s.(receiver := Some(Holding(s.tasks[d.name], d.verdict)))
      else s.(receiver := None)
    case ReceiverPatch =>
      var idle := s.(receiver := None);
      if !Applies(s) then idle
      else
        var copy, verdict := s.receiver.value.copy, s.receiver.value.verdict;
        var written := Write(idle, Judged(s.tasks[copy.name], verdict).(name := copy.name));
        if verdict == Ready then written.(readied := written.readied + {s.tasks[copy.name].uid}) else written
    case ControllerRead(copy) => s.(controllers := s.controllers[copy.name := copy])
    case ControllerPatch(name, phase, message) =>
      var idle := s.(controllers := s.controllers - {name});
      if !Lands(s, name, phase, message) then idle
      else Write(idle, Ended(s.tasks[name], s.controllers[name], phase, message).(name := name))
  }

  // ----- What holds in every state -----

  /** Some state of the directory had a published snapshot with a grant for the task. */
  ghost predicate OnceGranted(disk: seq<FileSystem>, uid: string) {
    exists k :: 0 <= k < |disk| && Holds(disk[k], uid)
  }

  ghost predicate Inv(s: State) {
    && (forall name :: name in s.tasks ==> s.tasks[name] in s.past && s.tasks[name].name == name)
    && (forall t :: t in s.past ==> t.version < s.next)
    && (forall t, u :: t in s.past && u in s.past && t.version == u.version ==> t == u)
    && (forall d :: d in s.due && d.verdict == Ready ==> OnceGranted(s.disk, d.uid))
    && (s.receiver.Some? ==>
          && s.receiver.value.copy in s.past && !TaskTerminal(s.receiver.value.copy.phase)
          && (s.receiver.value.verdict == Ready ==> OnceGranted(s.disk, s.receiver.value.copy.uid)))
    && (forall name :: name in s.controllers ==> s.controllers[name] in s.past && s.controllers[name].name == name)
    && forall uid :: uid in s.readied ==> OnceGranted(s.disk, uid)
  }

  lemma WriteKeepsInv(s: State, t: Stored)
    requires Inv(s)
    ensures Inv(Write(s, t))
  {
    hide OnceGranted;
  }

  lemma GrantedLater(disk: seq<FileSystem>, states: seq<FileSystem>, uid: string)
    requires OnceGranted(disk, uid)
    ensures OnceGranted(disk + states, uid)
  {
    hide Holds;
    var k :| 0 <= k < |disk| && Holds(disk[k], uid);
    assert (disk + states)[k] == disk[k];
  }

  lemma DiskKeepsInv(s: State, states: seq<FileSystem>)
    requires Inv(s)
    ensures Inv(s.(disk := s.disk + states))
  {
    forall uid | OnceGranted(s.disk, uid) ensures OnceGranted(s.disk + states, uid) {
      GrantedLater(s.disk, states, uid);
    }
    hide OnceGranted;
  }

  lemma JudgedDueIsGranted(disk: seq<FileSystem>, due: seq<Due>)
    requires Judges(disk, due)
    ensures forall d :: d in due && d.verdict == Ready ==> OnceGranted(disk, d.uid)
  {
    hide Holds;
  }

  lemma ReceiverPatchKeepsInv(s: State)
    requires Inv(s) && s.receiver.Some?
    ensures Inv(Next(s, ReceiverPatch))
  {
    hide OnceGranted, Judged;
    if Applies(s) {
      var copy := s.receiver.value.copy;
      assert s.tasks[copy.name] == copy;
      assert Inv(s.(receiver := None));
      WriteKeepsInv(s.(receiver := None), Judged(copy, s.receiver.value.verdict).(name := copy.name));
    }
  }

  lemma ControllerPatchKeepsInv(s: State, name: string, phase: TaskPhase, message: string)
    requires Inv(s) && name in s.controllers && TaskTerminal(phase)
    ensures Inv(Next(s, ControllerPatch(name, phase, message)))
  {
    hide OnceGranted;
    var idle := s.(controllers := s.controllers - {name});
    assert Inv(idle);
    if Lands(s, name, phase, message) {
      WriteKeepsInv(idle, Ended(s.tasks[name], s.controllers[name], phase, message).(name := name));
    }
  }

  lemma ReadKeepsInv(s: State, step: Step)
    requires Inv(s) && Enabled(s, step)
    requires step.ReceiverRead? || step.ControllerRead? || step.Delete? || step.Reconciled?
    ensures Inv(Next(s, step))
  {
    if step.Reconciled? {
      JudgedDueIsGranted(s.disk, step.due);
    }
    hide OnceGranted, Judges;
  }

  lemma StepKeepsInv(s: State, step: Step)
    requires Inv(s) && Enabled(s, step)
    ensures Inv(Next(s, step))
  {
    hide Inv;
    match step
    case Create(name, uid) => WriteKeepsInv(s, Stored(name, uid, 0, TaskUnset, ""));
    case UpdateSpec(name) => WriteKeepsInv(s, s.tasks[name].(name := name));
    case DiskMoves(states) => DiskKeepsInv(s, states);
    case ReceiverPatch => ReceiverPatchKeepsInv(s);
    case ControllerPatch(name, phase, message) => ControllerPatchKeepsInv(s, name, phase, message);
    case _ => ReadKeepsInv(s, step);
  }

  function Execute(steps: seq<Step>): (s: Option<State>) {
    if steps == [] then Some(EMPTY)
    else match Execute(steps[..|steps| - 1])
      case None => None
      case Some(s) => if Enabled(s, steps[|steps| - 1]) then Some(Next(s, steps[|steps| - 1])) else None
  }

  lemma ExecuteSnoc(steps: seq<Step>, step: Step)
    ensures Execute(steps + [step]) == match Execute(steps)
      case None => None
      case Some(s) => if Enabled(s, step) then Some(Next(s, step)) else None
  {
    hide Enabled, Next;
    assert (steps + [step])[..|steps|] == steps;
  }

  lemma {:induction false} ExecutionKeepsInv(steps: seq<Step>)
    requires Execute(steps).Some?
    ensures Inv(Execute(steps).value)
  {
    if steps != [] {
      hide Inv, Enabled, Next;
      ExecutionKeepsInv(steps[..|steps| - 1]);
      StepKeepsInv(Execute(steps[..|steps| - 1]).value, steps[|steps| - 1]);
    } else {
      hide OnceGranted;
    }
  }

  // ----- The receiver's patches -----

  /** A receiver patch that applies lands on exactly the version it read: the same incarnation, still nonterminal. */
  lemma ReceiverPatchIsExact(s: State)
    requires Inv(s) && Applies(s)
    ensures var copy := s.receiver.value.copy;
      && s.tasks[copy.name] == copy && !TaskTerminal(copy.phase)
      && copy.name in Next(s, ReceiverPatch).tasks
      && Next(s, ReceiverPatch).tasks[copy.name].uid == copy.uid
  {
    hide OnceGranted;
  }

  /** In every execution: whenever Ready is written, some earlier state of the receiver's directory had a published snapshot
      with a grant for that very UID. */
  lemma ReadyFollowsSnapshot(steps: seq<Step>)
    requires Execute(steps).Some?
    ensures forall uid :: uid in Execute(steps).value.readied ==> OnceGranted(Execute(steps).value.disk, uid)
    ensures var s := Execute(steps).value;
      Applies(s) && s.receiver.value.verdict == Ready ==> OnceGranted(s.disk, s.tasks[s.receiver.value.copy.name].uid)
  {
    ExecutionKeepsInv(steps);
    hide OnceGranted;
  }

  // ----- Terminal for good -----

  /** Once an incarnation is terminal it stays terminal, whoever writes. */
  lemma TerminalStaysTerminal(s: State, step: Step, name: string)
    requires Inv(s) && Enabled(s, step) && name in s.tasks && TaskTerminal(s.tasks[name].phase)
    ensures var t := Next(s, step).tasks;
      name in t ==> t[name].uid == s.tasks[name].uid && TaskTerminal(t[name].phase)
  {
    hide OnceGranted, Judges;
    if step.ReceiverPatch? && Applies(s) {
      ReceiverPatchIsExact(s);
    }
  }

  /** The incarnation under a name changes only by creation, with a UID no stored version has. */
  lemma SameOrCreated(s: State, step: Step, name: string)
    requires Enabled(s, step) && name in Next(s, step).tasks
    ensures var uid := Next(s, step).tasks[name].uid;
      (name in s.tasks && s.tasks[name].uid == uid && !(step.Create? && step.name == name))
      || (step == Create(name, uid) && forall t :: t in s.past ==> t.uid != uid)
  {
    hide Judges;
  }

  lemma {:induction false} PastGrows(steps: seq<Step>, more: seq<Step>)
    requires Execute(steps + more).Some?
    ensures Execute(steps).Some? && Execute(steps).value.past <= Execute(steps + more).value.past
    decreases |more|
  {
    if more == [] {
      assert steps + more == steps;
    } else {
      var fewer, step := more[..|more| - 1], more[|more| - 1];
      assert steps + more == steps + fewer + [step];
      ExecuteSnoc(steps + fewer, step);
      PastGrows(steps, fewer);
    }
  }

  lemma PresentIsStored(steps: seq<Step>, name: string)
    requires Execute(steps).Some? && name in Execute(steps).value.tasks
    ensures Execute(steps).value.tasks[name] in Execute(steps).value.past
  {
    ExecutionKeepsInv(steps);
    hide OnceGranted, Execute;
  }

  lemma TerminalOneMore(s: State, step: Step, name: string, uid: string)
    requires Inv(s) && Enabled(s, step) && exists t :: t in s.past && t.uid == uid
    requires name in s.tasks && s.tasks[name].uid == uid ==> TaskTerminal(s.tasks[name].phase)
    ensures var t := Next(s, step).tasks;
      name in t && t[name].uid == uid ==> TaskTerminal(t[name].phase)
  {
    hide Inv, Enabled, Next;
    var t := Next(s, step).tasks;
    if name in t && t[name].uid == uid {
      SameOrCreated(s, step, name);
      TerminalStaysTerminal(s, step, name);
    }
  }

  /** Between two states of an execution, an incarnation that was terminal is gone, replaced, or terminal still. */
  lemma {:induction false} TerminalForGood(steps: seq<Step>, more: seq<Step>, name: string)
    requires Execute(steps).Some? && Execute(steps + more).Some?
    requires name in Execute(steps).value.tasks && TaskTerminal(Execute(steps).value.tasks[name].phase)
    ensures var t, uid := Execute(steps + more).value.tasks, Execute(steps).value.tasks[name].uid;
      name in t && t[name].uid == uid ==> TaskTerminal(t[name].phase)
    decreases |more|
  {
    if more == [] {
      assert steps + more == steps;
    } else {
      var fewer, step := more[..|more| - 1], more[|more| - 1];
      assert steps + more == steps + fewer + [step];
      hide Inv, Enabled, Next, Execute;
      ExecuteSnoc(steps + fewer, step);
      TerminalForGood(steps, fewer, name);
      ExecutionKeepsInv(steps + fewer);
      PresentIsStored(steps, name);
      PastGrows(steps, fewer);
      TerminalOneMore(Execute(steps + fewer).value, step, name, Execute(steps).value.tasks[name].uid);
    }
  }

  // ----- The controller's patches -----

  /** The task now under this name was created after the copy was stored. */
  ghost predicate CreatedSince(steps: seq<Step>, name: string, uid: string, copy: Stored) {
    exists k :: 0 <= k < |steps| && steps[k] == Create(name, uid)
      && Execute(steps[..k]).Some? && copy in Execute(steps[..k]).value.past
  }

  /** A step other than creating the task stores, under its name, only versions of the incarnation that is there. */
  lemma StoredOnlyOwn(s: State, step: Step, name: string)
    requires Inv(s) && Enabled(s, step) && name in s.tasks
    ensures forall t :: t in Next(s, step).past && t.name == name ==> t in s.past || t.uid == s.tasks[name].uid
  {
    hide OnceGranted, Judges;
  }

  /** Since the k-th step created it, only this incarnation was stored under the name. */
  ghost predicate OwnSince(s: State, name: string, uid: string, before: set<Stored>) {
    && (forall t :: t in s.past && t.name == name ==> t in before || t.uid == uid)
    && forall t :: t in before ==> t.uid != uid
  }

  lemma OwnOneMore(s: State, step: Step, name: string, before: set<Stored>)
    requires Inv(s) && Enabled(s, step) && name in s.tasks && OwnSince(s, name, s.tasks[name].uid, before)
    ensures OwnSince(Next(s, step), name, s.tasks[name].uid, before)
  {
    StoredOnlyOwn(s, step, name);
    hide Inv, Enabled, Next;
  }

  lemma OwnFromCreation(s: State, step: Step)
    requires Inv(s) && Enabled(s, step) && step.Create?
    ensures OwnSince(Next(s, step), step.name, step.uid, s.past)
  {
    hide OnceGranted;
  }

  /** When the present incarnation was created. */
  lemma {:induction false} Creation(steps: seq<Step>, name: string) returns (k: nat)
    requires Execute(steps).Some? && name in Execute(steps).value.tasks
    ensures var s := Execute(steps).value;
      && k < |steps| && steps[k] == Create(name, s.tasks[name].uid) && Execute(steps[..k]).Some?
      && OwnSince(s, name, s.tasks[name].uid, Execute(steps[..k]).value.past)
  {
    hide Inv, Enabled, Next, OwnSince;
    var fewer, step := steps[..|steps| - 1], steps[|steps| - 1];
    var before := Execute(fewer).value;
    ExecutionKeepsInv(fewer);
    SameOrCreated(before, step, name);
    if step.Create? && step.name == name {
      k := |fewer|;
      assert steps[..k] == fewer;
      OwnFromCreation(before, step);
    } else {
      k := Creation(fewer, name);
      assert steps[..k] == fewer[..k] && steps[k] == fewer[k];
      OwnOneMore(before, step, name, Execute(steps[..k]).value.past);
    }
  }

  lemma {:induction false} CreatedFresh(steps: seq<Step>, j: nat)
    requires Execute(steps).Some? && j < |steps| && steps[j].Create? && Execute(steps[..j]).Some?
    ensures forall t :: t in Execute(steps[..j]).value.past ==> t.uid != steps[j].uid
    decreases |steps|
  {
    if j < |steps| - 1 {
      var fewer := steps[..|steps| - 1];
      assert fewer[..j] == steps[..j] && fewer[j] == steps[j];
      CreatedFresh(fewer, j);
    }
  }

  /** The copy in the controller's hand is another incarnation's exactly when the present one was created since. */
  lemma OtherIffCreatedSince(steps: seq<Step>, name: string)
    requires Execute(steps).Some?
    requires var s := Execute(steps).value; name in s.tasks && name in s.controllers
    ensures var s := Execute(steps).value;
      s.tasks[name].uid != s.controllers[name].uid <==> CreatedSince(steps, name, s.tasks[name].uid, s.controllers[name])
  {
    var s := Execute(steps).value;
    var uid, cached := s.tasks[name].uid, s.controllers[name];
    ExecutionKeepsInv(steps);
    var k := Creation(steps, name);
    assert cached in s.past && cached.name == name;
    if CreatedSince(steps, name, uid, cached) {
      var j :| 0 <= j < |steps| && steps[j] == Create(name, uid)
        && Execute(steps[..j]).Some? && cached in Execute(steps[..j]).value.past;
      CreatedFresh(steps, j);
    }
    hide OnceGranted, Execute, Inv;
  }

  /** The patch stores a new version of an incarnation other than the one it was computed from. */
  predicate LandsOnOther(s: State, name: string, phase: TaskPhase, message: string)
    requires Enabled(s, ControllerPatch(name, phase, message))
  {
    var t := Next(s, ControllerPatch(name, phase, message));
    name in t.tasks && t.tasks[name] !in s.past && t.tasks[name].uid != s.controllers[name].uid
  }

  /** After any execution, a controller patch lands on an incarnation other than the one it was computed from exactly when
      there is a task under that name, it was created after the copy in the controller's hand was stored (before or after
      the cache gave that copy), and the copy does not already say what the patch says. */
  lemma ControllerPatchLandsOnOther(steps: seq<Step>, name: string, phase: TaskPhase, message: string)
    requires Execute(steps).Some? && Enabled(Execute(steps).value, ControllerPatch(name, phase, message))
    ensures var s := Execute(steps).value;
      var cached := s.controllers[name];
      LandsOnOther(s, name, phase, message) <==>
        && name in s.tasks && CreatedSince(steps, name, s.tasks[name].uid, cached)
        && !(cached.phase == phase && cached.error == message)
  {
    ExecutionKeepsInv(steps);
    if name in Execute(steps).value.tasks {
      OtherIffCreatedSince(steps, name);
    }
    hide OnceGranted, Execute, CreatedSince;
  }

  /** It ends a task that had not ended exactly when, besides, that task is not terminal and the copy's phase is another. */
  lemma FreshTaskIsEndedIff(steps: seq<Step>, name: string, phase: TaskPhase, message: string)
    requires Execute(steps).Some? && Enabled(Execute(steps).value, ControllerPatch(name, phase, message))
    requires name in Execute(steps).value.tasks
    ensures var s := Execute(steps).value;
      var t, cached := s.tasks[name], s.controllers[name];
      var u := Next(s, ControllerPatch(name, phase, message)).tasks[name];
      LandsOnOther(s, name, phase, message) && !TaskTerminal(t.phase) && TaskTerminal(u.phase) <==>
        CreatedSince(steps, name, t.uid, cached) && !TaskTerminal(t.phase) && cached.phase != phase
  {
    ControllerPatchLandsOnOther(steps, name, phase, message);
    hide LandsOnOther, Execute, CreatedSince;
  }

  lemma WitnessSteps(a: Stored, b: Stored, s1: State, s2: State, s3: State, s4: State)
    requires a == Stored("n", "a", 0, TaskUnset, "") && b == Stored("n", "b", 1, TaskUnset, "")
    requires s1 == Write(EMPTY, a) && s2 == s1.(controllers := map["n" := a])
    requires s3 == s2.(tasks := map[]) && s4 == Write(s3, b)
    ensures Enabled(EMPTY, Create("n", "a")) && Next(EMPTY, Create("n", "a")) == s1
    ensures Enabled(s1, ControllerRead(a)) && Next(s1, ControllerRead(a)) == s2
    ensures Enabled(s2, Delete("n")) && Next(s2, Delete("n")) == s3
    ensures Enabled(s3, Create("n", "b")) && Next(s3, Create("n", "b")) == s4
    ensures var patch := ControllerPatch("n", TaskFailed, "m");
      Enabled(s4, patch) && Next(s4, patch).tasks == map["n" := Stored("n", "b", 2, TaskFailed, "m")]
  {
  }

  /** It does happen: a fresh incarnation is ended by a patch meant for its predecessor. */
  lemma RecreatedTaskIsEnded()
    ensures var a := Stored("n", "a", 0, TaskUnset, "");
      var steps := [Create("n", "a"), ControllerRead(a), Delete("n"), Create("n", "b"), ControllerPatch("n", TaskFailed, "m")];
      && Execute(steps).Some?
      && Execute(steps).value.tasks == map["n" := Stored("n", "b", 2, TaskFailed, "m")]
  {
    var a := Stored("n", "a", 0, TaskUnset, "");
    var b := Stored("n", "b", 1, TaskUnset, "");
    var s1 := Write(EMPTY, a);
    var s2 := s1.(controllers := map["n" := a]);
    var s3 := s2.(tasks := map[]);
    var s4 := Write(s3, b);
    var steps := [Create("n", "a"), ControllerRead(a), Delete("n"), Create("n", "b"), ControllerPatch("n", TaskFailed, "m")];
    WitnessSteps(a, b, s1, s2, s3, s4);
    hide Enabled, Next, Write;
    ExecuteSnoc([], steps[0]);
    assert [] + [steps[0]] == steps[..1];
    ExecuteSnoc(steps[..1], steps[1]);
    assert steps[..1] + [steps[1]] == steps[..2];
    ExecuteSnoc(steps[..2], steps[2]);
    assert steps[..2] + [steps[2]] == steps[..3];
    ExecuteSnoc(steps[..3], steps[3]);
    assert steps[..3] + [steps[3]] == steps[..4];
    ExecuteSnoc(steps[..4], steps[4]);
    assert steps[..4] + [steps[4]] == steps;
  }
}
