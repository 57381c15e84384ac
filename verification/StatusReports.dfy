/** The receiver's status reports: one read and one version-checked patch for each task, other writers between any two calls
    (cmd/zfsrep-receiver/main.go). */
module StatusReports {
  import opened Text
  import opened RunApi
  import opened DiskModel
  import opened TaskStatus

  /** A step somebody other than the receiver takes. */
  predicate Foreign(step: Step) {
    step.Create? || step.Delete? || step.UpdateSpec? || step.ControllerRead? || step.ControllerPatch?
  }

  /** What the receiver's own bookkeeping is; nobody else changes it. */
  predicate SameReceiver(s: State, t: State) {
    t.disk == s.disk && t.due == s.due && t.receiver == s.receiver && t.readied == s.readied
  }

  lemma ForeignLeavesReceiver(s: State, step: Step)
    requires Enabled(s, step) && Foreign(step)
    ensures SameReceiver(s, Next(s, step))
  {
    hide Judges;
  }

  /** The status the receiver was to write for this very task, which has not ended. */
  predicate Addressed(t: Stored, d: Due) {
    t.name == d.name && t.uid == d.uid && !TaskTerminal(t.phase)
  }

  predicate Says(t: Stored, verdict: Verdict) {
    match verdict
    case Ready => t.phase == TaskReady && t.error == ""
    case Rejected(message) => t.phase == TaskFailed && t.error == message
  }

  /** One report, nobody interfering: the addressed task says the verdict, and no other task changed. */
  ghost predicate Told(before: map<string, Stored>, after: map<string, Stored>, d: Due) {
    && after.Keys == before.Keys
    && forall name :: name in before ==>
         if Addressed(before[name], d) then
           after[name].name == name && after[name].uid == before[name].uid && Says(after[name], d.verdict)
         else after[name] == before[name]
  }

  /** All the reports, nobody interfering. */
  ghost predicate AllTold(before: map<string, Stored>, after: map<string, Stored>, due: seq<Due>) {
    && after.Keys == before.Keys
    && forall name :: name in before ==>
         && after[name].name == before[name].name && after[name].uid == before[name].uid
         && (forall i :: 0 <= i < |due| && Addressed(before[name], due[i]) ==> Says(after[name], due[i].verdict))
         && ((forall i :: 0 <= i < |due| ==> !Addressed(before[name], due[i])) ==> after[name] == before[name])
  }

  /** A listing has one task of each name. */
  predicate DistinctNames(due: seq<Due>) {
    forall i, j :: 0 <= i < j < |due| ==> due[i].name != due[j].name
  }

  lemma OneMoreTold(start: map<string, Stored>, before: map<string, Stored>, after: map<string, Stored>, due: seq<Due>, d: Due)
    requires AllTold(start, before, due) && Told(before, after, d) && DistinctNames(due + [d])
    requires forall name :: name in start ==> start[name].name == name
    ensures AllTold(start, after, due + [d])
  {
    var more := due + [d];
    forall name | name in start
      ensures after[name].name == start[name].name && after[name].uid == start[name].uid
      ensures forall i :: 0 <= i < |more| && Addressed(start[name], more[i]) ==> Says(after[name], more[i].verdict)
      ensures (forall i :: 0 <= i < |more| ==> !Addressed(start[name], more[i])) ==> after[name] == start[name]
    {
      assert more[|due|] == d;
      assert forall i :: 0 <= i < |due| ==> more[i] == due[i] && due[i].name != d.name;
      if name == d.name {
        assert forall i :: 0 <= i < |due| ==> !Addressed(start[name], due[i]);
        assert before[name] == start[name];
      } else {
        assert !Addressed(start[name], d) && !Addressed(before[name], d);
      }
    }
  }

  lemma AfterRead(s: State, d: Due)
    requires Enabled(s, ReceiverRead(d)) && d.name in s.tasks
    ensures var t := Next(s, ReceiverRead(d));
      && t.tasks == s.tasks && t.disk == s.disk && t.due == s.due && t.readied == s.readied
      && t.receiver == if s.tasks[d.name].uid == d.uid && !TaskTerminal(s.tasks[d.name].phase)
           then Some(Holding(s.tasks[d.name], d.verdict)) else None
  {
  }

  lemma ReadEnabled(s: State, d: Due)
    requires d in s.due
    ensures Enabled(s, ReceiverRead(d))
  {
  }

  lemma PatchEnabled(s: State)
    requires s.receiver.Some?
    ensures Enabled(s, ReceiverPatch)
  {
  }

  /** What the receiver holds is a version of the task it owes `d` to. */
  predicate HoldsFor(s: State, d: Due) {
    s.receiver.Some? && s.receiver.value.verdict == d.verdict && Addressed(s.receiver.value.copy, d)
  }

  lemma AfterPatch(s: State, d: Due)
    requires Inv(s) && HoldsFor(s, d)
    ensures var t := Next(s, ReceiverPatch);
      && t.disk == s.disk && t.due == s.due
      && (forall uid :: uid in t.readied && uid !in s.readied ==> d.verdict == Ready && uid == d.uid)
      && (Applies(s) ==> Told(s.tasks, t.tasks, d))
  {
    hide OnceGranted;
    if Applies(s) {
      ReceiverPatchIsExact(s);
    }
  }

  lemma NamesMatch(steps: seq<Step>)
    requires Execute(steps).Some?
    ensures forall name :: name in Execute(steps).value.tasks ==> Execute(steps).value.tasks[name].name == name
  {
    ExecutionKeepsInv(steps);
    hide Execute, OnceGranted;
  }

  /** Nothing needs to be said to a task that is not the addressed one, or that says it already. */
  lemma UntouchedIsTold(tasks: map<string, Stored>, d: Due)
    requires forall name :: name in tasks ==> tasks[name].name == name && (Addressed(tasks[name], d) ==> Says(tasks[name], d.verdict))
    ensures Told(tasks, tasks, d)
  {
  }

  /** The stored tasks, and the whole execution so far. When `quiet`, nobody else writes and every call is answered. */
  class TaskStore {
    const quiet: bool
    var s: State
    ghost var steps: seq<Step>

    ghost predicate Valid()
      reads this
    {
      Execute(steps) == Some(s)
    }

    constructor (quiet: bool)
      ensures Valid() && this.quiet == quiet && s == EMPTY
    {
      this.quiet, s, steps := quiet, EMPTY, [];
    }

    method Take(step: Step)
      requires Valid() && Enabled(s, step)
      modifies this
      ensures Valid() && s == Next(old(s), step) && old(steps) <= steps
    {
      hide Enabled, Next, Execute;
      ExecuteSnoc(steps, step);
      s, steps := Next(s, step), steps + [step];
    }

    /** The receiver's directory went through these states. */
    method See(states: seq<FileSystem>)
      requires Valid()
      modifies this
      ensures Valid() && old(steps) <= steps && s == old(s).(disk := old(s.disk) + states)
    {
      hide Judges, Execute;
      Take(DiskMoves(states));
    }

    /** A publication came to these statuses. */
    method Owe(due: seq<Due>)
      requires Valid() && Judges(s.disk, due)
      modifies this
      ensures Valid() && old(steps) <= steps && s == old(s).(due := due)
    {
      hide Judges, Execute;
      Take(Reconciled(due));
    }

    /** Whatever the other writers do in the meantime. */
    method Others()
      requires Valid()
      modifies this
      ensures Valid() && old(steps) <= steps && SameReceiver(old(s), s)
      ensures quiet ==> s == old(s)
    {
      hide Execute, Next, Enabled;
      if quiet {
        return;
      }
      var rounds: nat :| 0 <= rounds;
      for _ := 0 to rounds
        invariant Valid() && old(steps) <= steps && SameReceiver(old(s), s)
      {
        var step: Step := *;
        if Enabled(s, step) && Foreign(step) {
          ForeignLeavesReceiver(s, step);
          Take(step);
        }
      }
    }

    method Answered() returns (answered: bool)
      ensures quiet ==> answered
    {
      answered := *;
      answered := quiet || answered;
    }

    method SendPatch(d: Due) returns (ok: bool)
      requires Valid() && HoldsFor(s, d)
      requires quiet ==> Applies(s)
      modifies this
      ensures Valid() && old(steps) <= steps && s.disk == old(s.disk) && s.due == old(s.due)
      ensures forall uid :: uid in s.readied && uid !in old(s.readied) ==> d.verdict == Ready && uid == d.uid
      ensures quiet ==> Told(old(s.tasks), s.tasks, d) && ok
    {
      hide Execute, Enabled, Next, Inv, Told, Applies;
      Others();
      var answered := Answered();
      if !answered {
        return false;
      }
      ok := Applies(s);
      ExecutionKeepsInv(steps);
      AfterPatch(s, d);
      PatchEnabled(s);
      Take(ReceiverPatch);
    }

    /** One report: read the task itself, give up when it is another or has ended, patch it at the version read. */
    method PatchTask(d: Due) returns (ok: bool)
      requires Valid() && d in s.due
      modifies this
      ensures Valid() && old(steps) <= steps && s.disk == old(s.disk) && s.due == old(s.due)
      ensures forall uid :: uid in s.readied && uid !in old(s.readied) ==> d.verdict == Ready && uid == d.uid
      ensures quiet ==> Told(old(s.tasks), s.tasks, d) && (ok <==> d.name in old(s.tasks))
    {
      hide Execute, Enabled, Next, Inv, Told;
      Others();
      NamesMatch(steps);
      var answered := Answered();
      if !answered || d.name !in s.tasks {
        if quiet {
          UntouchedIsTold(s.tasks, d);
        }
        return false;
      }
      ReadEnabled(s, d);
      AfterRead(s, d);
      Take(ReceiverRead(d));
      if s.receiver.None? {
        UntouchedIsTold(s.tasks, d);
        return true;
      }
      if d.verdict == Ready && s.receiver.value.copy.phase == TaskReady && s.receiver.value.copy.error == "" {
        // Nothing is sent when the endpoint, too, is what it was.
        var same: bool := *;
        if same {
          UntouchedIsTold(s.tasks, d);
          return true;
        }
      }
      ok := SendPatch(d);
    }

    /** The reports in order; an error does not stop the others. */
    method ReportAll(due: seq<Due>) returns (clean: bool)
      requires Valid() && due == s.due
      modifies this
      ensures Valid() && old(steps) <= steps && s.disk == old(s.disk)
      ensures forall uid :: uid in s.readied && uid !in old(s.readied) ==> exists d :: d in due && d.verdict == Ready && d.uid == uid
      ensures quiet && DistinctNames(due) ==> AllTold(old(s.tasks), s.tasks, due)
      ensures quiet && DistinctNames(due) ==> (clean <==> forall d :: d in due ==> d.name in old(s.tasks))
    {
      clean := true;
      ghost var start, begun := s.tasks, steps;
      for i := 0 to |due|
        invariant Valid() && old(steps) <= steps && s.disk == old(s.disk) && s.due == due
        invariant forall uid :: uid in s.readied && uid !in old(s.readied) ==> exists d :: d in due && d.verdict == Ready && d.uid == uid
        invariant quiet && DistinctNames(due) ==> AllTold(start, s.tasks, due[..i])
        invariant quiet && DistinctNames(due) ==> (clean <==> forall d :: d in due[..i] ==> d.name in start)
      {
        ghost var before := s.tasks;
        var ok := PatchTask(due[i]);
        clean := clean && ok;
        if quiet && DistinctNames(due) {
          assert due[..i + 1] == due[..i] + [due[i]];
          NamesMatch(begun);
          OneMoreTold(start, before, s.tasks, due[..i], due[i]);
        }
      }
      assert due[..|due|] == due;
    }
  }
}
