/** The receiver's authorization controller: from the listed Receive Tasks to a published snapshot and the status each task
    is due (cmd/zfsrep-receiver/authorization_controller.go, cmd/zfsrep-receiver/main.go). */
module ReceiverController {
  import opened Text
  import opened Grants
  import opened Canonical
  import opened DiskModel
  import opened SnapshotState
  import opened Publication
  import opened Datasets
  import opened Compression
  import SyncoidContract
  import opened Lifetime
  import opened CommandAuthorize
  import opened StatusReports
  import RunApi
  import TaskStatus

  /** A Receive Task as listed. */
  datatype Listed = Listed(
    name: string,
    uid: string,
    nodeName: string,
    phase: RunApi.TaskPhase,
    publicKey: string,
    expiresAt: int,
    policy: CommandPolicy)

  predicate Relevant(task: Listed, node: string) {
    task.nodeName == node && !RunApi.TaskTerminal(task.phase)
  }

  function CandidateOf(task: Listed, prefixes: seq<string>): (c: Candidate) {
    Candidate(task.uid, task.publicKey, task.expiresAt, prefixes, task.policy)
  }

  /** The candidate carries the task's own claims, with the receiver's prefixes. */
  predicate StandsFor(c: Candidate, task: Listed, prefixes: seq<string>) {
    && c.taskUID == task.uid && c.authorizedPublicKey == task.publicKey && c.expiresAt == task.expiresAt
    && c.receiverDatasetPrefixes == prefixes && c.policy == task.policy
  }

  function CandidateTasks(tasks: seq<Listed>, node: string): (relevant: seq<Listed>) {
    if tasks == [] then []
    else
      var earlier, last := CandidateTasks(tasks[..|tasks| - 1], node), tasks[|tasks| - 1];
      if Relevant(last, node) then earlier + [last] else earlier
  }

  /** Two parallel slices: the candidates, and the tasks they came from. */
  method ListReceiveTaskCandidates(tasks: seq<Listed>, node: string, prefixes: seq<string>)
    returns (candidates: seq<Candidate>, candidateTasks: seq<Listed>)
    ensures candidateTasks == CandidateTasks(tasks, node)
    ensures |candidates| == |candidateTasks|
    ensures forall i :: 0 <= i < |candidates| ==> StandsFor(candidates[i], candidateTasks[i], prefixes)
    ensures forall task :: task in candidateTasks <==> task in tasks && Relevant(task, node)
  {
    candidates, candidateTasks := [], [];
    for i := 0 to |tasks|
      invariant candidateTasks == CandidateTasks(tasks[..i], node)
      invariant |candidates| == |candidateTasks|
      invariant forall j :: 0 <= j < |candidates| ==> StandsFor(candidates[j], candidateTasks[j], prefixes)
      invariant forall task :: task in candidateTasks <==> task in tasks[..i] && Relevant(task, node)
    {
      assert tasks[..i + 1][..i] == tasks[..i];
      assert tasks[..i + 1] == tasks[..i] + [tasks[i]];
      if tasks[i].nodeName != node {
        continue;
      }
      if RunApi.TaskTerminal(tasks[i].phase) {
        continue;
      }
      candidates := candidates + [CandidateOf(tasks[i], prefixes)];
      candidateTasks := candidateTasks + [tasks[i]];
    }
    assert tasks[..|tasks|] == tasks;
  }

  datatype Wake = Idle | AtOnce | Later(delay: int)

  function DeadlineResult(now: int, next: Option<int>): (w: Wake) {
    match next
    case None => Idle
    case Some(deadline) => if deadline <= now then AtOnce else Later(deadline - now)
  }

  datatype Startup = NotReported | Reported(ok: bool)

  /** A complete snapshot is published. */
  ghost predicate Serving(fs: FileSystem) {
    Sound(fs) && ManifestPath in fs && Complete(fs, Active(fs))
  }

  lemma PublishedServes(fs: FileSystem, id: SnapshotId)
    requires Sound(fs) && Entry(fs, ManifestPath) == Some(Published(id))
    ensures Serving(fs) && Active(fs) == id
  {
    SoundMeans(fs);
  }

  /** The statuses are for the listed tasks, in order, and Ready goes to those the published snapshot grants. */
  ghost predicate DueFor(fs: FileSystem, tasks: seq<Listed>, due: seq<TaskStatus.Due>) {
    && |due| == |tasks|
    && forall i :: 0 <= i < |due| ==>
         && due[i].name == tasks[i].name && due[i].uid == tasks[i].uid
         && (due[i].verdict == TaskStatus.Ready <==> Holds(fs, due[i].uid))
  }

  predicate WithinPrefixes(dataset: string, prefixes: seq<string>) {
    prefixes == [] || exists prefix :: prefix in prefixes && DatasetOrChild(dataset, prefix)
  }

  /** The grant carries the task's own key, until its own deadline, for what its own spec permits. */
  predicate GrantsTask(g: Grant, task: Listed, canon: KeyReader) {
    && g.taskUID == task.uid && g.expiresAt == task.expiresAt && canon(task.publicKey) == Some(g.authorizedPublicKey)
    && g.policy == task.policy.(compression := if task.policy.compression == "" then "none" else task.policy.compression)
  }

  /** The published snapshot has a grant for the task, under its own ID, within the receiver's prefixes. */
  ghost predicate LetsIn(fs: FileSystem, task: Listed, prefixes: seq<string>, canon: KeyReader) {
    && AllRight(fs) && ManifestPath in fs && WithinPrefixes(task.policy.targetDataset, prefixes)
    && exists g :: Entry(fs, GrantFile(Final(Active(fs)), task.uid)) == Some(File(GrantText(g))) && GrantsTask(g, task, canon)
  }

  lemma SpokenIsGranted(g: Grant, c: Candidate, task: Listed, prefixes: seq<string>, canon: KeyReader)
    requires Speaks(g, c, canon) && StandsFor(c, task, prefixes)
    ensures GrantsTask(g, task, canon)
  {
  }

  lemma EligibleIsWithin(now: int, c: Candidate, canon: KeyReader)
    requires Eligible(now, c, canon)
    ensures WithinPrefixes(c.policy.targetDataset, c.receiverDatasetPrefixes)
  {
    hide ValidDatasetName, CompressionSupported, SyncoidContract.ValidIdentifier, DatasetOrChild;
  }

  lemma AcceptedIsLetIn(fs: FileSystem, now: int, cs: seq<Candidate>, lapsed: set<string>, canon: KeyReader, outcomes: seq<Outcome>,
                        i: nat, task: Listed, prefixes: seq<string>)
    requires AllRight(fs) && Settled(now, cs, lapsed, canon, outcomes) && Admits(fs, cs, outcomes, canon)
    requires i < |cs| && outcomes[i].rejection.None? && StandsFor(cs[i], task, prefixes)
    ensures LetsIn(fs, task, prefixes, canon)
  {
    hide LinesFor, Speaks, Eligible, Alone, WithinPrefixes, GrantsTask, AllRight;
    EligibleIsWithin(now, cs[i], canon);
    assert AcceptedAt(outcomes, i);
    var m :| Entry(fs, ManifestPath) == Some(File(ManifestText(m)))
      && LinesFor(m, cs, outcomes, canon) && FilesFor(fs, m.header, cs, outcomes, canon);
    var g :| Entry(fs, GrantFile(Final(m.header), cs[i].taskUID)) == Some(File(GrantText(g))) && Speaks(g, cs[i], canon);
    SpokenIsGranted(g, cs[i], task, prefixes, canon);
  }

  /** The published snapshot grants this listed task. */
  ghost predicate HeldAt(fs: FileSystem, tasks: seq<Listed>, i: int) {
    0 <= i < |tasks| && Holds(fs, tasks[i].uid)
  }

  /** The first deadline among the granted tasks, if there is any. */
  ghost predicate EarliestHeld(fs: FileSystem, tasks: seq<Listed>, next: Option<int>) {
    && (next.None? ==> forall i :: !HeldAt(fs, tasks, i))
    && (next.Some? ==>
          && (exists i :: HeldAt(fs, tasks, i) && tasks[i].expiresAt == next.value)
          && forall i :: HeldAt(fs, tasks, i) ==> next.value <= tasks[i].expiresAt)
  }

  /** The next reconcile comes when the first granted lease ends: never, at once, or after exactly the time that is left. */
  ghost predicate WakesFor(fs: FileSystem, tasks: seq<Listed>, later: int, wake: Wake) {
    && (wake.Idle? <==> forall i :: !HeldAt(fs, tasks, i))
    && (wake.AtOnce? <==> exists i :: HeldAt(fs, tasks, i) && tasks[i].expiresAt <= later)
    && (wake.Later? ==>
          && wake.delay > 0
          && (exists i :: HeldAt(fs, tasks, i) && tasks[i].expiresAt == later + wake.delay)
          && forall i :: HeldAt(fs, tasks, i) ==> later + wake.delay <= tasks[i].expiresAt)
  }

  lemma DeadlineWakes(fs: FileSystem, tasks: seq<Listed>, next: Option<int>, later: int)
    requires EarliestHeld(fs, tasks, next)
    ensures WakesFor(fs, tasks, later, DeadlineResult(later, next))
  {
    hide Holds;
  }

  lemma FirstIsEarliest(fs: FileSystem, cs: seq<Candidate>, outcomes: seq<Outcome>, tasks: seq<Listed>, prefixes: seq<string>,
                        next: Option<int>)
    requires |outcomes| == |cs| == |tasks| && FirstDeadline(cs, outcomes, next)
    requires forall i :: 0 <= i < |cs| ==> StandsFor(cs[i], tasks[i], prefixes)
    requires forall i :: 0 <= i < |cs| ==> (outcomes[i].rejection.None? <==> Holds(fs, tasks[i].uid))
    ensures EarliestHeld(fs, tasks, next)
  {
    hide Holds;
    forall i ensures AcceptedAt(outcomes, i) <==> HeldAt(fs, tasks, i) {
    }
    if next.Some? {
      var i :| AcceptedAt(outcomes, i) && cs[i].expiresAt == next.value;
      assert HeldAt(fs, tasks, i);
    }
  }

  /** Only the active generation is left. */
  ghost predicate Tidy(fs: FileSystem) {
    AllRight(fs) && ManifestPath in fs && forall name :: Generation(name) in fs ==> name == Final(Active(fs))
  }

  /** What the store last saw of the receiver's directory is what is there now. */
  predicate InStep(s: TaskStatus.State, fs: FileSystem) {
    s.disk != [] && s.disk[|s.disk| - 1] == fs
  }

  /** Under this name the task that was listed is still there, and it has not ended. */
  predicate StillThere(tasks: map<string, TaskStatus.Stored>, task: Listed) {
    && task.name in tasks && tasks[task.name].name == task.name && tasks[task.name].uid == task.uid
    && !RunApi.TaskTerminal(tasks[task.name].phase)
  }

  predicate DistinctTasks(tasks: seq<Listed>) {
    forall i, j :: 0 <= i < j < |tasks| ==> tasks[i].name != tasks[j].name
  }

  /** The rejection as the message a task's status carries. */
  type Wording = Rejection -> string

  /** The listed tasks were judged as candidates, each by its own claims. */
  ghost predicate JudgedTasks(now: int, tasks: seq<Listed>, prefixes: seq<string>, lapsed: set<string>, canon: KeyReader,
                              outcomes: seq<Outcome>)
  {
    exists cs: seq<Candidate> :: |cs| == |tasks| && Settled(now, cs, lapsed, canon, outcomes)
      && forall i :: 0 <= i < |cs| ==> StandsFor(cs[i], tasks[i], prefixes)
  }

  /** Each status gives the reason its task was refused for. */
  predicate Explains(due: seq<TaskStatus.Due>, outcomes: seq<Outcome>, wording: Wording) {
    && |due| == |outcomes|
    && forall i :: 0 <= i < |due| && outcomes[i].rejection.Some? ==>
         due[i].verdict == TaskStatus.Rejected(wording(outcomes[i].rejection.value))
  }

  /** Every listed task that was still there and was refused says why. */
  ghost predicate SayWhy(tasks: seq<Listed>, outcomes: seq<Outcome>, wording: Wording, before: map<string, TaskStatus.Stored>,
                         after: map<string, TaskStatus.Stored>)
  {
    && |outcomes| == |tasks|
    && forall i :: 0 <= i < |tasks| && StillThere(before, tasks[i]) && outcomes[i].rejection.Some? ==>
         tasks[i].name in after && after[tasks[i].name].error == wording(outcomes[i].rejection.value)
  }

  lemma ToldWhy(fs: FileSystem, tasks: seq<Listed>, due: seq<TaskStatus.Due>, outcomes: seq<Outcome>, wording: Wording,
                before: map<string, TaskStatus.Stored>, after: map<string, TaskStatus.Stored>)
    requires DueFor(fs, tasks, due) && AllTold(before, after, due) && Explains(due, outcomes, wording)
    ensures SayWhy(tasks, outcomes, wording, before, after)
  {
    hide Holds;
    forall i | 0 <= i < |tasks| && StillThere(before, tasks[i]) && outcomes[i].rejection.Some?
      ensures tasks[i].name in after && after[tasks[i].name].error == wording(outcomes[i].rejection.value)
    {
      assert Addressed(before[tasks[i].name], due[i]);
    }
  }

  /** Every listed task that was still there is told how the published snapshot stands to it; the others keep their status. */
  ghost predicate Statuses(fs: FileSystem, tasks: seq<Listed>, before: map<string, TaskStatus.Stored>,
                           after: map<string, TaskStatus.Stored>)
  {
    && after.Keys == before.Keys
    && (forall task :: task in tasks && StillThere(before, task) ==>
          && after[task.name].uid == task.uid
          && (after[task.name].phase == RunApi.TaskReady <==> Holds(fs, task.uid))
          && (after[task.name].phase == RunApi.TaskFailed <==> !Holds(fs, task.uid)))
    && forall name :: name in before && (forall task :: task in tasks && StillThere(before, task) ==> task.name != name) ==>
         after[name] == before[name]
  }

  lemma AllToldIsStatuses(fs: FileSystem, tasks: seq<Listed>, due: seq<TaskStatus.Due>, before: map<string, TaskStatus.Stored>,
                          after: map<string, TaskStatus.Stored>)
    requires DueFor(fs, tasks, due) && AllTold(before, after, due)
    requires forall name :: name in before ==> before[name].name == name
    ensures Statuses(fs, tasks, before, after)
  {
    hide Holds;
    forall task | task in tasks && StillThere(before, task)
      ensures after[task.name].uid == task.uid
      ensures after[task.name].phase == RunApi.TaskReady <==> Holds(fs, task.uid)
      ensures after[task.name].phase == RunApi.TaskFailed <==> !Holds(fs, task.uid)
    {
      var i :| 0 <= i < |tasks| && tasks[i] == task;
      assert Addressed(before[task.name], due[i]);
    }
    forall name | name in before && (forall task :: task in tasks && StillThere(before, task) ==> task.name != name)
      ensures after[name] == before[name]
    {
      forall i | 0 <= i < |due| ensures !Addressed(before[name], due[i]) {
        assert tasks[i] in tasks;
      }
    }
  }

  lemma DueNames(fs: FileSystem, tasks: seq<Listed>, due: seq<TaskStatus.Due>, names: set<string>)
    requires DueFor(fs, tasks, due)
    ensures (forall d :: d in due ==> d.name in names) <==> forall task :: task in tasks ==> task.name in names
  {
    hide Holds;
    if forall task :: task in tasks ==> task.name in names {
      forall d | d in due ensures d.name in names {
        var i :| 0 <= i < |due| && due[i] == d;
        assert tasks[i] in tasks;
      }
    }
    if forall d :: d in due ==> d.name in names {
      forall task | task in tasks ensures task.name in names {
        var i :| 0 <= i < |tasks| && tasks[i] == task;
        assert due[i] in due;
      }
    }
  }

  lemma StaysInStep(s: TaskStatus.State, h: seq<FileSystem>, later: seq<FileSystem>)
    requires h != [] && InStep(s, h[|h| - 1]) && h <= later
    ensures InStep(s.(disk := s.disk + later[|h|..]), later[|later| - 1])
  {
  }

  lemma DueIsJudged(disk: seq<FileSystem>, fs: FileSystem, tasks: seq<Listed>, due: seq<TaskStatus.Due>)
    requires disk != [] && disk[|disk| - 1] == fs && DueFor(fs, tasks, due)
    ensures TaskStatus.Judges(disk, due)
    ensures DistinctTasks(tasks) ==> DistinctNames(due)
    ensures forall d :: d in due && d.verdict == TaskStatus.Ready ==> Holds(fs, d.uid)
  {
    hide Holds;
  }

  lemma HeldIffAccepted(fs: FileSystem, now: int, cs: seq<Candidate>, lapsed: set<string>, canon: KeyReader, i: nat)
    requires i < |cs| && Sound(fs) && ManifestPath in fs && Active(fs) == CanonicalGrants(Compiled(now, cs, lapsed, canon))
    ensures MarkLapsed(Outcomes(now, cs, canon), lapsed)[i].rejection.None? <==> Holds(fs, cs[i].taskUID)
  {
    hide Sound, Active, CanonicalGrants, Compiled, Outcomes, MarkLapsed;
    OutcomeIffGranted(now, cs, lapsed, canon, i);
  }

  class AuthorizationController {
    const authorization: Receiver
    const node: string
    const prefixes: seq<string>
    const wording: Wording
    var initialPending: bool
    var initial: Startup
    var fatal: bool

    constructor (authorization: Receiver, node: string, prefixes: seq<string>, wording: Wording)
      ensures this.authorization == authorization && this.node == node && this.prefixes == prefixes && this.wording == wording
      ensures !initialPending && initial == NotReported && !fatal
    {
      this.authorization, this.node, this.prefixes, this.wording := authorization, node, prefixes, wording;
      initialPending, initial, fatal := false, NotReported, false;
    }

    /** The pending flag and the one report belong together. */
    ghost predicate Valid()
      reads this, authorization, authorization.disk
    {
      authorization.Valid() && (initialPending ==> initial == NotReported)
    }

    method StartInitial()
      requires Valid() && initial == NotReported
      modifies this`initialPending
      ensures Valid() && initialPending
    {
      initialPending := true;
    }

    /** Reports the first result, once; false when there was nothing to report to. */
    method ReportInitial(ok: bool) returns (reported: bool)
      requires Valid()
      modifies this`initialPending, this`initial
      ensures Valid() && !initialPending && reported == old(initialPending)
      ensures initial == if old(initialPending) then Reported(ok) else old(initial)
    {
      reported := initialPending;
      if initialPending {
        initialPending, initial := false, Reported(ok);
      }
    }

    method HandlePublicationFailure(activeAuthorityUsable: bool) returns (retry: bool)
      requires Valid()
      modifies this
      ensures Valid() && retry == activeAuthorityUsable
      ensures retry ==> fatal == old(fatal) && initial == old(initial) && initialPending == old(initialPending)
      ensures !retry ==> initialPending == false && (fatal || initial == Reported(false))
      ensures !retry && old(initialPending) ==> initial == Reported(false)
      ensures !retry && !old(initialPending) ==> fatal && initial == old(initial)
      ensures fatal && !old(fatal) ==> !old(initialPending)
      ensures initial != old(initial) ==> old(initialPending) && initial == Reported(false)
    {
      if activeAuthorityUsable {
        return true;
      }
      var reported := ReportInitial(false);
      if !reported {
        fatal := true;
      }
      return false;
    }

    /** An error goes to the waiting startup, once; afterwards to the caller. */
    method ReconcileError() returns (retry: bool)
      requires Valid()
      modifies this`initialPending, this`initial
      ensures Valid() && retry == !old(initialPending) && !initialPending
      ensures initial == if old(initialPending) then Reported(false) else old(initial)
    {
      var reported := ReportInitial(false);
      retry := !reported;
    }

    method DueStatuses(tasks: seq<Listed>, outcomes: seq<Outcome>) returns (due: seq<TaskStatus.Due>)
      requires |outcomes| == |tasks|
      ensures |due| == |outcomes|
      ensures forall i :: 0 <= i < |due| ==>
        && due[i].name == tasks[i].name && due[i].uid == tasks[i].uid
        && (due[i].verdict == TaskStatus.Ready <==> outcomes[i].rejection.None?)
        && (outcomes[i].rejection.Some? ==> due[i].verdict == TaskStatus.Rejected(wording(outcomes[i].rejection.value)))
    {
      due := [];
      for i := 0 to |outcomes|
        invariant |due| == i
        invariant forall j :: 0 <= j < i ==>
          && due[j].name == tasks[j].name && due[j].uid == tasks[j].uid
          && due[j].verdict == match outcomes[j].rejection
               case None => TaskStatus.Ready
               case Some(rejection) => TaskStatus.Rejected(wording(rejection))
      {
        match outcomes[i].rejection {
          case Some(rejection) =>
            due := due + [TaskStatus.Due(tasks[i].name, tasks[i].uid, TaskStatus.Rejected(wording(rejection)))];
          case None =>
            due := due + [TaskStatus.Due(tasks[i].name, tasks[i].uid, TaskStatus.Ready)];
        }
      }
    }

    method Publish(candidates: seq<Candidate>, tasks: seq<Listed>, now: int, canon: KeyReader)
      returns (replaced: Replacement, due: seq<TaskStatus.Due>)
      requires Valid() && |tasks| == |candidates|
      requires forall i :: 0 <= i < |tasks| ==> StandsFor(candidates[i], tasks[i], prefixes)
      modifies authorization, authorization.disk
      ensures Valid() && initialPending == old(initialPending) && old(authorization.disk.history) <= authorization.disk.history
      ensures replaced.ReplaceFailed? ==> due == []
      ensures replaced.ReplaceFailed? && !authorization.disk.faulty && ManifestPath in old(authorization.disk.fs) ==>
        replaced.activeAuthorityUsable
      ensures replaced.Replaced? ==> Serving(authorization.disk.fs) && DueFor(authorization.disk.fs, tasks, due)
      ensures replaced.Replaced? ==>
        && Settled(now, candidates, old(authorization.lapsed), canon, replaced.activation.outcomes)
        && Explains(due, replaced.activation.outcomes, wording)
      ensures replaced.Replaced? ==>
        && EarliestHeld(authorization.disk.fs, tasks, replaced.activation.nextDeadline)
        && (forall i :: HeldAt(authorization.disk.fs, tasks, i) ==> LetsIn(authorization.disk.fs, tasks[i], prefixes, canon))
        && (!replaced.activation.warning ==> Tidy(authorization.disk.fs))
        && (!authorization.disk.faulty && !authorization.disk.stuck ==> !replaced.activation.warning)
    {
      hide CanonicalGrants, Compiled, Outcomes, MarkLapsed, LapsedNow, Quiet, Switched;
      hide Settled, Admits, FirstDeadline, EarliestHeld, LetsIn, Holds;
      due := [];
      ghost var lapsed := authorization.lapsed;
      replaced := authorization.Replace(now, candidates, canon);
      if replaced.ReplaceFailed? {
        return;
      }
      PublishedServes(authorization.disk.fs, CanonicalGrants(Compiled(now, candidates, lapsed, canon)));
      due := DueStatuses(tasks, replaced.activation.outcomes);
      forall i | 0 <= i < |due|
        ensures due[i].verdict == TaskStatus.Ready <==> Holds(authorization.disk.fs, due[i].uid)
      {
        HeldIffAccepted(authorization.disk.fs, now, candidates, lapsed, canon, i);
      }
      FirstIsEarliest(authorization.disk.fs, candidates, replaced.activation.outcomes, tasks, prefixes, replaced.activation.nextDeadline);
      forall i | HeldAt(authorization.disk.fs, tasks, i) ensures LetsIn(authorization.disk.fs, tasks[i], prefixes, canon) {
        AcceptedIsLetIn(authorization.disk.fs, now, candidates, lapsed, canon, replaced.activation.outcomes, i, tasks[i], prefixes);
      }
    }

    /** Exactly the granted tasks are let in, as their specs ask, and the reconciler comes back when the first lease ends. */
    ghost predicate Holding(fs: FileSystem, tasks: seq<Listed>, later: int, wake: Wake, canon: KeyReader) {
      && WakesFor(fs, tasks, later, wake)
      && forall i :: HeldAt(fs, tasks, i) ==> LetsIn(fs, tasks[i], prefixes, canon)
    }

    /** Up to the statuses: the listed tasks become a published snapshot, or the error goes where it belongs. */
    method Renew(listed: Option<seq<Listed>>, now: int, later: int, canon: KeyReader)
      returns (retry: bool, wake: Wake, due: seq<TaskStatus.Due>, published: bool, ghost outcomes: seq<Outcome>)
      requires Valid()
      modifies this, authorization, authorization.disk
      ensures Valid() && !initialPending && old(authorization.disk.history) <= authorization.disk.history
      ensures initial == if old(initialPending) then Reported(published) else old(initial)
      ensures fatal && !old(fatal) ==> !published && !old(initialPending)
      ensures published ==>
        listed.Some? && Serving(authorization.disk.fs) && DueFor(authorization.disk.fs, CandidateTasks(listed.value, node), due)
      ensures !published ==> due == [] && (retry || fatal || old(initialPending))
      ensures !authorization.disk.faulty && ManifestPath in old(authorization.disk.fs) ==> fatal == old(fatal)
      ensures published ==> Holding(authorization.disk.fs, CandidateTasks(listed.value, node), later, wake, canon)
      ensures published && !retry ==> Tidy(authorization.disk.fs)
      ensures published && !authorization.disk.faulty && !authorization.disk.stuck ==> !retry
      ensures !published ==> wake.Idle?
      ensures published ==>
        Explains(due, outcomes, wording)
        && JudgedTasks(now, CandidateTasks(listed.value, node), prefixes, old(authorization.lapsed), canon, outcomes)
    {
      hide Serving, DueFor, EarliestHeld, WakesFor, HeldAt, LetsIn, Tidy, Settled, Explains;
      due, wake, published, outcomes := [], Idle, false, [];
      if listed.None? {
        retry := ReconcileError();
        return;
      }
      var candidates, tasks := ListReceiveTaskCandidates(listed.value, node, prefixes);
      var replaced;
      replaced, due := Publish(candidates, tasks, now, canon);
      if replaced.ReplaceFailed? {
        retry := HandlePublicationFailure(replaced.activeAuthorityUsable);
        if retry {
          retry := ReconcileError();
        }
        return;
      }
      outcomes := replaced.activation.outcomes;
      wake := DeadlineResult(later, replaced.activation.nextDeadline);
      DeadlineWakes(authorization.disk.fs, tasks, replaced.activation.nextDeadline, later);
      var reported := ReportInitial(true);
      retry, published := replaced.activation.warning, true;
    }

    method Report(ghost tasks: seq<Listed>, due: seq<TaskStatus.Due>, ghost outcomes: seq<Outcome>, store: TaskStore)
      returns (clean: bool)
      requires Valid() && store.Valid() && InStep(store.s, authorization.disk.fs)
      requires DueFor(authorization.disk.fs, tasks, due) && Explains(due, outcomes, wording)
      modifies store
      ensures store.Valid() && old(store.steps) <= store.steps && InStep(store.s, authorization.disk.fs)
      ensures forall uid :: uid in store.s.readied && uid !in old(store.s.readied) ==> Holds(authorization.disk.fs, uid)
      ensures store.quiet && DistinctTasks(tasks) ==>
        Statuses(authorization.disk.fs, tasks, old(store.s.tasks), store.s.tasks)
        && SayWhy(tasks, outcomes, wording, old(store.s.tasks), store.s.tasks)
      ensures store.quiet && DistinctTasks(tasks) ==> (clean <==> forall task :: task in tasks ==> task.name in old(store.s.tasks))
    {
      hide Holds, DueFor, Statuses, DistinctTasks, AllTold, DistinctNames, Explains, SayWhy, TaskStatus.Judges, TaskStatus.Execute;
      DueIsJudged(store.s.disk, authorization.disk.fs, tasks, due);
      store.Owe(due);
      ghost var before := store.s.tasks;
      NamesMatch(store.steps);
      clean := store.ReportAll(due);
      if store.quiet && DistinctTasks(tasks) {
        DueNames(authorization.disk.fs, tasks, due, before.Keys);
        AllToldIsStatuses(authorization.disk.fs, tasks, due, before, store.s.tasks);
        ToldWhy(authorization.disk.fs, tasks, due, outcomes, wording, before, store.s.tasks);
      }
    }

    /** One reconcile over the listed tasks, the statuses included. Startup succeeds only once a snapshot is published; Ready is
        written only for tasks the snapshot now published grants; and when nobody interferes, every listed task that is still
        there says Ready exactly when that snapshot grants it. */
    method Reconcile(listed: Option<seq<Listed>>, now: int, later: int, canon: KeyReader, store: TaskStore)
      returns (retry: bool, wake: Wake, published: bool, ghost outcomes: seq<Outcome>)
      requires Valid() && store.Valid() && InStep(store.s, authorization.disk.fs)
      modifies this, authorization, authorization.disk, store
      ensures Valid() && store.Valid() && InStep(store.s, authorization.disk.fs)
      ensures old(authorization.disk.history) <= authorization.disk.history && old(store.steps) <= store.steps
      ensures !initialPending && initial == if old(initialPending) then Reported(published) else old(initial)
      ensures fatal && !old(fatal) ==> !published && !old(initialPending)
      ensures published ==> listed.Some? && Serving(authorization.disk.fs)
      ensures !published ==> retry || fatal || old(initialPending)
      ensures !authorization.disk.faulty && ManifestPath in old(authorization.disk.fs) ==> fatal == old(fatal)
      ensures published ==> Holding(authorization.disk.fs, CandidateTasks(listed.value, node), later, wake, canon)
      ensures !published ==> wake.Idle?
      ensures published && !retry ==> Tidy(authorization.disk.fs)
      ensures published && store.quiet && DistinctTasks(CandidateTasks(listed.value, node))
              && !authorization.disk.faulty && !authorization.disk.stuck ==>
        (retry <==> exists task :: task in CandidateTasks(listed.value, node) && task.name !in old(store.s.tasks))
      ensures published && store.quiet && DistinctTasks(CandidateTasks(listed.value, node))
              && (exists task :: task in CandidateTasks(listed.value, node) && task.name !in old(store.s.tasks)) ==>
        retry
      ensures forall uid :: uid in store.s.readied && uid !in old(store.s.readied) ==>
        published && Holds(authorization.disk.fs, uid)
      ensures published && store.quiet && DistinctTasks(CandidateTasks(listed.value, node)) ==>
        Statuses(authorization.disk.fs, CandidateTasks(listed.value, node), old(store.s.tasks), store.s.tasks)
        && SayWhy(CandidateTasks(listed.value, node), outcomes, wording, old(store.s.tasks), store.s.tasks)
      ensures published ==>
        JudgedTasks(now, CandidateTasks(listed.value, node), prefixes, old(authorization.lapsed), canon, outcomes)
    {
      hide SayWhy, Explains, JudgedTasks;
      hide Holds, Serving, DueFor, Statuses, InStep, CandidateTasks, Holding, Tidy;
      ghost var before, seen := authorization.disk.history, store.s;
      var count := |authorization.disk.history|;
      var due;
      retry, wake, due, published, outcomes := Renew(listed, now, later, canon);
      StaysInStep(seen, before, authorization.disk.history);
      store.See(authorization.disk.history[count..]);
      if !published {
        return;
      }
      var clean := Report(CandidateTasks(listed.value, node), due, outcomes, store);
      retry := retry || !clean;
    }
  }

  // ----- Every run -----

  datatype Round = Round(listed: Option<seq<Listed>>, now: int, later: int)

  /** Some state had a complete published snapshot. */
  ghost predicate OnceServing(states: seq<FileSystem>) {
    exists k :: 0 <= k < |states| && Serving(states[k])
  }

  lemma LaterStates(states: seq<FileSystem>, later: seq<FileSystem>)
    requires states <= later
    ensures OnceServing(states) ==> OnceServing(later)
    ensures forall uid :: TaskStatus.OnceGranted(states, uid) ==> TaskStatus.OnceGranted(later, uid)
  {
    hide Holds, Serving;
    if OnceServing(states) {
      var k :| 0 <= k < |states| && Serving(states[k]);
      assert later[k] == states[k];
    }
    forall uid | TaskStatus.OnceGranted(states, uid) ensures TaskStatus.OnceGranted(later, uid) {
      var k :| 0 <= k < |states| && Holds(states[k], uid);
      assert later[k] == states[k];
    }
  }

  lemma NowIsAState(states: seq<FileSystem>, fs: FileSystem)
    requires states != [] && states[|states| - 1] == fs
    ensures Serving(fs) ==> OnceServing(states)
    ensures forall uid :: Holds(fs, uid) ==> TaskStatus.OnceGranted(states, uid)
  {
    hide Holds, Serving;
  }

  lemma OthersStayInStep(s: TaskStatus.State, t: TaskStatus.State, fs: FileSystem)
    requires InStep(s, fs) && SameReceiver(s, t)
    ensures InStep(t, fs)
  {
  }

  /** Some reconcile after the first published nothing. */
  predicate FailedLater(results: seq<bool>) {
    exists k :: 0 < k < |results| && !results[k]
  }

  lemma FatalIsLater(results: seq<bool>, published: bool)
    ensures FailedLater(results) || (results != [] && !published) ==> FailedLater(results + [published])
  {
    var more := results + [published];
    assert more[|results|] == published;
    if FailedLater(results) {
      var k :| 0 < k < |results| && !results[k];
      assert !more[k];
    }
  }

  /** One reconcile, after whatever the other writers of the statuses did. */
  method NextRound(c: AuthorizationController, store: TaskStore, round: Round, canon: KeyReader) returns (published: bool)
    requires c.Valid() && store.Valid() && InStep(store.s, c.authorization.disk.fs)
    modifies c, c.authorization, c.authorization.disk, store
    ensures c.Valid() && store.Valid() && InStep(store.s, c.authorization.disk.fs)
    ensures old(c.authorization.disk.history) <= c.authorization.disk.history
    ensures !c.initialPending && c.initial == if old(c.initialPending) then Reported(published) else old(c.initial)
    ensures c.fatal && !old(c.fatal) ==> !published && !old(c.initialPending)
    ensures published ==> OnceServing(c.authorization.disk.history)
    ensures forall uid :: uid in store.s.readied && uid !in old(store.s.readied) ==>
      TaskStatus.OnceGranted(c.authorization.disk.history, uid)
  {
    hide Holds, Serving, OnceServing, TaskStatus.OnceGranted, InStep, DistinctTasks, Statuses, CandidateTasks, Tidy;
    ghost var seen := store.s;
    store.Others();
    OthersStayInStep(seen, store.s, c.authorization.disk.fs);
    var retry, wake;
    ghost var outcomes;
    retry, wake, published, outcomes := c.Reconcile(round.listed, round.now, round.later, canon, store);
    NowIsAState(c.authorization.disk.history, c.authorization.disk.fs);
  }

  /** Startup and any number of reconciles, the other writers of the statuses in between. Startup is told the result of the
      first reconcile and of no other, success only when a snapshot has been published; the first reconcile is never fatal; and
      every Ready written follows a state of the directory whose published snapshot granted that very UID. */
  method ReconcileAll(c: AuthorizationController, store: TaskStore, rounds: seq<Round>, canon: KeyReader)
    returns (results: seq<bool>)
    requires c.Valid() && c.initial == NotReported && !c.fatal
    requires store.Valid() && InStep(store.s, c.authorization.disk.fs)
    modifies c, c.authorization, c.authorization.disk, store
    ensures c.Valid() && store.Valid() && InStep(store.s, c.authorization.disk.fs)
    ensures old(c.authorization.disk.history) <= c.authorization.disk.history
    ensures |results| == |rounds|
    ensures rounds == [] ==> c.initial == NotReported
    ensures rounds != [] ==> c.initial == Reported(results[0])
    ensures c.initial == Reported(true) ==> OnceServing(c.authorization.disk.history)
    ensures c.fatal ==> FailedLater(results)
    ensures forall uid :: uid in store.s.readied && uid !in old(store.s.readied) ==>
      TaskStatus.OnceGranted(c.authorization.disk.history, uid)
  {
    hide *;
    c.StartInitial();
    results := [];
    for i := 0 to |rounds|
      invariant c.Valid() && store.Valid() && InStep(store.s, c.authorization.disk.fs)
      invariant old(c.authorization.disk.history) <= c.authorization.disk.history
      invariant |results| == i && c.initialPending == (i == 0)
      invariant c.initial == if i == 0 then NotReported else Reported(results[0])
      invariant c.initial == Reported(true) ==> OnceServing(c.authorization.disk.history)
      invariant c.fatal ==> FailedLater(results)
      invariant forall uid :: uid in store.s.readied && uid !in old(store.s.readied) ==>
        TaskStatus.OnceGranted(c.authorization.disk.history, uid)
    {
      ghost var states := c.authorization.disk.history;
      var published := NextRound(c, store, rounds[i], canon);
      LaterStates(states, c.authorization.disk.history);
      FatalIsLater(results, published);
      results := results + [published];
    }
  }
}
