/** One reconcile of a replication run (internal/controller/zfsreplication_run_controller.go). */
module RunReconciler {
  import opened Text
  import opened Datasets
  import opened DestinationLock
  import opened RunApi

  const SECOND := 1_000_000_000
  const MINUTE := 60 * SECOND
  const AUTHORIZATION_LEASE := 30 * MINUTE
  const AUTHORIZATION_RENEW_LEAD := 10 * MINUTE

  // ----- Decisions that read nothing -----

  predicate Owned(uid: string, meta: Meta) {
    meta.owner == Some(uid) && !meta.deleting
  }

  function ChildRefusal(uid: string, meta: Meta, child: Child): (refusal: Option<Reason>)
    ensures refusal.None? <==> Owned(uid, meta)
    ensures refusal == Some(NotControlled(child)) <==> meta.owner != Some(uid)
    ensures refusal.Some? ==> refusal.value == NotControlled(child) || refusal.value == BeingDeleted(child)
  {
    if meta.owner != Some(uid) then Some(NotControlled(child))
    else if meta.deleting then Some(BeingDeleted(child))
    else None
  }

  predicate Live(task: Task, now: int) {
    !TaskTerminal(task.phase) && now < task.expiresAt
  }

  /** A task that failed for a reason passes the reason on. */
  function ReceiveTaskLeaseRefusal(task: Task, now: int): (refusal: Option<Reason>)
    ensures refusal.None? <==> Live(task, now)
    ensures refusal.Some? && refusal.value.TaskReported? <==> task.phase == TaskFailed && task.error != ""
    ensures refusal.Some? && refusal.value.TaskReported? ==> refusal.value.error == task.error
    ensures refusal == Some(LeaseHasExpired) <==> !TaskTerminal(task.phase) && task.expiresAt <= now
  {
    if task.phase == TaskFailed && task.error != "" then Some(TaskReported(task.error))
    else if TaskTerminal(task.phase) then Some(TaskIsTerminal)
    else if task.expiresAt <= now then Some(LeaseHasExpired)
    else None
  }

  /** The first thing a Ready task's status lacks. */
  function MissingReadyField(task: Task): (missing: Option<Reason>)
    ensures missing.None? <==>
      task.host != "" && task.port != 0 && task.hostKey != "" && task.podName != "" && task.podUID != ""
    ensures missing == Some(NoEndpointHost) <==> task.host == ""
    ensures missing == Some(NoEndpointPort) <==> task.host != "" && task.port == 0
    ensures missing == Some(NoHostKey) ==> task.hostKey == ""
    ensures missing == Some(NoPodName) ==> task.podName == ""
    ensures missing == Some(NoPodUID) ==> task.podUID == ""
  {
    if task.host == "" then Some(NoEndpointHost)
    else if task.port == 0 then Some(NoEndpointPort)
    else if task.hostKey == "" then Some(NoHostKey)
    else if task.podName == "" then Some(NoPodName)
    else if task.podUID == "" then Some(NoPodUID)
    else None
  }

  function Observed(local: RunStatus, read: Get<RunStatus>): (observed: RunStatus) {
    if read.Found? then read.value else local
  }

  datatype SenderDecision = NoSender | Sender(job: Job) | SenderRefused(reason: Reason) | SenderUnknown

  function SenderJobFor(uid: string, observed: RunStatus, read: Get<Job>): (d: SenderDecision) {
    match read
    case NotFound => if observed.senderJobUID != "" then SenderRefused(JobMissing) else NoSender
    case GetFailed => SenderUnknown
    case Found(job) =>
      if ChildRefusal(uid, job.meta, JobChild).Some? then SenderRefused(ChildRefusal(uid, job.meta, JobChild).value)
      else if observed.senderJobUID != "" && job.meta.uid != observed.senderJobUID then SenderRefused(JobReplaced)
      else Sender(job)
  }

  function Initialized(st: RunStatus, now: int): (t: RunStatus) {
    st.(startedAt := if st.startedAt.None? then Some(now) else st.startedAt, senderJobName := true)
  }

  /** What binding the sender Job does to the local view of the status. */
  function Bound(local: RunStatus, jobUID: string, now: int): (t: RunStatus) {
    if local.senderJobUID == "" then Initialized(local.(senderJobUID := jobUID, senderJobName := true), now) else local
  }

  datatype Outcome = ApiError | Done | Requeue(after: int)

  /** The earlier of two waits, where a wait of zero is none. */
  function WithEarlierRequeue(outcome: Outcome, lease: int): (o: Outcome)
    ensures outcome.ApiError? <==> o.ApiError?
    ensures !outcome.ApiError? ==> (o.Requeue? <==> outcome.Requeue? || lease > 0)
    ensures o.Requeue? && lease > 0 ==> o.after <= lease
    ensures o.Requeue? && outcome.Requeue? ==> o.after <= outcome.after
    ensures o == outcome || (lease > 0 && o == Requeue(lease))
  {
    match outcome
    case ApiError => ApiError
    case Done => if lease > 0 then Requeue(lease) else Done
    case Requeue(after) => if lease > 0 && lease < after then Requeue(lease) else Requeue(after)
  }

  datatype LeaseDecision = LeaseRefused(reason: Reason) | LeaseHeld(delay: int) | LeaseRenewed(expiresAt: int, delay: int)

  /** What to do about a task's lease at one instant. */
  function Lease(task: Task, now: int): (d: LeaseDecision) {
    if ReceiveTaskLeaseRefusal(task, now).Some? then LeaseRefused(ReceiveTaskLeaseRefusal(task, now).value)
    else
      var remaining := task.expiresAt - now;
      if remaining > AUTHORIZATION_RENEW_LEAD then LeaseHeld(remaining - AUTHORIZATION_RENEW_LEAD)
      else LeaseRenewed(now + AUTHORIZATION_LEASE, AUTHORIZATION_LEASE - AUTHORIZATION_RENEW_LEAD)
  }

  /** The task after a reconcile at `now` that could write. */
  function After(task: Task, now: int): (t: Task) {
    match Lease(task, now)
    case LeaseRenewed(expiresAt, _) => task.(expiresAt := expiresAt)
    case _ => task
  }

  function Delay(task: Task, now: int): (delay: int) {
    match Lease(task, now)
    case LeaseRenewed(_, delay) => delay
    case LeaseHeld(delay) => delay
    case LeaseRefused(_) => 0
  }

  /** How far a reconcile got: not to the lease, to a lease step that found no task, or to the lease of `task` at `now`;
      `created` when it then went on to create children. */
  datatype Stage = BeforeLease | NoLease | AtLease(task: Task, now: int, created: bool)

  const CHILDREN_WAIT := 5 * SECOND

  /** Children are created, and the lease would have called for coming back sooner than that branch does. */
  predicate ShortCut(task: Task, now: int, created: bool) {
    created && Delay(task, now) < CHILDREN_WAIT
  }

  /** What a reconcile that comes back owes the lease it saw: it was live, and the wait is within what the lease allows,
      except on the branch above. */
  predicate WaitsFor(stage: Stage, o: Outcome) {
    o.Requeue? && stage.AtLease? ==>
      && Live(stage.task, stage.now)
      && (o.after > Delay(stage.task, stage.now) <==> ShortCut(stage.task, stage.now, stage.created))
  }

  // ----- The sender gate -----

  /** What one reconcile saw before it asked for a sender Job. */
  datatype Evidence = Evidence(
    secret: Secret,
    listed: Task,
    task: Task,
    readAt: int,
    pod: Pod,
    keyed: Secret,
    rewritten: bool,
    again: Task,
    againAt: int)

  /** SSH host key and endpoint to a known_hosts line; absent when the key does not parse. */
  type HostLine = (string, int, string) -> Option<string>

  /** The evidence licenses a sender for the run `uid` towards the endpoint of `task`. */
  predicate Licenses(e: Evidence, uid: string, line: HostLine) {
    && Owned(uid, e.secret.meta) && Owned(uid, e.listed.meta)
    && e.secret.publicKey != "" && e.listed.publicKey == e.secret.publicKey
    && Owned(uid, e.task.meta) && e.task.meta.uid != ""
    && e.task.phase == TaskReady && e.readAt < e.task.expiresAt
    && e.task.host != "" && e.task.port != 0 && e.task.hostKey != "" && e.task.podName != "" && e.task.podUID != ""
    && e.pod.uid == e.task.podUID && !e.pod.deleting && e.pod.ready
    && Owned(uid, e.keyed.meta)
    && line(e.task.host, e.task.port, e.task.hostKey).Some?
    && (!e.rewritten ==> Some(e.keyed.knownHosts) == line(e.task.host, e.task.port, e.task.hostKey))
    && e.again.meta.uid == e.task.meta.uid && !TaskTerminal(e.again.phase) && e.againAt < e.again.expiresAt
  }

  function KnownHostsEvents(e: Evidence, line: HostLine): (events: seq<Event>) {
    [CachedSecret(Found(e.keyed))]
    + if e.rewritten && line(e.task.host, e.task.port, e.task.hostKey).Some?
      then [SecretUpdated(line(e.task.host, e.task.port, e.task.hostKey).value)] else []
  }

  function ReadyEvents(e: Evidence): (events: seq<Event>) {
    [FreshTask(Found(e.task)), Clock(e.readAt), FreshPod(e.task.podName, Found(e.pod))]
  }

  function AgainEvents(e: Evidence): (events: seq<Event>) {
    [FreshTask(Found(e.again)), Clock(e.againAt)]
  }

  function ChildrenEvents(e: Evidence): (events: seq<Event>) {
    [CachedSecret(Found(e.secret)), CachedTask(Found(e.listed))]
  }

  /** The events of the evidence, in the order they must have happened. */
  function GateEvents(e: Evidence, line: HostLine): (events: seq<Event>) {
    ChildrenEvents(e) + ReadyEvents(e) + KnownHostsEvents(e, line) + AgainEvents(e)
  }

  /** All of `part` happened in `whole`, in that order. */
  ghost predicate Within(part: seq<Event>, whole: seq<Event>)
    decreases |whole|
  {
    if part == [] then true
    else if whole == [] then false
    else if part[0] == whole[0] && Within(part[1..], whole[1..]) then true
    else Within(part, whole[1..])
  }

  lemma {:induction false} WithinLater(part: seq<Event>, before: seq<Event>, whole: seq<Event>)
    requires Within(part, whole)
    ensures Within(part, before + whole)
    decreases |before|
  {
    if before == [] {
      assert before + whole == whole;
    } else {
      WithinLater(part, before[1..], whole);
      assert (before + whole)[1..] == before[1..] + whole;
    }
  }

  lemma {:induction false} WithinEarlier(part: seq<Event>, whole: seq<Event>, after: seq<Event>)
    requires Within(part, whole)
    ensures Within(part, whole + after)
    decreases |whole|
  {
    if part != [] {
      assert (whole + after)[0] == whole[0] && (whole + after)[1..] == whole[1..] + after;
      if part[0] == whole[0] && Within(part[1..], whole[1..]) {
        WithinEarlier(part[1..], whole[1..], after);
      } else {
        WithinEarlier(part, whole[1..], after);
      }
    }
  }

  lemma {:induction false} WithinBoth(a: seq<Event>, b: seq<Event>, x: seq<Event>, y: seq<Event>)
    requires Within(a, x) && Within(b, y)
    ensures Within(a + b, x + y)
    decreases |x|
  {
    if a == [] {
      assert a + b == b;
      WithinLater(b, x, y);
    } else {
      assert (x + y)[0] == x[0] && (x + y)[1..] == x[1..] + y;
      assert (a + b)[0] == a[0] && (a + b)[1..] == a[1..] + b;
      if a[0] == x[0] && Within(a[1..], x[1..]) {
        WithinBoth(a[1..], b, x[1..], y);
      } else {
        WithinBoth(a, b, x[1..], y);
      }
    }
  }

  lemma {:induction false} WithinSelf(x: seq<Event>)
    ensures Within(x, x)
  {
    if x != [] {
      WithinSelf(x[1..]);
    }
  }

  // ----- What each stage makes of a store at rest -----

  /** The run's own task is there and does not say so yet. */
  predicate MarksIn(uid: string, w: World, phase: TaskPhase, message: string) {
    && w.cachedTask.Found? && ChildRefusal(uid, w.cachedTask.value.meta, TaskChild).None?
    && !(w.cachedTask.value.phase == phase && w.cachedTask.value.error == message)
  }

  predicate DeletesIn(uid: string, w: World) {
    w.secret.Found? && ChildRefusal(uid, w.secret.value.meta, SecretChild).None?
  }

  /** The run goes on, and the task read past the cache is its own. */
  predicate OwnTaskIn(uid: string, w: World, status: RunStatus) {
    !Terminal(status.phase) && w.task.Found? && ChildRefusal(uid, w.task.value.meta, TaskChild).None?
  }

  predicate LiveTaskIn(uid: string, w: World, status: RunStatus) {
    OwnTaskIn(uid, w, status) && Live(w.task.value, w.now)
  }

  datatype ChildrenResult = ChildrenError | ChildrenPresent | ChildrenCreated | ChildrenRefused(reason: Reason)

  function ChildrenIn(uid: string, w: World): (r: ChildrenResult) {
    if w.secret.GetFailed? then ChildrenError
    else if w.secret.Found? && ChildRefusal(uid, w.secret.value.meta, SecretChild).Some? then
      ChildrenRefused(ChildRefusal(uid, w.secret.value.meta, SecretChild).value)
    else if w.cachedTask.GetFailed? then ChildrenError
    else if w.cachedTask.Found? && ChildRefusal(uid, w.cachedTask.value.meta, TaskChild).Some? then
      ChildrenRefused(ChildRefusal(uid, w.cachedTask.value.meta, TaskChild).value)
    else if w.cachedTask.Found? && w.secret.NotFound? then ChildrenRefused(SecretMissing)
    else if w.secret.NotFound? then ChildrenCreated
    else if w.secret.value.publicKey == "" then ChildrenRefused(PublicKeyMissing)
    else if w.cachedTask.NotFound? then ChildrenCreated
    else if w.cachedTask.value.publicKey != w.secret.value.publicKey then ChildrenRefused(PublicKeyMismatch)
    else ChildrenPresent
  }

  /** A run without a sender, whose live task the cache does not show: the branch that creates children again. */
  predicate CreatesIn(uid: string, w: World, status: RunStatus) {
    && status.senderJobUID == "" && w.job.NotFound?
    && LiveTaskIn(uid, w, status)
    && ChildrenIn(uid, w).ChildrenCreated?
  }

  datatype LeaseResult = LeaseError | LeaseDelay(delay: int) | LeaseMessage(reason: Reason)

  function LeaseIn(uid: string, w: World, status: RunStatus): (r: LeaseResult) {
    if Terminal(status.phase) then LeaseDelay(0)
    else match w.task
      case NotFound => LeaseDelay(0)
      case GetFailed => LeaseError
      case Found(task) =>
        if ChildRefusal(uid, task.meta, TaskChild).Some? then LeaseMessage(ChildRefusal(uid, task.meta, TaskChild).value)
        else match Lease(task, w.now)
          case LeaseRefused(reason) => LeaseMessage(reason)
          case LeaseHeld(delay) => LeaseDelay(delay)
          case LeaseRenewed(_, delay) => LeaseDelay(delay)
  }

  predicate PodReady(pod: Get<Pod>, podUID: string) {
    pod.Found? && pod.value.uid == podUID && !pod.value.deleting && pod.value.ready
  }

  datatype ReadyResult = ReadyError | NotReady | ReadyTask(task: Task) | ReadyRefused(reason: Reason)

  function CurrentReadyIn(uid: string, w: World, task: Task): (r: ReadyResult) {
    if ChildRefusal(uid, task.meta, TaskChild).Some? then ReadyRefused(ChildRefusal(uid, task.meta, TaskChild).value)
    else if ReceiveTaskLeaseRefusal(task, w.now).Some? then ReadyRefused(ReceiveTaskLeaseRefusal(task, w.now).value)
    else if task.phase != TaskReady then NotReady
    else if MissingReadyField(task).Some? then ReadyRefused(MissingReadyField(task).value)
    else if w.pods(task.podName).GetFailed? then ReadyError
    else if PodReady(w.pods(task.podName), task.podUID) then ReadyTask(task)
    else NotReady
  }

  function ReadyIn(uid: string, w: World): (r: ReadyResult) {
    if !w.cachedTask.Found? then ReadyError
    else if ChildRefusal(uid, w.cachedTask.value.meta, TaskChild).Some? then
      ReadyRefused(ChildRefusal(uid, w.cachedTask.value.meta, TaskChild).value)
    else if w.cachedTask.value.meta.uid == "" then ReadyRefused(TaskWithoutUID)
    else match w.task
      case NotFound => NotReady
      case GetFailed => ReadyError
      case Found(task) => if task.meta.uid != w.cachedTask.value.meta.uid then NotReady else CurrentReadyIn(uid, w, task)
  }

  datatype HostsResult = HostsError | HostsKnown | HostsRefused(reason: Reason)

  function HostsIn(uid: string, w: World, wanted: Option<string>): (r: HostsResult) {
    if !w.secret.Found? then HostsError
    else if ChildRefusal(uid, w.secret.value.meta, SecretChild).Some? then
      HostsRefused(ChildRefusal(uid, w.secret.value.meta, SecretChild).value)
    else if wanted.None? then HostsError
    else HostsKnown
  }

  datatype EligibleResult = EligibleError | Eligible | NotEligible | EligibleRefused(reason: Reason)

  function EligibleIn(w: World, expected: Task): (r: EligibleResult) {
    if w.task.NotFound? then NotEligible
    else if w.task.GetFailed? then EligibleError
    else if w.task.value.meta.uid != expected.meta.uid then NotEligible
    else if ReceiveTaskLeaseRefusal(w.task.value, w.now).Some? then
      EligibleRefused(ReceiveTaskLeaseRefusal(w.task.value, w.now).value)
    else Eligible
  }

  predicate PreparedIn(uid: string, w: World, line: HostLine) {
    && ReadyIn(uid, w).ReadyTask?
    && var task := ReadyIn(uid, w).task;
       HostsIn(uid, w, line(task.host, task.port, task.hostKey)).HostsKnown?
  }

  predicate RequestedIn(w: World, task: Task) {
    EligibleIn(w, task).Eligible? && w.job.NotFound?
  }

  predicate StartedIn(uid: string, w: World, line: HostLine) {
    PreparedIn(uid, w, line) && RequestedIn(w, ReadyIn(uid, w).task)
  }

  lemma StartsInStages(uid: string, w: World, line: HostLine)
    ensures StartedIn(uid, w, line) ==> PreparedIn(uid, w, line)
    ensures PreparedIn(uid, w, line) ==> ReadyIn(uid, w).ReadyTask?
    ensures PreparedIn(uid, w, line) ==> (StartedIn(uid, w, line) <==> RequestedIn(w, ReadyIn(uid, w).task))
  {
  }

  /** When a reconcile of a run without a sender, in a store at rest, asks for the sender Job. */
  predicate SendsIn(uid: string, w: World, line: HostLine, status: RunStatus) {
    && LeaseIn(uid, w, status).LeaseDelay?
    && ChildrenIn(uid, w).ChildrenPresent?
    && StartedIn(uid, w, line)
  }

  // ----- What a stretch of the trace contains -----

  /** From trace `t` to trace `u`, the events `part` happened in order. */
  ghost predicate Shows(t: seq<Event>, u: seq<Event>, part: seq<Event>) {
    t <= u && Within(part, u[|t|..])
  }

  /** From trace `t` to trace `u` no Job is asked for, and every expiry written is one lease after the clock just read. */
  ghost predicate Plain(t: seq<Event>, u: seq<Event>) {
    && t <= u
    && (forall k :: |t| <= k < |u| ==> !u[k].JobRequested?)
    && forall k :: |t| <= k < |u| && (u[k].TaskCreated? || u[k].TaskRenewed?) ==>
         k > |t| && u[k - 1] == Clock(u[k].expiresAt - AUTHORIZATION_LEASE)
  }

  ghost predicate Happened(t: seq<Event>, u: seq<Event>, e: Event) {
    t <= u && exists k :: |t| <= k < |u| && u[k] == e
  }

  lemma HappenedAcross(t: seq<Event>, u: seq<Event>, v: seq<Event>, e: Event)
    requires t <= u <= v
    ensures Happened(t, u, e) || Happened(u, v, e) ==> Happened(t, v, e)
  {
    if Happened(t, u, e) {
      var k :| |t| <= k < |u| && u[k] == e;
      assert v[k] == e;
    }
  }

  lemma ShowsThen(t: seq<Event>, u: seq<Event>, v: seq<Event>, a: seq<Event>, b: seq<Event>)
    requires Shows(t, u, a) && Shows(u, v, b)
    ensures Shows(t, v, a + b)
  {
    WithinBoth(a, b, u[|t|..], v[|u|..]);
    assert v[|t|..] == u[|t|..] + v[|u|..];
  }

  lemma ShowsStill(t: seq<Event>, u: seq<Event>, v: seq<Event>, a: seq<Event>)
    requires Shows(t, u, a) && u <= v
    ensures Shows(t, v, a)
  {
    WithinEarlier(a, u[|t|..], v[|u|..]);
    assert v[|t|..] == u[|t|..] + v[|u|..];
  }

  lemma ShowsLater(t: seq<Event>, u: seq<Event>, v: seq<Event>, a: seq<Event>)
    requires t <= u && Shows(u, v, a)
    ensures Shows(t, v, a)
  {
    WithinLater(a, u[|t|..], v[|u|..]);
    assert v[|t|..] == u[|t|..] + v[|u|..];
  }

  lemma ShowsAll(t: seq<Event>, a: seq<Event>)
    ensures Shows(t, t + a, a)
  {
    WithinSelf(a);
    assert (t + a)[|t|..] == a;
  }

  // ----- What one reconcile promises -----

  /** Either no Job was asked for since `start`, or exactly one was, last of all, with the evidence before it. */
  ghost predicate Gated(start: seq<Event>, trace: seq<Event>, before: seq<Event>, gate: Option<Evidence>,
                        uid: string, line: HostLine) {
    match gate
    case None => Plain(start, trace)
    case Some(e) =>
      && Plain(start, before)
      && trace == before + [JobRequested(e.task.host, e.task.port)]
      && Licenses(e, uid, line)
      && Shows(start, before, GateEvents(e, line))
  }

  lemma NothingGated(start: seq<Event>, trace: seq<Event>, before: seq<Event>, uid: string, line: HostLine)
    requires Plain(start, trace)
    ensures Gated(start, trace, before, None, uid, line)
  {
  }

  /** Each status keeps the sender Job UID of the one before it, once there is one. */
  ghost predicate Chain(statuses: seq<RunStatus>) {
    forall k :: 0 < k < |statuses| ==>
      statuses[k - 1].senderJobUID == "" || statuses[k].senderJobUID == statuses[k - 1].senderJobUID
  }

  /** Any view the cache may hold carries the recorded UID or none. */
  lemma {:induction false} ViewOfChain(statuses: seq<RunStatus>, local: RunStatus)
    requires Chain(statuses) && local in statuses
    ensures local.senderJobUID == "" || local.senderJobUID == statuses[|statuses| - 1].senderJobUID
  {
    var last := |statuses| - 1;
    if local != statuses[last] {
      assert local in statuses[..last];
      ViewOfChain(statuses[..last], local);
    }
  }

  lemma GatedEarlier(start: seq<Event>, t: seq<Event>, u: seq<Event>, before: seq<Event>, gate: Option<Evidence>,
                     uid: string, line: HostLine)
    requires Plain(start, t) && Gated(t, u, before, gate, uid, line)
    ensures Gated(start, u, before, gate, uid, line)
  {
    if gate.Some? {
      ShowsLater(start, t, before, GateEvents(gate.value, line));
    }
  }

  /** The Job with the recorded UID is not there any more. */
  predicate LostIn(w: World, recorded: string) {
    w.job.NotFound? || (w.job.Found? && w.job.value.meta.uid != recorded)
  }

  /** A recorded UID stays; and a read of any other Job, or of none, ends the run as Failed. */
  ghost predicate Kept(recorded: string, sight: Option<Get<Job>>, o: Outcome, status: RunStatus) {
    && status.senderJobUID == recorded
    && (sight.Some? && !sight.value.GetFailed? && !(sight.value.Found? && sight.value.value.meta.uid == recorded) ==>
          !o.Requeue? && (o == Done ==> status.phase == Failed))
  }

  /** The reads of the run succeeded, or the local view already carries the recorded UID. */
  ghost predicate KnownView(api: Api, local: RunStatus, server: RunStatus)
    reads api
  {
    (api.reliable && !api.deleted) || local.senderJobUID == server.senderJobUID
  }

  /** With a recorded UID, only the Job of that UID lets the run go on; anything else ends it as Failed. */
  ghost predicate Follows(recorded: string, uid: string, sight: Option<Get<Job>>, stop: Option<Outcome>, status: RunStatus) {
    && status.senderJobUID == recorded
    && (sight.Some? && !sight.value.GetFailed? && !(sight.value.Found? && sight.value.value.meta.uid == recorded) ==>
          stop.Some? && !stop.value.Requeue? && (stop.value == Done ==> status.phase == Failed))
    && (stop.None? ==> sight.Some? && sight.value.Found? && sight.value.value.meta.uid == recorded)
  }

  /** The Job is the run's own, carries the recorded UID, and ended without a failure. */
  predicate EndedWell(job: Job, uid: string, status: RunStatus) {
    && Owned(uid, job.meta) && job.meta.uid != "" && job.meta.uid == status.senderJobUID
    && job.failed == 0 && job.succeeded > 0
  }

  ghost predicate SameUID(before: seq<RunStatus>, after: seq<RunStatus>, status: RunStatus) {
    forall k :: |before| <= k < |after| ==> after[k].senderJobUID == status.senderJobUID
  }

  /** A Job was asked for last of all, after the task was seen again; or not at all. */
  ghost predicate Requested(t: seq<Event>, u: seq<Event>, before: seq<Event>, gate: Option<Evidence>, seed: Evidence) {
    match gate
    case None => Plain(t, u)
    case Some(e) =>
      && e == seed.(again := e.again, againAt := e.againAt)
      && Plain(t, before) && u == before + [JobRequested(e.task.host, e.task.port)]
      && Shows(t, before, AgainEvents(e))
      && e.again.meta.uid == e.task.meta.uid && !TaskTerminal(e.again.phase) && e.againAt < e.again.expiresAt
  }

  /** The status names the receiver the sender is for. */
  predicate Records(status: RunStatus, task: Task) {
    status.phase == ReceiverReady && status.receiverPodName == task.podName && status.receiverPodIP == task.host
  }

  /** What is known once the receiver is ready and its host key in place. */
  predicate Prepared(e: Evidence, uid: string, line: HostLine) {
    && Owned(uid, e.task.meta) && e.task.meta.uid != ""
    && e.task.phase == TaskReady && e.readAt < e.task.expiresAt && MissingReadyField(e.task).None?
    && e.pod.uid == e.task.podUID && !e.pod.deleting && e.pod.ready
    && Owned(uid, e.keyed.meta) && line(e.task.host, e.task.port, e.task.hostKey).Some?
    && (!e.rewritten ==> Some(e.keyed.knownHosts) == line(e.task.host, e.task.port, e.task.hostKey))
  }

  lemma PlainThen(t: seq<Event>, u: seq<Event>, v: seq<Event>)
    requires Plain(t, u) && Plain(u, v)
    ensures Plain(t, v)
  {
  }

  /** From a view that has a start time the start time is not written again; the first change of phase sets it, and the end
      of a run sets its completion time. */
  predicate Stamped(local: RunStatus, was: RunStatus, now: RunStatus) {
    && (local.startedAt.Some? ==> now.startedAt == was.startedAt)
    && (local.startedAt.None? && (was.startedAt.Some? || now.phase != was.phase) ==> now.startedAt.Some?)
    && (local.completedAt.None? && (was.completedAt.Some? || (now.phase != was.phase && Terminal(now.phase))) ==>
          now.completedAt.Some?)
  }

  /** At most one status was written, and it is the last. */
  ghost predicate Extended(before: seq<RunStatus>, after: seq<RunStatus>, status: RunStatus) {
    after == before || after == before + [status]
  }

  lemma ChainExtended(before: seq<RunStatus>, after: seq<RunStatus>, atB: RunStatus, atC: RunStatus)
    requires before != [] && before[|before| - 1] == atB && Chain(before)
    requires Extended(before, after, atC) && atB.senderJobUID == atC.senderJobUID
    ensures before <= after && Chain(after)
  {
  }

  lemma StatusesExtended(
      a: seq<RunStatus>, b: seq<RunStatus>, c: seq<RunStatus>, atB: RunStatus, atC: RunStatus)
    requires Extended(a, b, atB) && Extended(b, c, atC) && atB.senderJobUID == atC.senderJobUID
    ensures a <= c && SameUID(a, c, atC)
  {
  }

  lemma StatusesGrow(a: seq<RunStatus>, b: seq<RunStatus>, c: seq<RunStatus>, atB: RunStatus, atC: RunStatus)
    requires a <= b && SameUID(a, b, atB) && Extended(b, c, atC) && atB.senderJobUID == atC.senderJobUID
    ensures a <= c && SameUID(a, c, atC)
  {
  }

  lemma ChildrenShown(t: seq<Event>, u: seq<Event>, secret: Secret, listed: Task, e: Evidence)
    requires Shows(t, u, [CachedSecret(Found(secret)), CachedTask(Found(listed))])
    requires e.secret == secret && e.listed == listed
    ensures Shows(t, u, ChildrenEvents(e))
  {
  }

  lemma SameChildren(e: Evidence, f: Evidence)
    requires f == e.(again := f.again, againAt := f.againAt)
    ensures ChildrenEvents(f) == ChildrenEvents(e)
  {
  }

  lemma SamePieces(e: Evidence, f: Evidence, line: HostLine)
    requires f == e.(again := f.again, againAt := f.againAt)
    ensures ReadyEvents(f) == ReadyEvents(e) && KnownHostsEvents(f, line) == KnownHostsEvents(e, line)
    ensures forall uid :: Prepared(f, uid, line) <==> Prepared(e, uid, line)
  {
  }

  lemma EvidenceLicenses(e: Evidence, uid: string, line: HostLine)
    requires Prepared(e, uid, line) && Owned(uid, e.secret.meta) && Owned(uid, e.listed.meta)
    requires e.secret.publicKey != "" && e.listed.publicKey == e.secret.publicKey
    requires e.again.meta.uid == e.task.meta.uid && !TaskTerminal(e.again.phase) && e.againAt < e.again.expiresAt
    ensures Licenses(e, uid, line)
  {
  }

  lemma GateShown(start: seq<Event>, t0: seq<Event>, t1: seq<Event>, before: seq<Event>, e: Evidence, line: HostLine)
    requires Shows(start, t0, ChildrenEvents(e)) && Shows(t0, t1, ReadyEvents(e) + KnownHostsEvents(e, line))
    requires Shows(t1, before, AgainEvents(e))
    ensures Shows(start, before, GateEvents(e, line))
  {
    hide Within, KnownHostsEvents, ReadyEvents, AgainEvents, ChildrenEvents;
    ShowsThen(start, t0, t1, ChildrenEvents(e), ReadyEvents(e) + KnownHostsEvents(e, line));
    ShowsThen(start, t1, before, ChildrenEvents(e) + (ReadyEvents(e) + KnownHostsEvents(e, line)), AgainEvents(e));
    assert ChildrenEvents(e) + (ReadyEvents(e) + KnownHostsEvents(e, line)) + AgainEvents(e) == GateEvents(e, line);
  }

  /** The pieces of one reconcile, put together. */
  lemma CloseGate(start: seq<Event>, t0: seq<Event>, t1: seq<Event>, t2: seq<Event>, trace: seq<Event>, asked: seq<Event>,
                  e: Evidence, gate: Option<Evidence>, uid: string, line: HostLine)
    requires Plain(start, t2) && t1 <= t2
    requires Shows(start, t0, ChildrenEvents(e)) && Shows(t0, t1, ReadyEvents(e) + KnownHostsEvents(e, line))
    requires Prepared(e, uid, line) && Owned(uid, e.secret.meta) && Owned(uid, e.listed.meta)
    requires e.secret.publicKey != "" && e.listed.publicKey == e.secret.publicKey
    requires Requested(t2, trace, asked, gate, e)
    ensures Gated(start, trace, asked, gate, uid, line)
  {
    hide Within, Prepared, Licenses, AgainEvents, ReadyEvents, KnownHostsEvents, ChildrenEvents, GateEvents, Shows;
    if gate.Some? {
      SamePieces(e, gate.value, line);
      assert ChildrenEvents(gate.value) == ChildrenEvents(e) by {
        SameChildren(e, gate.value);
      }
      ShowsLater(t1, t2, asked, AgainEvents(gate.value));
      GateShown(start, t0, t1, asked, gate.value, line);
      EvidenceLicenses(gate.value, uid, line);
    }
  }

  /** Every renewal written is the one that the freshly read task and clock call for. */
  ghost predicate TaskRenewals(t: seq<Event>, u: seq<Event>, seen: Option<(Task, int)>) {
    forall k :: |t| <= k < |u| && u[k].TaskRenewed? ==>
      seen.Some? && Lease(seen.value.0, seen.value.1).LeaseRenewed?
      && u[k].expiresAt == Lease(seen.value.0, seen.value.1).expiresAt
  }

  lemma RenewedAfterClock(start: seq<Event>, read: seq<Event>, trace: seq<Event>, task: Task, now: int)
    requires Plain(start, read) && |read| > |start| && read[|read| - 1] == Clock(now)
    requires trace == read + if Lease(task, now).LeaseRenewed? then [TaskRenewed(Lease(task, now).expiresAt)] else []
    requires forall k :: |start| <= k < |read| ==> !read[k].TaskRenewed?
    ensures Plain(start, trace) && TaskRenewals(start, trace, Some((task, now)))
  {
    hide ReceiveTaskLeaseRefusal;
  }

  lemma PlainExtends(t: seq<Event>, u: seq<Event>)
    requires Plain(t, u)
    ensures t <= u
  {
  }

  lemma NothingHappened(t: seq<Event>)
    ensures Plain(t, t)
  {
  }

  lemma PatchIsPlain(t: seq<Event>, status: RunStatus)
    ensures Plain(t, t + [RunPatched(status)])
  {
  }

  lemma ChildrenReadsArePlain(t: seq<Event>, s: Get<Secret>, task: Get<Task>, now: int, key: string)
    ensures var a := t + [CachedSecret(s)];
      var b := a + [CachedTask(task)];
      var c := b + [Clock(now)];
      && Plain(t, t) && Plain(t, a) && Plain(t, b) && Plain(t, b + [SecretCreated]) && Plain(t, c)
      && Plain(t, c + [TaskCreated(key, now + AUTHORIZATION_LEASE)])
  {
  }

  lemma ReadyReadsArePlain(t: seq<Event>, cached: Get<Task>, task: Get<Task>, now: int, name: string, pod: Get<Pod>)
    ensures var a := t + [CachedTask(cached)];
      var b := a + [FreshTask(task)];
      var c := b + [Clock(now)];
      Plain(t, a) && Plain(t, b) && Plain(t, c) && Plain(t, c + [FreshPod(name, pod)]) && t <= a
  {
  }

  lemma ListingIsPlain(t: seq<Event>, runs: seq<Run>)
    ensures Plain(t, t + [ListedRuns(runs)])
  {
  }

  lemma LiveIsDelay(uid: string, w: World, status: RunStatus)
    ensures LiveTaskIn(uid, w, status) ==> LeaseIn(uid, w, status).LeaseDelay?
  {
  }

  lemma LeaseByPhase(uid: string, w: World, a: RunStatus, b: RunStatus)
    ensures a.phase == b.phase ==> LeaseIn(uid, w, a) == LeaseIn(uid, w, b)
  {
  }

  predicate Answers(r: LeaseResult, d: LeaseDecision) {
    match d
    case LeaseRefused(reason) => r == LeaseMessage(reason)
    case LeaseHeld(delay) => r == LeaseDelay(delay)
    case LeaseRenewed(_, delay) => r == LeaseDelay(delay) || r == LeaseError
  }

  lemma AnswersLive(task: Task, now: int)
    ensures Lease(task, now).LeaseRefused? <==> !Live(task, now)
    ensures Live(task, now) ==> Delay(task, now) > 0
    ensures forall r :: Answers(r, Lease(task, now)) && r.LeaseDelay? ==> Live(task, now) && r.delay == Delay(task, now) > 0
  {
  }

  // ----- Where one reconcile leaves a run in a store at rest -----

  /** The phase and the last error the run is left with, and what the reconcile returns. */
  datatype Move = Move(phase: Phase, error: Reason, o: Outcome)

  predicate Lands(move: Move, now: RunStatus, o: Outcome) {
    now.phase == move.phase && now.lastError == move.error && o == move.o
  }

  predicate SameView(a: RunStatus, b: RunStatus) {
    a.phase == b.phase && a.lastError == b.lastError
  }

  /** What ending a run returns: its task and its Secret must both have been read. */
  function Tidied(w: World): (o: Outcome) {
    if w.cachedTask.GetFailed? || w.secret.GetFailed? then ApiError else Done
  }

  function Keeps(was: RunStatus, o: Outcome): (move: Move) {
    Move(was.phase, was.lastError, o)
  }

  function Fails(w: World, reason: Reason): (move: Move) {
    Move(Failed, reason, Tidied(w))
  }

  /** A sender Job that has ended ends the run. */
  function FinishIn(was: RunStatus, w: World, job: Job): (move: Option<Move>) {
    if job.failed > 0 then
      Some(if w.failure.Some? then Fails(w, SenderFailed(w.failure.value)) else Keeps(was, ApiError))
    else if job.succeeded > 0 then Some(Move(Succeeded, NoReason, Tidied(w)))
    else None
  }

  /** What the Job alone decides; none when the lease comes next. */
  function SenderIn(uid: string, was: RunStatus, w: World): (move: Option<Move>) {
    match w.job
    case GetFailed => Some(Keeps(was, ApiError))
    case NotFound => if was.senderJobUID == "" then None else Some(Fails(w, JobMissing))
    case Found(job) =>
      if job.meta.owner != Some(uid) then Some(Fails(w, NotControlled(JobChild)))
      else if job.meta.deleting then Some(Fails(w, BeingDeleted(JobChild)))
      else if was.senderJobUID != "" && was.senderJobUID != job.meta.uid then Some(Fails(w, JobReplaced))
      else if job.meta.uid == "" then Some(Keeps(was, Requeue(SECOND)))
      else FinishIn(was, w, job)
  }

  lemma JobCases(uid: string, observed: RunStatus, read: Get<Job>)
    ensures var d := SenderJobFor(uid, observed, read);
      && (d.SenderUnknown? <==> read.GetFailed?)
      && (d.NoSender? <==> read.NotFound? && observed.senderJobUID == "")
      && (d.Sender? ==>
            && read == Found(d.job) && Owned(uid, d.job.meta)
            && (observed.senderJobUID == "" || observed.senderJobUID == d.job.meta.uid))
      && (read.Found? && observed.senderJobUID != "" && read.value.meta.uid != observed.senderJobUID ==> d.SenderRefused?)
  {
  }

  lemma SenderCases(uid: string, was: RunStatus, w: World)
    ensures match SenderJobFor(uid, was, w.job)
      case SenderUnknown => SenderIn(uid, was, w) == Some(Keeps(was, ApiError))
      case SenderRefused(reason) => SenderIn(uid, was, w) == Some(Fails(w, reason))
      case NoSender => SenderIn(uid, was, w).None?
      case Sender(job) =>
        SenderIn(uid, was, w) == if job.meta.uid == "" then Some(Keeps(was, Requeue(SECOND))) else FinishIn(was, w, job)
  {
    hide FinishIn;
  }

  /** The receiver is ready and its host key in place: ReceiverReady is recorded before the task is looked at again. */
  function RequestIn(was: RunStatus, w: World, task: Task): (move: Move) {
    match EligibleIn(w, task)
    case EligibleError => Move(ReceiverReady, was.lastError, ApiError)
    case EligibleRefused(reason) => Fails(w, reason)
    case NotEligible =>
      Move(if was.phase == StartingReceiver then ReceiverReady else StartingReceiver, was.lastError, Requeue(5 * SECOND))
    case Eligible => Move(ReceiverReady, was.lastError, Requeue(SECOND))
  }

  function HostsMoveIn(uid: string, line: HostLine, was: RunStatus, w: World, task: Task): (move: Move) {
    match HostsIn(uid, w, line(task.host, task.port, task.hostKey))
    case HostsError => Keeps(was, ApiError)
    case HostsRefused(reason) => Fails(w, reason)
    case HostsKnown => RequestIn(was, w, task)
  }

  function GateIn(uid: string, line: HostLine, was: RunStatus, w: World): (move: Move) {
    match ReadyIn(uid, w)
    case ReadyError => Keeps(was, ApiError)
    case ReadyRefused(reason) => Fails(w, reason)
    case NotReady => Move(StartingReceiver, was.lastError, Requeue(5 * SECOND))
    case ReadyTask(task) => HostsMoveIn(uid, line, was, w, task)
  }

  /** A run without a sender Job, `delay` before its lease needs a look. */
  function StartIn(uid: string, line: HostLine, was: RunStatus, w: World, delay: int): (move: Move) {
    match ChildrenIn(uid, w)
    case ChildrenError => Keeps(was, ApiError)
    case ChildrenRefused(reason) => Fails(w, reason)
    case ChildrenCreated => Move(StartingReceiver, was.lastError, Requeue(CHILDREN_WAIT))
    case ChildrenPresent =>
      var move := GateIn(uid, line, was, w);
      move.(o := WithEarlierRequeue(move.o, delay))
  }

  /** What follows the look at the Job. */
  function LeasedIn(uid: string, line: HostLine, was: RunStatus, w: World, sending: bool): (move: Move) {
    match LeaseIn(uid, w, was)
    case LeaseError => Keeps(was, ApiError)
    case LeaseMessage(reason) => Fails(w, reason)
    case LeaseDelay(delay) =>
      if sending then Move(Running, was.lastError, Requeue(if delay == 0 then 5 * SECOND else delay))
      else StartIn(uid, line, was, w, delay)
  }

  function MoveIn(uid: string, line: HostLine, was: RunStatus, w: World): (move: Move) {
    var ended := SenderIn(uid, was, w);
    if ended.Some? then ended.value else LeasedIn(uid, line, was, w, w.job.Found?)
  }

  /** The Job that read found is the one this run may go on with. */
  predicate SenderStands(uid: string, was: RunStatus, w: World) {
    && w.job.Found? && Owned(uid, w.job.value.meta) && w.job.value.meta.uid != ""
    && (was.senderJobUID == "" || was.senderJobUID == w.job.value.meta.uid)
  }

  /** A reconcile ends a run as Succeeded or calls it Running exactly in these stores, and after asking for its sender it comes
      back within a second. A run that goes on keeps its last error: what it once waited for is still there. */
  lemma MovesOnIff(uid: string, line: HostLine, was: RunStatus, w: World)
    requires !Terminal(was.phase) && was.phase != Running
    ensures MoveIn(uid, line, was, w).phase == Succeeded <==>
      SenderStands(uid, was, w) && w.job.value.failed == 0 && w.job.value.succeeded > 0
    ensures MoveIn(uid, line, was, w).phase == Running <==>
      SenderStands(uid, was, w) && w.job.value.failed == 0 && w.job.value.succeeded == 0 && LeaseIn(uid, w, was).LeaseDelay?
    ensures was.senderJobUID == "" && SendsIn(uid, w, line, was) ==>
      && MoveIn(uid, line, was, w).phase == ReceiverReady && MoveIn(uid, line, was, w).o.Requeue?
      && MoveIn(uid, line, was, w).o.after <= SECOND
    ensures !Terminal(MoveIn(uid, line, was, w).phase) ==> MoveIn(uid, line, was, w).error == was.lastError
  {
    hide LeaseIn, ChildrenIn, ReadyIn, HostsIn, EligibleIn;
    if was.senderJobUID == "" && SendsIn(uid, w, line, was) {
      assert MoveIn(uid, line, was, w) == StartIn(uid, line, was, w, LeaseIn(uid, w, was).delay);
      assert GateIn(uid, line, was, w) == Move(ReceiverReady, was.lastError, Requeue(SECOND));
    }
  }

  lemma SameLeased(uid: string, line: HostLine, a: RunStatus, b: RunStatus, w: World)
    ensures SameView(a, b) ==> LeasedIn(uid, line, a, w, true) == LeasedIn(uid, line, b, w, true)
  {
  }

  predicate FreeIn(runs: seq<Run>, self: Run) {
    forall other :: other in runs ==> !Blocks(other, self)
  }

  // ----- The reconciler -----

  class Reconciler {
    const api: Api
    /** The run's UID, its listed form for the lock, and whether its spec is valid. */
    const uid: string
    const self: Run
    const valid: bool
    const line: HostLine
    /** The reason as the message the run's and the task's status carry. */
    const wording: Reason -> string

    constructor (api: Api, uid: string, self: Run, valid: bool, line: HostLine, wording: Reason -> string)
      ensures this.api == api && this.uid == uid && this.self == self && this.valid == valid && this.line == line
      ensures this.wording == wording
    {
      this.api, this.uid, this.self, this.valid, this.line, this.wording := api, uid, self, valid, line, wording;
    }

    method ObservedRunStatus(local: RunStatus) returns (observed: RunStatus)
      requires api.Valid()
      modifies api
      ensures api.Valid() && api.status == old(api.status) && api.statuses == old(api.statuses)
      ensures (old(api.deleted) ==> api.deleted) && Plain(old(api.trace), api.trace)
      ensures api.reliable && !api.deleted ==> observed == api.status
      ensures observed == api.status || observed == local
    {
      hide Patches;
      var read := api.ReadFreshRun();
      observed := Observed(local, read);
    }

    method MarkReceiveTaskTerminal(phase: TaskPhase, message: string) returns (ok: bool)
      requires api.Valid()
      modifies api
      ensures api.Valid() && api.status == old(api.status)
      ensures api.statuses == old(api.statuses) && api.deleted == old(api.deleted)
      ensures Plain(old(api.trace), api.trace)
      ensures api.world.Some? ==> (ok <==> !api.world.value.cachedTask.GetFailed?)
      ensures api.world.Some? && MarksIn(uid, api.world.value, phase, message) ==>
        Happened(old(api.trace), api.trace, TaskMarked(phase, message))
    {
      hide Patches;
      var read := api.ReadTask();
      if read.NotFound? {
        return true;
      }
      if read.GetFailed? {
        return false;
      }
      if ChildRefusal(uid, read.value.meta, TaskChild).Some? || (read.value.phase == phase && read.value.error == message) {
        return true;
      }
      ok := api.Write(TaskMarked(phase, message));
      assert api.trace[|api.trace| - 1] == TaskMarked(phase, message);
    }

    method DeleteRunSSHSecret() returns (ok: bool)
      requires api.Valid()
      modifies api
      ensures api.Valid() && api.status == old(api.status)
      ensures api.statuses == old(api.statuses) && api.deleted == old(api.deleted)
      ensures Plain(old(api.trace), api.trace)
      ensures api.world.Some? ==> (ok <==> !api.world.value.secret.GetFailed?)
      ensures api.world.Some? && DeletesIn(uid, api.world.value) ==> Happened(old(api.trace), api.trace, SecretDeleted)
    {
      hide Patches;
      var read := api.ReadSecret();
      if !read.Found? {
        return read.NotFound?;
      }
      if ChildRefusal(uid, read.value.meta, SecretChild).Some? {
        return true;
      }
      ok := api.Write(SecretDeleted);
      assert api.trace[|api.trace| - 1] == SecretDeleted;
    }

    method FinishTerminal(phase: TaskPhase, message: string) returns (o: Outcome)
      requires api.Valid()
      modifies api
      ensures api.Valid() && api.status == old(api.status)
      ensures api.statuses == old(api.statuses) && api.deleted == old(api.deleted)
      ensures Plain(old(api.trace), api.trace)
      ensures !o.Requeue?
      ensures api.world.Some? ==> o == Tidied(api.world.value)
      ensures api.world.Some? && MarksIn(uid, api.world.value, phase, message) ==>
        Happened(old(api.trace), api.trace, TaskMarked(phase, message))
      ensures api.world.Some? && DeletesIn(uid, api.world.value) ==> Happened(old(api.trace), api.trace, SecretDeleted)
    {
      ghost var start := api.trace;
      var marked := MarkReceiveTaskTerminal(phase, message);
      ghost var later := api.trace;
      var deleted := DeleteRunSSHSecret();
      HappenedAcross(start, later, api.trace, TaskMarked(phase, message));
      HappenedAcross(start, later, api.trace, SecretDeleted);
      o := if marked && deleted then Done else ApiError;
    }

    /** The run is driven to Failed, unless the patch itself fails. */
    method FailRunObject(local: RunStatus, reason: Reason) returns (o: Outcome)
      requires api.Valid() && local.phase != Failed
      modifies api
      ensures api.Valid() && Plain(old(api.trace), api.trace) && (old(api.deleted) ==> api.deleted)
      ensures api.status.senderJobUID == old(api.status).senderJobUID
      ensures api.status.phase == Failed || api.status == old(api.status)
      ensures o == Done ==> api.status.phase == Failed
      ensures !o.Requeue? && Extended(old(api.statuses), api.statuses, api.status)
      ensures api.world.Some? ==> api.status.phase == Failed && o == Tidied(api.world.value)
      ensures api.world.Some? && local.lastError == old(api.status).lastError ==> api.status.lastError == reason
      ensures api.world.Some? && MarksIn(uid, api.world.value, TaskFailed, wording(reason)) ==>
        Happened(old(api.trace), api.trace, TaskMarked(TaskFailed, wording(reason)))
      ensures api.world.Some? && DeletesIn(uid, api.world.value) ==> Happened(old(api.trace), api.trace, SecretDeleted)
      ensures Stamped(local, old(api.status), api.status)
    {
      hide Patches;
      ghost var start := api.trace;
      var observed := ObservedRunStatus(local);
      var now: int := *;
      var mutated := Initialized(local.(phase := Failed, completedAt := Some(now), lastError := reason), now);
      var ok := api.PatchRunStatus(local, mutated);
      if !ok {
        return ApiError;
      }
      ghost var later := api.trace;
      o := FinishTerminal(TaskFailed, wording(reason));
      HappenedAcross(start, later, api.trace, TaskMarked(TaskFailed, wording(reason)));
      HappenedAcross(start, later, api.trace, SecretDeleted);
    }

    method WaitForReplicationReceiver(local: RunStatus) returns (o: Outcome)
      requires api.Valid()
      modifies api
      ensures api.Valid() && Plain(old(api.trace), api.trace) && (old(api.deleted) ==> api.deleted)
      ensures api.status.senderJobUID == old(api.status).senderJobUID
      ensures api.status.phase == StartingReceiver || api.status.phase == old(api.status).phase
      ensures o == ApiError || o == Requeue(5 * SECOND)
      ensures Extended(old(api.statuses), api.statuses, api.status)
      ensures api.world.Some? ==> o == Requeue(5 * SECOND)
      ensures api.world.Some? ==>
        api.status.phase == if local.phase == StartingReceiver then old(api.status).phase else StartingReceiver
      ensures api.status.lastError == old(api.status).lastError
      ensures o.Requeue? ==> api.status.phase == StartingReceiver || local.phase == StartingReceiver
      ensures Stamped(local, old(api.status), api.status)
    {
      hide Patches;
      var observed := ObservedRunStatus(local);
      var now: int := *;
      var ok := api.PatchRunStatus(local, Initialized(local.(phase := StartingReceiver), now));
      o := if ok then Requeue(5 * SECOND) else ApiError;
    }

    // ----- The sender Job's identity -----

    method SenderJobForRun(observed: RunStatus) returns (d: SenderDecision, ghost read: Get<Job>)
      requires api.Valid()
      modifies api
      ensures api.Valid() && api.status == old(api.status)
      ensures api.statuses == old(api.statuses) && api.deleted == old(api.deleted)
      ensures api.trace == old(api.trace) + [CachedJob(read)] && Plain(old(api.trace), api.trace)
      ensures d == SenderJobFor(uid, observed, read)
      ensures api.world.Some? ==> read == api.world.value.job
    {
      var job := api.ReadJob();
      read := job;
      d := SenderJobFor(uid, observed, job);
    }

    method BindSenderJobIdentity(local: RunStatus, job: Job) returns (ok: bool, bound: RunStatus)
      requires api.Valid() && job.meta.uid != ""
      modifies api
      ensures api.Valid() && Plain(old(api.trace), api.trace) && api.deleted == old(api.deleted)
      ensures !ok ==> api.status == old(api.status)
      ensures ok ==> api.status.senderJobUID == if local.senderJobUID == "" then job.meta.uid else old(api.status).senderJobUID
      ensures SameView(api.status, old(api.status))
      ensures Extended(old(api.statuses), api.statuses, api.status)
      ensures bound == local.(senderJobName := true, senderJobUID := job.meta.uid)
      ensures api.world.Some? ==> ok
      ensures Stamped(local, old(api.status), api.status)
    {
      hide Patches;
      var now: int := *;
      ok := api.PatchRunStatus(local, Bound(local, job.meta.uid, now));
      bound := local.(senderJobName := true, senderJobUID := job.meta.uid);
    }

    /** What the sender's Pods and the Job's conditions say; reading them may fail. */
    method SenderFailureMessage() returns (message: Option<string>)
      ensures api.world.Some? ==> message == api.world.value.failure
    {
      message := *;
      if api.world.Some? {
        message := api.world.value.failure;
      }
    }

    /** Ends the run once its Job has; `done` says whether this reconcile is over. */
    method FinishFromSenderJob(local: RunStatus, job: Job) returns (o: Outcome, done: bool)
      requires api.Valid() && !Terminal(local.phase)
      modifies api
      ensures api.Valid() && Plain(old(api.trace), api.trace) && (old(api.deleted) ==> api.deleted)
      ensures api.status.senderJobUID == old(api.status).senderJobUID
      ensures api.status.phase == old(api.status).phase || api.status.phase == Failed
        || (api.status.phase == Succeeded && job.failed == 0 && job.succeeded > 0)
      ensures !done ==> o == Done && job.failed == 0 && job.succeeded == 0 && api.status == old(api.status)
      ensures !o.Requeue? && Extended(old(api.statuses), api.statuses, api.status)
      ensures done ==> job.failed > 0 || job.succeeded > 0
      ensures api.world.Some? && job.failed == 0 && job.succeeded > 0 ==> api.status.phase == Succeeded
      ensures api.world.Some? && SameView(local, old(api.status)) ==>
        && (done <==> FinishIn(old(api.status), api.world.value, job).Some?)
        && (done ==> Lands(FinishIn(old(api.status), api.world.value, job).value, api.status, o))
      ensures api.world.Some? && job.failed == 0 && job.succeeded > 0 && MarksIn(uid, api.world.value, TaskCompleted, "") ==>
        Happened(old(api.trace), api.trace, TaskMarked(TaskCompleted, ""))
      ensures Stamped(local, old(api.status), api.status)
    {
      hide Patches;
      ghost var start := api.trace;
      if job.failed > 0 {
        var message := SenderFailureMessage();
        if message.None? {
          return ApiError, true;
        }
        o := FailRunObject(local, SenderFailed(message.value));
        return o, true;
      }
      if job.succeeded > 0 {
        var now: int := *;
        var mutated := Initialized(local.(phase := Succeeded, completedAt := Some(now), lastError := NoReason), now);
        var ok := api.PatchRunStatus(local, mutated);
        if !ok {
          return ApiError, true;
        }
        ghost var later := api.trace;
        o := FinishTerminal(TaskCompleted, "");
        HappenedAcross(start, later, api.trace, TaskMarked(TaskCompleted, ""));
        return o, true;
      }
      return Done, false;
    }

    // ----- The lease -----

    /** The run and its task, read past the cache, and the clock; `early` when there is no lease to look after. */
    method ReadLease(local: RunStatus) returns (early: Option<LeaseResult>, task: Option<Task>, now: int)
      requires api.Valid()
      modifies api
      ensures api.Valid() && api.status == old(api.status) && api.statuses == old(api.statuses)
      ensures Plain(old(api.trace), api.trace) && (old(api.deleted) ==> api.deleted)
      ensures forall k :: |old(api.trace)| <= k < |api.trace| ==> !api.trace[k].TaskRenewed?
      ensures early.Some? <==> task.None?
      ensures early.Some? ==> !early.value.LeaseDelay? || early.value.delay == 0
      ensures task.Some? ==>
        && Owned(uid, task.value.meta)
        && Shows(old(api.trace), api.trace, [FreshTask(Found(task.value)), Clock(now)])
        && |api.trace| > |old(api.trace)| && api.trace[|api.trace| - 1] == Clock(now)
      ensures api.world.Some? && !Terminal(local.phase) ==>
        (task.Some? <==> OwnTaskIn(uid, api.world.value, api.status))
        && (early.Some? ==> early.value == LeaseIn(uid, api.world.value, api.status))
        && (task.Some? ==> task.value == api.world.value.task.value && now == api.world.value.now)
    {
      hide Patches, Within, Shows, Lease;
      task, now := None, 0;
      if Terminal(local.phase) {
        return Some(LeaseDelay(0)), None, now;
      }
      ghost var start := api.trace;
      var run := api.ReadFreshRun();
      if !run.Found? {
        return Some(if run.NotFound? then LeaseDelay(0) else LeaseError), None, now;
      }
      if Terminal(run.value.phase) {
        return Some(LeaseDelay(0)), None, now;
      }
      ghost var before := api.trace;
      var read := api.ReadFreshTask();
      if !read.Found? {
        return Some(if read.NotFound? then LeaseDelay(0) else LeaseError), None, now;
      }
      if ChildRefusal(uid, read.value.meta, TaskChild).Some? {
        return Some(LeaseMessage(ChildRefusal(uid, read.value.meta, TaskChild).value)), None, now;
      }
      now := api.Now();
      assert api.trace == before + [FreshTask(Found(read.value)), Clock(now)];
      ShowsAll(before, [FreshTask(Found(read.value)), Clock(now)]);
      ShowsLater(start, before, api.trace, [FreshTask(Found(read.value)), Clock(now)]);
      return None, Some(read.value), now;
    }

    /** Writes the renewal a task's lease calls for, if it calls for one. */
    method HoldOrRenew(task: Task, now: int) returns (r: LeaseResult)
      requires api.Valid()
      modifies api
      ensures api.Valid() && api.status == old(api.status) && api.statuses == old(api.statuses) && api.deleted == old(api.deleted)
      ensures Answers(r, Lease(task, now)) && (r.LeaseDelay? ==> r.delay >= 0)
      ensures api.world.Some? ==> !r.LeaseError?
      ensures api.trace == old(api.trace)
        + if Lease(task, now).LeaseRenewed? then [TaskRenewed(Lease(task, now).expiresAt)] else []
    {
      hide Patches, ReceiveTaskLeaseRefusal;
      match Lease(task, now) {
        case LeaseRefused(reason) => r := LeaseMessage(reason);
        case LeaseHeld(delay) => r := LeaseDelay(delay);
        case LeaseRenewed(expiresAt, delay) =>
          var ok := api.Write(TaskRenewed(expiresAt));
          r := if ok then LeaseDelay(delay) else LeaseError;
      }
    }

    method ReconcileRunReceiveTaskLease(local: RunStatus)
      returns (r: LeaseResult, seen: Option<(Task, int)>)
      requires api.Valid()
      modifies api
      ensures api.Valid() && api.status == old(api.status) && api.statuses == old(api.statuses)
      ensures Plain(old(api.trace), api.trace) && (old(api.deleted) ==> api.deleted)
      ensures r.LeaseDelay? && r.delay != 0 ==> seen.Some?
      ensures seen.Some? ==> Shows(old(api.trace), api.trace, [FreshTask(Found(seen.value.0)), Clock(seen.value.1)])
      ensures seen.Some? ==> Owned(uid, seen.value.0.meta) && Answers(r, Lease(seen.value.0, seen.value.1))
      ensures seen.Some? && r.LeaseDelay? ==>
        Live(seen.value.0, seen.value.1) && r.delay == Delay(seen.value.0, seen.value.1) > 0
      ensures api.world.Some? && !Terminal(local.phase) && OwnTaskIn(uid, api.world.value, api.status) ==>
        seen == Some((api.world.value.task.value, api.world.value.now))
      ensures r.LeaseDelay? ==> r.delay >= 0
      ensures TaskRenewals(old(api.trace), api.trace, seen)
      ensures api.world.Some? && !Terminal(local.phase) ==> r == LeaseIn(uid, api.world.value, api.status)
      ensures seen.Some? && r.LeaseDelay? && Lease(seen.value.0, seen.value.1).LeaseRenewed? ==>
        api.trace != [] && api.trace[|api.trace| - 1] == TaskRenewed(Lease(seen.value.0, seen.value.1).expiresAt)
    {
      hide Patches, Within, Shows, ReceiveTaskLeaseRefusal;
      seen := None;
      ghost var start := api.trace;
      var early, task, now := ReadLease(local);
      if early.Some? {
        return early.value, None;
      }
      seen := Some((task.value, now));
      ghost var read := api.trace;
      AnswersLive(task.value, now);
      hide Lease, Delay, Live, After;
      r := HoldOrRenew(task.value, now);
      RenewedAfterClock(start, read, api.trace, task.value, now);
      ShowsStill(start, read, api.trace, [FreshTask(Found(task.value)), Clock(now)]);
    }

    // ----- Children -----

    method EnsurePreSenderChildren() returns (r: ChildrenResult, ghost secret: Secret, ghost listed: Task)
      requires api.Valid()
      modifies api
      ensures api.Valid() && api.status == old(api.status)
      ensures api.statuses == old(api.statuses) && api.deleted == old(api.deleted)
      ensures Plain(old(api.trace), api.trace)
      ensures r.ChildrenPresent? ==>
        && Shows(old(api.trace), api.trace, [CachedSecret(Found(secret)), CachedTask(Found(listed))])
        && Owned(uid, secret.meta) && Owned(uid, listed.meta)
        && secret.publicKey != "" && listed.publicKey == secret.publicKey
      ensures api.world.Some? ==> r == ChildrenIn(uid, api.world.value)
      ensures r.ChildrenCreated? ==> api.trace != [] && (api.trace[|api.trace| - 1].SecretCreated? || api.trace[|api.trace| - 1].TaskCreated?)
      ensures api.world.Some? && r.ChildrenCreated? ==>
        api.trace[|api.trace| - 1] == if api.world.value.secret.NotFound? then SecretCreated
          else TaskCreated(api.world.value.secret.value.publicKey, api.world.value.now + AUTHORIZATION_LEASE)
    {
      hide Patches, Within, Plain;
      ghost var start := api.trace;
      secret, listed := *, *;
      var s := api.ReadSecret();
      ChildrenReadsArePlain(start, s, NotFound, 0, "");
      if s.GetFailed? {
        return ChildrenError, secret, listed;
      }
      if s.Found? && ChildRefusal(uid, s.value.meta, SecretChild).Some? {
        return ChildrenRefused(ChildRefusal(uid, s.value.meta, SecretChild).value), secret, listed;
      }
      var t := api.ReadTask();
      ChildrenReadsArePlain(start, s, t, 0, "");
      if t.GetFailed? {
        return ChildrenError, secret, listed;
      }
      if t.Found? && ChildRefusal(uid, t.value.meta, TaskChild).Some? {
        return ChildrenRefused(ChildRefusal(uid, t.value.meta, TaskChild).value), secret, listed;
      }
      if t.Found? && !s.Found? {
        return ChildrenRefused(SecretMissing), secret, listed;
      }
      if !s.Found? {
        var ok := api.Write(SecretCreated);
        return if ok then ChildrenCreated else ChildrenError, secret, listed;
      }
      if s.value.publicKey == "" {
        return ChildrenRefused(PublicKeyMissing), secret, listed;
      }
      if t.Found? {
        if t.value.publicKey != s.value.publicKey {
          return ChildrenRefused(PublicKeyMismatch), secret, listed;
        }
        secret, listed := s.value, t.value;
        ShowsAll(start, [CachedSecret(s), CachedTask(t)]);
        assert api.trace == start + [CachedSecret(s), CachedTask(t)];
        return ChildrenPresent, secret, listed;
      }
      var now := api.Now();
      ChildrenReadsArePlain(start, s, t, now, s.value.publicKey);
      var ok := api.Write(TaskCreated(s.value.publicKey, now + AUTHORIZATION_LEASE));
      return if ok then ChildrenCreated else ChildrenError, secret, listed;
    }

    // ----- The gate -----

    method ExactReceiverPodReady(name: string, podUID: string) returns (ok: Option<bool>, ghost pod: Get<Pod>)
      requires api.Valid()
      modifies api
      ensures api.Valid() && api.status == old(api.status)
      ensures api.statuses == old(api.statuses) && api.deleted == old(api.deleted)
      ensures api.trace == old(api.trace) + [FreshPod(name, pod)]
      ensures ok == Some(true) ==> pod.Found? && pod.value.uid == podUID && !pod.value.deleting && pod.value.ready
      ensures ok == if pod.GetFailed? then None else Some(PodReady(pod, podUID))
      ensures api.world.Some? ==> pod == api.world.value.pods(name)
    {
      var read := api.ReadFreshPod(name);
      pod := read;
      match read {
        case GetFailed => ok := None;
        case NotFound => ok := Some(false);
        case Found(p) => ok := Some(p.uid == podUID && !p.deleting && p.ready);
      }
    }

    method ReadyReceiveTask() returns (r: ReadyResult, ghost readAt: int, ghost pod: Pod)
      requires api.Valid()
      modifies api
      ensures api.Valid() && api.status == old(api.status)
      ensures api.statuses == old(api.statuses) && api.deleted == old(api.deleted)
      ensures Plain(old(api.trace), api.trace)
      ensures r.ReadyTask? ==>
        && Shows(old(api.trace), api.trace, [FreshTask(Found(r.task)), Clock(readAt), FreshPod(r.task.podName, Found(pod))])
        && Owned(uid, r.task.meta) && r.task.meta.uid != ""
        && r.task.phase == TaskReady && readAt < r.task.expiresAt && MissingReadyField(r.task).None?
        && pod.uid == r.task.podUID && !pod.deleting && pod.ready
      ensures api.world.Some? ==> r == ReadyIn(uid, api.world.value)
    {
      hide Patches, Within, Shows, Plain, MissingReadyField, ReceiveTaskLeaseRefusal, ChildRefusal;
      readAt, pod := *, *;
      ghost var start := api.trace;
      var cached := api.ReadTask();
      ReadyReadsArePlain(start, cached, NotFound, 0, "", NotFound);
      if !cached.Found? {
        return ReadyError, readAt, pod;
      }
      if ChildRefusal(uid, cached.value.meta, TaskChild).Some? {
        return ReadyRefused(ChildRefusal(uid, cached.value.meta, TaskChild).value), readAt, pod;
      }
      if cached.value.meta.uid == "" {
        return ReadyRefused(TaskWithoutUID), readAt, pod;
      }
      ghost var before := api.trace;
      var current := api.ReadFreshTask();
      ReadyReadsArePlain(start, cached, current, 0, "", NotFound);
      if !current.Found? {
        return if current.NotFound? then NotReady else ReadyError, readAt, pod;
      }
      if current.value.meta.uid != cached.value.meta.uid {
        return NotReady, readAt, pod;
      }
      var task := current.value;
      if ChildRefusal(uid, task.meta, TaskChild).Some? {
        return ReadyRefused(ChildRefusal(uid, task.meta, TaskChild).value), readAt, pod;
      }
      var now := api.Now();
      ReadyReadsArePlain(start, cached, current, now, task.podName, NotFound);
      if ReceiveTaskLeaseRefusal(task, now).Some? {
        return ReadyRefused(ReceiveTaskLeaseRefusal(task, now).value), readAt, pod;
      }
      if task.phase != TaskReady {
        return NotReady, readAt, pod;
      }
      if MissingReadyField(task).Some? {
        return ReadyRefused(MissingReadyField(task).value), readAt, pod;
      }
      var ready, read := ExactReceiverPodReady(task.podName, task.podUID);
      ReadyReadsArePlain(start, cached, current, now, task.podName, read);
      if ready != Some(true) {
        return if ready.None? then ReadyError else NotReady, readAt, pod;
      }
      readAt, pod := now, read.value;
      ghost var shown := [FreshTask(Found(task)), Clock(now), FreshPod(task.podName, read)];
      assert api.trace == before + shown;
      ShowsAll(before, shown);
      ShowsLater(start, before, api.trace, shown);
      return ReadyTask(task), readAt, pod;
    }

    method EnsureRunKnownHosts(task: Task) returns (r: HostsResult, ghost keyed: Secret, ghost rewritten: bool)
      requires api.Valid()
      modifies api
      ensures api.Valid() && api.status == old(api.status)
      ensures api.statuses == old(api.statuses) && api.deleted == old(api.deleted)
      ensures Plain(old(api.trace), api.trace)
      ensures r.HostsKnown? ==>
        && Owned(uid, keyed.meta) && line(task.host, task.port, task.hostKey).Some?
        && (!rewritten ==> Some(keyed.knownHosts) == line(task.host, task.port, task.hostKey))
        && Shows(old(api.trace), api.trace,
             [CachedSecret(Found(keyed))] + if rewritten then [SecretUpdated(line(task.host, task.port, task.hostKey).value)] else [])
      ensures api.world.Some? ==> r == HostsIn(uid, api.world.value, line(task.host, task.port, task.hostKey))
    {
      hide Patches, Within;
      keyed, rewritten := *, false;
      ghost var start := api.trace;
      var secret := api.ReadSecret();
      if !secret.Found? {
        return HostsError, keyed, rewritten;
      }
      keyed := secret.value;
      if ChildRefusal(uid, secret.value.meta, SecretChild).Some? {
        return HostsRefused(ChildRefusal(uid, secret.value.meta, SecretChild).value), keyed, rewritten;
      }
      var wanted := line(task.host, task.port, task.hostKey);
      if wanted.None? {
        return HostsError, keyed, rewritten;
      }
      if Some(secret.value.knownHosts) == wanted {
        ShowsAll(start, [CachedSecret(secret)] + []);
        assert [CachedSecret(secret)] + [] == [CachedSecret(secret)] && api.trace == start + [CachedSecret(secret)];
        return HostsKnown, keyed, rewritten;
      }
      rewritten := true;
      var ok := api.Write(SecretUpdated(wanted.value));
      ShowsAll(start, [CachedSecret(secret)] + [SecretUpdated(wanted.value)]);
      assert start + [CachedSecret(secret)] + [SecretUpdated(wanted.value)] == start + ([CachedSecret(secret)] + [SecretUpdated(wanted.value)]);
      return if ok then HostsKnown else HostsError, keyed, rewritten;
    }

    method ReceiveTaskEligibleForSender(expected: Task) returns (r: EligibleResult, ghost again: Task, ghost againAt: int)
      requires api.Valid()
      modifies api
      ensures api.Valid() && api.status == old(api.status)
      ensures api.statuses == old(api.statuses) && api.deleted == old(api.deleted)
      ensures Plain(old(api.trace), api.trace)
      ensures r.Eligible? ==>
        && Shows(old(api.trace), api.trace, [FreshTask(Found(again)), Clock(againAt)])
        && again.meta.uid == expected.meta.uid && !TaskTerminal(again.phase) && againAt < again.expiresAt
      ensures api.world.Some? ==> r == EligibleIn(api.world.value, expected)
    {
      hide Patches, Within;
      again, againAt := *, *;
      ghost var start := api.trace;
      var current := api.ReadFreshTask();
      if !current.Found? {
        return if current.NotFound? then NotEligible else EligibleError, again, againAt;
      }
      again := current.value;
      if current.value.meta.uid != expected.meta.uid {
        return NotEligible, again, againAt;
      }
      var now := api.Now();
      againAt := now;
      if ReceiveTaskLeaseRefusal(current.value, now).Some? {
        return EligibleRefused(ReceiveTaskLeaseRefusal(current.value, now).value), again, againAt;
      }
      ShowsAll(start, [FreshTask(current), Clock(now)]);
      assert api.trace == start + [FreshTask(current), Clock(now)];
      return Eligible, again, againAt;
    }

    /** `requested` says whether a Job was asked for, successfully or not. */
    method EnsureRunSenderJob(task: Task) returns (ok: bool, ghost requested: bool, ghost before: seq<Event>)
      requires api.Valid()
      modifies api
      ensures api.Valid() && api.status == old(api.status)
      ensures api.statuses == old(api.statuses) && api.deleted == old(api.deleted)
      ensures old(api.trace) <= before && Plain(old(api.trace), before)
      ensures api.trace == if requested then before + [JobRequested(task.host, task.port)] else before
      ensures api.world.Some? ==> (requested <==> api.world.value.job.NotFound?)
      ensures api.world.Some? && requested ==> ok
    {
      hide Patches;
      requested := false;
      var existing := api.ReadJob();
      before := api.trace;
      if !existing.NotFound? {
        return existing.Found?, requested, before;
      }
      ok := api.Write(JobRequested(task.host, task.port));
      requested := true;
    }

    /** The ready task and its host key; `stop` when the reconcile ends here. */
    method PrepareSender(local: RunStatus, ghost seed: Evidence)
      returns (stop: Option<Outcome>, task: Option<Task>, ghost e: Evidence)
      requires api.Valid() && !Terminal(local.phase)
      modifies api
      ensures api.Valid() && (old(api.deleted) ==> api.deleted) && Plain(old(api.trace), api.trace)
      ensures api.status.senderJobUID == old(api.status).senderJobUID
      ensures api.status.phase == Succeeded ==> old(api.status).phase == Succeeded
      ensures Extended(old(api.statuses), api.statuses, api.status)
      ensures stop.None? ==> task == Some(e.task) && Prepared(e, uid, line)
      ensures stop.None? ==> Shows(old(api.trace), api.trace, ReadyEvents(e) + KnownHostsEvents(e, line))
      ensures e == seed.(task := e.task, readAt := e.readAt, pod := e.pod, keyed := e.keyed, rewritten := e.rewritten)
      ensures api.world.Some? ==> (stop.None? <==> PreparedIn(uid, api.world.value, line))
      ensures api.world.Some? && stop.None? ==> task == Some(ReadyIn(uid, api.world.value).task)
      ensures stop.None? ==> api.status == old(api.status)
      ensures api.world.Some? && stop.Some? && local == old(api.status) ==>
        Lands(GateIn(uid, line, local, api.world.value), api.status, stop.value)
      ensures api.world.Some? && stop.None? ==>
        GateIn(uid, line, local, api.world.value) == RequestIn(local, api.world.value, task.value)
      ensures Stamped(local, old(api.status), api.status)
    {
      hide Patches, Plain, Within;
      e, task := seed, None;
      ghost var start := api.trace;
      var ready, readAt, pod := ReadyReceiveTask();
      ghost var checked := api.trace;
      if !ready.ReadyTask? {
        NothingHappened(checked);
        var o := if ready.ReadyError? then ApiError else Done;
        if ready.ReadyRefused? {
          o := FailRunObject(local, ready.reason);
        } else if ready.NotReady? {
          o := WaitForReplicationReceiver(local);
        }
        PlainThen(start, checked, api.trace);
        return Some(o), None, e;
      }
      e := seed.(task := ready.task, readAt := readAt, pod := pod);
      assert Shows(start, checked, ReadyEvents(e));
      var observed := ObservedRunStatus(local);
      ghost var observedTrace := api.trace;
      PlainThen(start, checked, observedTrace);
      var hosts, keyed, rewritten := EnsureRunKnownHosts(ready.task);
      ghost var keyedTrace := api.trace;
      PlainThen(start, observedTrace, keyedTrace);
      if !hosts.HostsKnown? {
        NothingHappened(keyedTrace);
        var o := ApiError;
        if hosts.HostsRefused? {
          o := FailRunObject(local, hosts.reason);
        }
        PlainThen(start, keyedTrace, api.trace);
        return Some(o), None, e;
      }
      e := e.(keyed := keyed, rewritten := rewritten);
      assert Shows(observedTrace, api.trace, KnownHostsEvents(e, line));
      PlainExtends(checked, observedTrace);
      hide Shows;
      ShowsLater(checked, observedTrace, api.trace, KnownHostsEvents(e, line));
      ShowsThen(start, checked, api.trace, ReadyEvents(e), KnownHostsEvents(e, line));
      return None, Some(ready.task), e;
    }

    method RecordReceiver(local: RunStatus, task: Task) returns (ok: bool)
      requires api.Valid() && !Terminal(local.phase)
      modifies api
      ensures api.Valid() && (old(api.deleted) ==> api.deleted) && Plain(old(api.trace), api.trace)
      ensures api.status.senderJobUID == old(api.status).senderJobUID
      ensures api.status.phase == Succeeded ==> old(api.status).phase == Succeeded
      ensures Extended(old(api.statuses), api.statuses, api.status)
      ensures api.world.Some? ==> ok
      ensures ok && local == old(api.status) ==>
        && Records(api.status, task) && api.status.lastError == local.lastError
      ensures Stamped(local, old(api.status), api.status)
    {
      hide Patches, Plain;
      ghost var start := api.trace;
      var observed := ObservedRunStatus(local);
      ghost var seen := api.trace;
      var now: int := *;
      var mutated := Initialized(local.(phase := ReceiverReady, receiverPodName := task.podName, receiverPodIP := task.host), now);
      ok := api.PatchRunStatus(local, mutated);
      PatchIsPlain(seen, api.status);
      NothingHappened(seen);
      PlainThen(start, seen, api.trace);
    }

    /** Checks the task once more and asks for the Job. */
    method RequestSender(local: RunStatus, task: Task, ghost seed: Evidence)
      returns (o: Outcome, ghost gate: Option<Evidence>, ghost before: seq<Event>)
      requires api.Valid() && !Terminal(local.phase) && seed.task == task
      modifies api
      ensures api.Valid() && (old(api.deleted) ==> api.deleted)
      ensures api.status.senderJobUID == old(api.status).senderJobUID
      ensures api.status.phase == Succeeded ==> old(api.status).phase == Succeeded
      ensures Extended(old(api.statuses), api.statuses, api.status)
      ensures Requested(old(api.trace), api.trace, before, gate, seed)
      ensures api.world.Some? ==> (gate.Some? <==> RequestedIn(api.world.value, task))
      ensures gate.Some? ==> api.status == old(api.status)
      ensures api.world.Some? && api.world.value.job.NotFound? && old(api.status).phase == ReceiverReady
              && old(api.status).lastError == local.lastError ==>
        Lands(RequestIn(local, api.world.value, task), api.status, o)
      ensures Stamped(local, old(api.status), api.status)
    {
      hide Patches, Plain, Shows;
      NothingHappened(api.trace);
      gate, before := None, api.trace;
      ghost var start := api.trace;
      var eligible, again, againAt := ReceiveTaskEligibleForSender(task);
      ghost var checked := api.trace;
      NothingHappened(checked);
      if !eligible.Eligible? {
        o := ApiError;
        if eligible.EligibleRefused? {
          o := FailRunObject(local, eligible.reason);
        } else if eligible.NotEligible? {
          o := WaitForReplicationReceiver(local);
        }
        PlainThen(start, checked, api.trace);
        return o, gate, before;
      }
      ghost var e := seed.(again := again, againAt := againAt);
      ghost var eligibleTrace := api.trace;
      assert Shows(start, eligibleTrace, AgainEvents(e));
      var ok, requested, asked := EnsureRunSenderJob(task);
      PlainThen(start, eligibleTrace, asked);
      o := if ok then Requeue(SECOND) else ApiError;
      if requested {
        gate, before := Some(e), asked;
        ShowsStill(start, eligibleTrace, asked, AgainEvents(e));
      }
    }

    /** Everything between complete children and the request for a sender Job. */
    method EnsureSenderStarted(local: RunStatus, ghost start: seq<Event>, ghost secret: Secret, ghost listed: Task)
      returns (o: Outcome, ghost gate: Option<Evidence>, ghost before: seq<Event>)
      requires api.Valid() && !Terminal(local.phase)
      requires Plain(start, api.trace)
      requires Shows(start, api.trace, [CachedSecret(Found(secret)), CachedTask(Found(listed))])
      requires Owned(uid, secret.meta) && Owned(uid, listed.meta)
      requires secret.publicKey != "" && listed.publicKey == secret.publicKey
      modifies api
      ensures api.Valid() && (old(api.deleted) ==> api.deleted)
      ensures api.status.senderJobUID == old(api.status).senderJobUID
      ensures api.status.phase == Succeeded ==> old(api.status).phase == Succeeded
      ensures old(api.statuses) <= api.statuses && SameUID(old(api.statuses), api.statuses, api.status)
      ensures Gated(start, api.trace, before, gate, uid, line)
      ensures api.world.Some? ==> (gate.Some? <==> StartedIn(uid, api.world.value, line))
      ensures gate.Some? && local == old(api.status) ==> Records(api.status, gate.value.task)
      ensures api.world.Some? && api.world.value.job.NotFound? && local == old(api.status) ==>
        Lands(GateIn(uid, line, local, api.world.value), api.status, o)
      ensures Stamped(local, old(api.status), api.status)
    {
      if api.world.Some? {
        StartsInStages(uid, api.world.value, line);
      }
      hide *;
      ghost var seed: Evidence := *;
      seed := seed.(secret := secret, listed := listed);
      gate, before := None, start;
      ghost var t0, statuses0 := api.trace, api.statuses;
      var stop, task, e := PrepareSender(local, seed);
      ghost var t1, statuses1 := api.trace, api.statuses;
      if stop.Some? {
        PlainThen(start, t0, t1);
        NothingGated(start, t1, before, uid, line);
        StatusesExtended(statuses0, statuses1, statuses1, api.status, api.status);
        return stop.value, gate, before;
      }
      ghost var status1 := api.status;
      var recorded := RecordReceiver(local, task.value);
      ghost var t2, statuses2, status2 := api.trace, api.statuses, api.status;
      StatusesExtended(statuses0, statuses1, statuses2, status1, status2);
      PlainThen(start, t0, t1);
      PlainThen(start, t1, t2);
      if !recorded {
        NothingGated(start, t2, before, uid, line);
        return ApiError, gate, before;
      }
      ghost var asked;
      o, gate, asked := RequestSender(local, task.value, e);
      before := asked;
      StatusesGrow(statuses0, statuses2, api.statuses, status2, api.status);
      ChildrenShown(start, t0, secret, listed, e);
      CloseGate(start, t0, t1, t2, api.trace, asked, e, gate, uid, line);
    }

    // ----- One reconcile -----

    /** Binds the Job on first sight, and ends the run when the Job has ended. */
    method BindAndFinish(local: RunStatus, observed: RunStatus, job: Job) returns (stop: Option<Outcome>, next: RunStatus)
      requires api.Valid() && !Terminal(local.phase) && Chain(api.statuses)
      requires job.meta.uid != "" && Owned(uid, job.meta)
      requires local.senderJobUID == "" || local.senderJobUID == api.status.senderJobUID
      requires observed == api.status || observed == local
      requires observed.senderJobUID == "" || observed.senderJobUID == job.meta.uid
      modifies api
      ensures api.Valid() && Plain(old(api.trace), api.trace) && (old(api.deleted) ==> api.deleted)
      ensures old(api.statuses) <= api.statuses
      ensures next == local.(senderJobName := next.senderJobName, senderJobUID := next.senderJobUID)
      ensures next.senderJobUID == "" || next.senderJobUID == api.status.senderJobUID
      ensures observed.senderJobUID == old(api.status).senderJobUID ==> Chain(api.statuses)
      ensures observed.senderJobUID == old(api.status).senderJobUID != "" ==>
        api.status.senderJobUID == old(api.status).senderJobUID == job.meta.uid
      ensures api.status.phase == Succeeded && old(api.status).phase != Succeeded ==> EndedWell(job, uid, api.status)
      ensures stop.Some? ==> !stop.value.Requeue?
      ensures api.world.Some? && SameView(local, old(api.status)) ==>
        && (stop.Some? <==> FinishIn(old(api.status), api.world.value, job).Some?)
        && (stop.Some? ==> Lands(FinishIn(old(api.status), api.world.value, job).value, api.status, stop.value))
      ensures stop.None? ==> SameView(api.status, old(api.status)) && SameView(next, local)
      ensures Stamped(local, old(api.status), api.status)
    {
      hide Patches, Plain;
      ghost var start := api.trace;
      NothingHappened(start);
      next := local;
      if observed.senderJobUID == "" {
        var ok, bound := BindSenderJobIdentity(local, job);
        if !ok {
          return Some(ApiError), next;
        }
        next := bound;
      }
      ghost var seen := api.trace;
      var o, done := FinishFromSenderJob(next, job);
      PlainThen(start, seen, api.trace);
      stop := if done then Some(o) else None;
    }

    /** Finds the run's Job, binds its identity on first sight, and ends the run when the Job has ended. `sight` is what
        the Job read returned. */
    method ResolveSender(local: RunStatus)
      returns (stop: Option<Outcome>, sender: Option<Job>, next: RunStatus, ghost sight: Option<Get<Job>>)
      requires api.Valid() && !Terminal(local.phase) && Chain(api.statuses)
      requires local.senderJobUID == "" || local.senderJobUID == api.status.senderJobUID
      modifies api
      ensures api.Valid() && Plain(old(api.trace), api.trace) && (old(api.deleted) ==> api.deleted)
      ensures old(api.statuses) <= api.statuses
      ensures next == local.(senderJobName := next.senderJobName, senderJobUID := next.senderJobUID)
      ensures next.senderJobUID == "" || next.senderJobUID == api.status.senderJobUID
      ensures KnownView(api, local, old(api.status)) ==> Chain(api.statuses)
      ensures KnownView(api, local, old(api.status)) && stop.None? && sender.None? ==> api.status.senderJobUID == ""
      ensures KnownView(api, local, old(api.status)) && old(api.status).senderJobUID != "" ==>
        Follows(old(api.status).senderJobUID, uid, sight, stop, api.status)
      ensures api.status.phase == Succeeded && old(api.status).phase != Succeeded ==>
        sight.Some? && sight.value.Found? && EndedWell(sight.value.value, uid, api.status)
      ensures stop.None? && sender.Some? ==> Owned(uid, sender.value.meta)
      ensures api.world.Some? ==>
        (stop.None? && sender.None? <==> api.world.value.job.NotFound? && old(api.status).senderJobUID == "")
      ensures stop.None? && sender.None? ==> api.status == old(api.status) && next == local
      ensures stop.None? ==> SameView(api.status, old(api.status)) && SameView(next, local)
      ensures api.world.Some? && local == old(api.status) ==>
        && (stop.Some? <==> SenderIn(uid, local, api.world.value).Some?)
        && (stop.Some? ==> Lands(SenderIn(uid, local, api.world.value).value, api.status, stop.value))
        && (stop.None? ==> (sender.Some? <==> api.world.value.job.Found?))
      ensures api.world.Some? && old(api.status).senderJobUID != "" && LostIn(api.world.value, old(api.status).senderJobUID) ==>
        stop.Some? && api.status.phase == Failed
      ensures stop.Some? && stop.value.Requeue? ==> sight.Some? && sight.value.Found? && sight.value.value.meta.uid == ""
      ensures Stamped(local, old(api.status), api.status)
    {
      if api.world.Some? {
        SenderCases(uid, local, api.world.value);
      }
      hide Patches, Plain, SenderIn, SenderJobFor, FinishIn, EndedWell, Chain, Extended, Owned;
      ghost var start := api.trace;
      sight, sender, next := None, None, local;
      var observed := ObservedRunStatus(local);
      ghost var seen := api.trace;
      var d, read := SenderJobForRun(observed);
      JobCases(uid, observed, read);
      ghost var found := api.trace;
      PlainThen(start, seen, found);
      sight := Some(read);
      if d.SenderUnknown? {
        return Some(ApiError), sender, next, sight;
      }
      if d.SenderRefused? {
        ghost var statuses, status := api.statuses, api.status;
        var o := FailRunObject(local, d.reason);
        PlainThen(start, found, api.trace);
        ChainExtended(statuses, api.statuses, status, api.status);
        return Some(o), sender, next, sight;
      }
      if d.NoSender? {
        return None, sender, next, sight;
      }
      if d.job.meta.uid == "" {
        return Some(Requeue(SECOND)), sender, next, sight;
      }
      stop, next := BindAndFinish(local, observed, d.job);
      PlainThen(start, found, api.trace);
      sender := if stop.None? then Some(d.job) else None;
    }

    method MarkRunning(local: RunStatus, delay: int) returns (o: Outcome)
      requires api.Valid() && !Terminal(local.phase)
      modifies api
      ensures api.Valid() && Plain(old(api.trace), api.trace) && (old(api.deleted) ==> api.deleted)
      ensures api.status.senderJobUID == old(api.status).senderJobUID
      ensures api.status.phase == Succeeded ==> old(api.status).phase == Succeeded
      ensures Extended(old(api.statuses), api.statuses, api.status)
      ensures o == ApiError || o == Requeue(if delay == 0 then 5 * SECOND else delay)
      ensures o.Requeue? ==> api.status.phase == Running || local.phase == Running
      ensures api.world.Some? && SameView(local, old(api.status)) ==>
        Lands(Move(Running, local.lastError, Requeue(if delay == 0 then 5 * SECOND else delay)), api.status, o)
      ensures Stamped(local, old(api.status), api.status)
    {
      hide Patches, Plain;
      NothingHappened(api.trace);
      ghost var start := api.trace;
      var now: int := *;
      var ok := api.PatchRunStatus(local, Initialized(local.(phase := Running), now));
      PatchIsPlain(start, api.status);
      o := if ok then Requeue(if delay == 0 then 5 * SECOND else delay) else ApiError;
    }

    /** Children, then the sender gate, for a run that has no sender Job yet. */
    method StartSender(local: RunStatus, delay: int)
      returns (o: Outcome, created: bool, ghost gate: Option<Evidence>, ghost before: seq<Event>)
      requires api.Valid() && !Terminal(local.phase) && delay >= 0
      modifies api
      ensures api.Valid() && (old(api.deleted) ==> api.deleted)
      ensures api.status.senderJobUID == old(api.status).senderJobUID
      ensures api.status.phase == Succeeded ==> old(api.status).phase == Succeeded
      ensures old(api.statuses) <= api.statuses && SameUID(old(api.statuses), api.statuses, api.status)
      ensures Gated(old(api.trace), api.trace, before, gate, uid, line)
      ensures o.Requeue? && created ==> o.after == CHILDREN_WAIT
      ensures o.Requeue? && !created && delay > 0 ==> o.after <= delay
      ensures api.world.Some? ==> (created <==> ChildrenIn(uid, api.world.value).ChildrenCreated?)
      ensures api.world.Some? && created ==> o == Requeue(CHILDREN_WAIT)
      ensures api.world.Some? ==>
        (gate.Some? <==> ChildrenIn(uid, api.world.value).ChildrenPresent? && StartedIn(uid, api.world.value, line))
      ensures gate.Some? && local == old(api.status) ==> Records(api.status, gate.value.task)
      ensures api.world.Some? && api.world.value.job.NotFound? && local == old(api.status) ==>
        Lands(StartIn(uid, line, local, api.world.value, delay), api.status, o)
      ensures Stamped(local, old(api.status), api.status)
    {
      hide Patches;
      gate, before, created := None, api.trace, false;
      ghost var start := api.trace;
      var children, secret, listed := EnsurePreSenderChildren();
      match children {
        case ChildrenError => return ApiError, created, gate, before;
        case ChildrenRefused(reason) =>
          o := FailRunObject(local, reason);
          return o, created, gate, before;
        case ChildrenCreated =>
          o := WaitForReplicationReceiver(local);
          created := true;
          return o, created, gate, before;
        case ChildrenPresent =>
      }
      o, gate, before := EnsureSenderStarted(local, start, secret, listed);
      o := WithEarlierRequeue(o, delay);
    }

    method AfterSender(local: RunStatus, sender: Option<Job>, ghost start: seq<Event>)
      returns (o: Outcome, stage: Stage, ghost gate: Option<Evidence>, ghost before: seq<Event>)
      requires api.Valid() && !Terminal(local.phase) && Plain(start, api.trace)
      modifies api
      ensures api.Valid() && (old(api.deleted) ==> api.deleted)
      ensures api.status.senderJobUID == old(api.status).senderJobUID
      ensures api.status.phase == Succeeded ==> old(api.status).phase == Succeeded
      ensures old(api.statuses) <= api.statuses && SameUID(old(api.statuses), api.statuses, api.status)
      ensures Gated(start, api.trace, before, gate, uid, line)
      ensures gate.Some? ==> sender.None?
      ensures WaitsFor(stage, o) && !stage.BeforeLease?
      ensures api.world.Some? && sender.None? && LiveTaskIn(uid, api.world.value, old(api.status)) ==>
        && stage == AtLease(api.world.value.task.value, api.world.value.now, ChildrenIn(uid, api.world.value).ChildrenCreated?)
        && (stage.created ==> o == Requeue(CHILDREN_WAIT))
      ensures api.world.Some? ==>
        (gate.Some? <==> sender.None? && SendsIn(uid, api.world.value, line, old(api.status)))
      ensures gate.Some? && local == old(api.status) ==> Records(api.status, gate.value.task)
      ensures api.world.Some? && SameView(local, old(api.status))
              && (sender.None? ==> local == old(api.status) && api.world.value.job.NotFound?) ==>
        Lands(LeasedIn(uid, line, local, api.world.value, sender.Some?), api.status, o)
      ensures Stamped(local, old(api.status), api.status)
    {
      hide Patches, Gated, Within, Shows, TaskRenewals, StartedIn, ChildrenIn, LeaseIn, Plain;
      gate, before, stage := None, api.trace, NoLease;
      ghost var arrived := api.trace;
      var lease, seen := ReconcileRunReceiveTaskLease(local);
      PlainThen(start, arrived, api.trace);
      if seen.Some? {
        stage := AtLease(seen.value.0, seen.value.1, false);
      }
      ghost var leased := api.trace;
      if api.world.Some? {
        LeaseByPhase(uid, api.world.value, local, api.status);
        LiveIsDelay(uid, api.world.value, api.status);
      }
      if lease.LeaseError? {
        NothingGated(start, leased, before, uid, line);
        return ApiError, stage, gate, before;
      }
      if lease.LeaseMessage? {
        o := FailRunObject(local, lease.reason);
        PlainThen(start, leased, api.trace);
        NothingGated(start, api.trace, before, uid, line);
        return o, stage, gate, before;
      }
      if sender.Some? {
        o := MarkRunning(local, lease.delay);
        PlainThen(start, leased, api.trace);
        NothingGated(start, api.trace, before, uid, line);
        return o, stage, gate, before;
      }
      var created;
      o, created, gate, before := StartSender(local, lease.delay);
      if seen.Some? {
        stage := AtLease(seen.value.0, seen.value.1, created);
      }
      GatedEarlier(start, leased, api.trace, before, gate, uid, line);
    }

    /** What follows once the destination is free. */
    method Proceed(local: RunStatus)
      returns (o: Outcome, stage: Stage, ghost gate: Option<Evidence>, ghost before: seq<Event>, ghost sight: Option<Get<Job>>)
      requires api.Valid() && !Terminal(local.phase) && Chain(api.statuses)
      requires local.senderJobUID == "" || local.senderJobUID == api.status.senderJobUID
      modifies api
      ensures api.Valid() && (old(api.deleted) ==> api.deleted) && old(api.statuses) <= api.statuses
      ensures Gated(old(api.trace), api.trace, before, gate, uid, line)
      ensures WaitsFor(stage, o)
      ensures o.Requeue? && stage.BeforeLease? ==> sight.Some? && sight.value.Found? && sight.value.value.meta.uid == ""
      ensures api.world.Some? && CreatesIn(uid, api.world.value, old(api.status)) ==>
        o == Requeue(CHILDREN_WAIT) && stage == AtLease(api.world.value.task.value, api.world.value.now, true)
      ensures KnownView(api, local, old(api.status)) ==> Chain(api.statuses)
      ensures KnownView(api, local, old(api.status)) && gate.Some? ==>
        old(api.status).senderJobUID == "" && api.status.senderJobUID == ""
      ensures KnownView(api, local, old(api.status)) && old(api.status).senderJobUID != "" ==>
        Kept(old(api.status).senderJobUID, sight, o, api.status)
      ensures api.status.phase == Succeeded && old(api.status).phase != Succeeded ==>
        sight.Some? && sight.value.Found? && EndedWell(sight.value.value, uid, api.status)
      ensures api.world.Some? ==>
        (gate.Some? <==> old(api.status).senderJobUID == "" && SendsIn(uid, api.world.value, line, old(api.status)))
      ensures api.world.Some? && old(api.status).senderJobUID != "" && LostIn(api.world.value, old(api.status).senderJobUID) ==>
        api.status.phase == Failed
      ensures gate.Some? && local == old(api.status) ==> Records(api.status, gate.value.task)
      ensures api.world.Some? && local == old(api.status) ==>
        Lands(MoveIn(uid, line, local, api.world.value), api.status, o)
      ensures Stamped(local, old(api.status), api.status)
    {
      hide Patches, SenderIn, LeasedIn;
      gate, before, stage := None, api.trace, BeforeLease;
      ghost var start := api.trace;
      var stop, sender, next;
      stop, sender, next, sight := ResolveSender(local);
      if stop.Some? {
        return stop.value, stage, gate, before, sight;
      }
      hide Gated, Within, EndedWell;
      if api.world.Some? {
        SameLeased(uid, line, local, next, api.world.value);
      }
      o, stage, gate, before := AfterSender(next, sender, start);
    }

    /** An invalid run fails at once, and a run behind the destination lock waits. */
    method PatchPhase(local: RunStatus, phase: Phase, reason: Reason) returns (o: Outcome)
      requires api.Valid() && (phase == Pending || phase == Failed)
      modifies api
      ensures api.Valid() && Plain(old(api.trace), api.trace) && (old(api.deleted) ==> api.deleted)
      ensures api.status.senderJobUID == old(api.status).senderJobUID
      ensures api.status.phase == Succeeded ==> old(api.status).phase == Succeeded
      ensures Extended(old(api.statuses), api.statuses, api.status)
      ensures o == ApiError || o == if phase == Pending then Requeue(5 * SECOND) else Done
      ensures api.world.Some? ==> o != ApiError
      ensures o != ApiError && local == old(api.status) ==> api.status.phase == phase && api.status.lastError == reason
      ensures Stamped(local, old(api.status), api.status)
    {
      hide Patches;
      var observed := ObservedRunStatus(local);
      var now: int := *;
      var mutated := Initialized(local.(phase := phase, lastError := reason), now);
      if phase == Failed {
        mutated := mutated.(completedAt := Some(now), senderJobName := local.senderJobName);
      }
      var ok := api.PatchRunStatus(local, mutated);
      o := if !ok then ApiError else if phase == Pending then Requeue(5 * SECOND) else Done;
    }

    /** Whether the destination is someone else's for now; None when the list could not be read. */
    method DestinationFree(local: RunStatus) returns (blocker: Option<Option<Run>>)
      requires api.Valid()
      modifies api
      ensures api.Valid() && Plain(old(api.trace), api.trace) && api.deleted == old(api.deleted)
      ensures api.status == old(api.status) && api.statuses == old(api.statuses)
      ensures api.world.Some? ==> blocker.None? == api.world.value.runs.None?
      ensures api.world.Some? && blocker.Some? ==> (blocker.value.None? <==> FreeIn(api.world.value.runs.value, self.(phase := local.phase)))
      ensures api.world.Some? && blocker.Some? && blocker.value.Some? ==>
        blocker.value.value in api.world.value.runs.value && Blocks(blocker.value.value, self.(phase := local.phase))
    {
      hide Patches, Plain, Blocks;
      ghost var start := api.trace;
      var runs := api.ListRuns();
      if runs.None? {
        NothingHappened(start);
        assert api.trace == start;
        return None;
      }
      ListingIsPlain(start, runs.value);
      var found := DestinationLocked(self.(phase := local.phase), runs.value);
      return Some(found);
    }

    /** Someone else's active run has the destination: the run waits, and says for which. */
    predicate WaitsIn(local: RunStatus, runs: seq<Run>, now: RunStatus, o: Outcome) {
      && now.phase == Pending && o == Requeue(5 * SECOND)
      && exists other :: other in runs && Blocks(other, self.(phase := local.phase)) && now.lastError == WaitingFor(other.name)
    }

    /** Where a reconcile from a current view leaves the run, by what the store holds. */
    ghost predicate Ruled(was: RunStatus, w: World, now: RunStatus, o: Outcome) {
      if Terminal(was.phase) then now == was && o == Tidied(w)
      else if !valid then Lands(Move(Failed, SpecInvalid, Done), now, o)
      else if w.runs.None? then now == was && o == ApiError
      else if !FreeIn(w.runs.value, self.(phase := was.phase)) then WaitsIn(was, w.runs.value, now, o)
      else Lands(MoveIn(uid, line, was, w), now, o)
    }

    /** An ended run's task is marked as the run ended, and its Secret is deleted. */
    ghost predicate CleansUp(was: RunStatus, w: World, t: seq<Event>, u: seq<Event>) {
      && (was.phase == Succeeded && MarksIn(uid, w, TaskCompleted, wording(was.lastError)) ==>
            Happened(t, u, TaskMarked(TaskCompleted, wording(was.lastError))))
      && (was.phase == Failed && MarksIn(uid, w, TaskFailed, wording(was.lastError)) ==>
            Happened(t, u, TaskMarked(TaskFailed, wording(was.lastError))))
      && (DeletesIn(uid, w) ==> Happened(t, u, SecretDeleted))
    }

    /** One reconcile, from any view of the run the cache may still hold. */
    method Reconcile(local: RunStatus)
      returns (o: Outcome, stage: Stage, ghost gate: Option<Evidence>, ghost before: seq<Event>, ghost sight: Option<Get<Job>>)
      requires api.Valid() && Chain(api.statuses) && local in api.statuses
      modifies api
      ensures api.Valid() && (old(api.deleted) ==> api.deleted) && old(api.statuses) <= api.statuses
      ensures Gated(old(api.trace), api.trace, before, gate, uid, line)
      ensures WaitsFor(stage, o)
      ensures o.Requeue? && stage.BeforeLease? ==>
        sight.None? || (sight.value.Found? && sight.value.value.meta.uid == "")
      ensures api.world.Some? && CreatesIn(uid, api.world.value, old(api.status)) ==>
        (!Terminal(local.phase) && valid
         && api.world.value.runs.Some? && FreeIn(api.world.value.runs.value, self.(phase := local.phase)) ==>
           o == Requeue(CHILDREN_WAIT) && stage == AtLease(api.world.value.task.value, api.world.value.now, true))
      ensures KnownView(api, local, old(api.status)) ==> Chain(api.statuses)
      ensures KnownView(api, local, old(api.status)) && gate.Some? ==>
        old(api.status).senderJobUID == "" && api.status.senderJobUID == ""
      ensures KnownView(api, local, old(api.status)) && old(api.status).senderJobUID != "" ==>
        Kept(old(api.status).senderJobUID, sight, o, api.status)
      ensures api.status.phase == Succeeded && old(api.status).phase != Succeeded ==>
        sight.Some? && sight.value.Found? && EndedWell(sight.value.value, uid, api.status)
      ensures api.world.Some? ==>
        (gate.Some? <==>
           && !Terminal(local.phase) && valid
           && api.world.value.runs.Some? && FreeIn(api.world.value.runs.value, self.(phase := local.phase))
           && old(api.status).senderJobUID == ""
           && SendsIn(uid, api.world.value, line, old(api.status)))
      ensures api.world.Some? && old(api.status).senderJobUID != "" && LostIn(api.world.value, old(api.status).senderJobUID) ==>
        (!Terminal(local.phase) && valid
         && api.world.value.runs.Some? && FreeIn(api.world.value.runs.value, self.(phase := local.phase)) ==>
           api.status.phase == Failed)
      ensures gate.Some? && local == old(api.status) ==> Records(api.status, gate.value.task)
      ensures api.world.Some? && local == old(api.status) ==> Ruled(local, api.world.value, api.status, o)
      ensures api.world.Some? && Terminal(local.phase) ==> CleansUp(local, api.world.value, old(api.trace), api.trace)
      ensures Stamped(local, old(api.status), api.status)
    {
      hide MoveIn;
      hide Patches, Gated, Within, Plain, SendsIn, CreatesIn, FreeIn, EndedWell, LostIn, Blocks, ShortCut, Live, Delay;
      gate, before, sight, stage := None, api.trace, None, BeforeLease;
      ghost var start := api.trace;
      NothingHappened(start);
      NothingGated(start, api.trace, before, uid, line);
      ViewOfChain(api.statuses, local);
      if Terminal(local.phase) {
        o := FinishTerminal(if local.phase == Succeeded then TaskCompleted else TaskFailed, wording(local.lastError));
        NothingGated(start, api.trace, before, uid, line);
        return o, stage, gate, before, sight;
      }
      if !valid {
        o := PatchPhase(local, Failed, SpecInvalid);
        NothingGated(start, api.trace, before, uid, line);
        return o, stage, gate, before, sight;
      }
      var blocker := DestinationFree(local);
      ghost var free := api.trace;
      NothingGated(start, api.trace, before, uid, line);
      if blocker.None? {
        return ApiError, stage, gate, before, sight;
      }
      if blocker.value.Some? {
        o := PatchPhase(local, Pending, WaitingFor(blocker.value.value.name));
        PlainThen(start, free, api.trace);
        NothingGated(start, api.trace, before, uid, line);
        return o, stage, gate, before, sight;
      }
      o, stage, gate, before, sight := Proceed(local);
      GatedEarlier(start, free, api.trace, before, gate, uid, line);
    }
  }

  // ----- All reconciles of one run -----

  /** Once some status records a sender Job UID, no Job is asked for any more and every later status records that UID. */
  ghost predicate Lawful(trace: seq<Event>) {
    forall i, j | 0 <= i < j < |trace| && trace[i].RunPatched? && trace[i].status.senderJobUID != "" ::
      && !trace[j].JobRequested?
      && (trace[j].RunPatched? ==> trace[j].status.senderJobUID == trace[i].status.senderJobUID)
  }

  /** The status last written, or the initial one. */
  ghost function Latest(trace: seq<Event>, initial: RunStatus): (status: RunStatus)
  {
    var written := Patches(trace);
    if written == [] then initial else written[|written| - 1]
  }

  /** Every Job was asked for while no UID was recorded. */
  ghost predicate AskedInTime(trace: seq<Event>, initial: RunStatus) {
    forall k :: 0 <= k < |trace| && trace[k].JobRequested? ==> Latest(trace[..k], initial).senderJobUID == ""
  }

  lemma {:induction false} RecordedStays(trace: seq<Event>, initial: RunStatus, i: nat)
    requires i < |trace| && trace[i].RunPatched? && trace[i].status.senderJobUID != ""
    requires Chain([initial] + Patches(trace))
    ensures Latest(trace, initial).senderJobUID == trace[i].status.senderJobUID
    decreases |trace|
  {
    var n := |trace| - 1;
    var earlier, last := trace[..n], trace[n];
    assert trace == earlier + [last];
    PatchesSnoc(earlier, last);
    var all, before := [initial] + Patches(trace), [initial] + Patches(earlier);
    assert before <= all;
    if i < n {
      assert Chain(before);
      RecordedStays(earlier, initial, i);
      if last.RunPatched? {
        assert all[|all| - 1] == last.status && all[|all| - 2] == before[|before| - 1];
      }
    } else {
      assert all[|all| - 1] == last.status;
    }
  }

  lemma ChainPrefix(a: seq<RunStatus>, b: seq<RunStatus>)
    requires a <= b && Chain(b)
    ensures Chain(a)
  {
    forall k | 0 < k < |a| ensures a[k - 1].senderJobUID == "" || a[k].senderJobUID == a[k - 1].senderJobUID {
      assert a[k] == b[k] && a[k - 1] == b[k - 1];
    }
  }

  lemma {:induction false} PrefixOfPatches(trace: seq<Event>, k: nat)
    requires k <= |trace|
    ensures Patches(trace[..k]) <= Patches(trace)
    decreases |trace| - k
  {
    if k < |trace| {
      PrefixOfPatches(trace, k + 1);
      assert trace[..k + 1] == trace[..k] + [trace[k]];
      PatchesSnoc(trace[..k], trace[k]);
    } else {
      assert trace[..k] == trace;
    }
  }

  lemma RecordedBefore(trace: seq<Event>, initial: RunStatus, i: nat, j: nat)
    requires i < j <= |trace| && trace[i].RunPatched? && trace[i].status.senderJobUID != ""
    requires Chain([initial] + Patches(trace))
    ensures Latest(trace[..j], initial).senderJobUID == trace[i].status.senderJobUID
  {
    hide Chain, Patches, Latest;
    PrefixOfPatches(trace, j);
    ChainPrefix([initial] + Patches(trace[..j]), [initial] + Patches(trace));
    RecordedStays(trace[..j], initial, i);
  }

  lemma LatestSnoc(trace: seq<Event>, initial: RunStatus, j: nat)
    requires j < |trace| && trace[j].RunPatched?
    ensures Latest(trace[..j + 1], initial) == trace[j].status
  {
    assert trace[..j + 1] == trace[..j] + [trace[j]];
    PatchesSnoc(trace[..j], trace[j]);
  }

  lemma ChainIsLawful(trace: seq<Event>, initial: RunStatus)
    requires Chain([initial] + Patches(trace)) && AskedInTime(trace, initial)
    ensures Lawful(trace)
  {
    hide Chain;
    forall i, j | 0 <= i < j < |trace| && trace[i].RunPatched? && trace[i].status.senderJobUID != ""
      ensures !trace[j].JobRequested?
      ensures trace[j].RunPatched? ==> trace[j].status.senderJobUID == trace[i].status.senderJobUID
    {
      RecordedBefore(trace, initial, i, j);
      RecordedBefore(trace, initial, i, j + 1);
      if trace[j].RunPatched? {
        LatestSnoc(trace, initial, j);
      }
    }
  }

  lemma AskedStill(t: seq<Event>, u: seq<Event>, before: seq<Event>, gate: Option<Evidence>, uid: string, line: HostLine,
                   initial: RunStatus, status: RunStatus)
    requires AskedInTime(t, initial) && Gated(t, u, before, gate, uid, line)
    requires Latest(u, initial) == status && (gate.Some? ==> status.senderJobUID == "")
    ensures AskedInTime(u, initial)
  {
    forall k | 0 <= k < |u| && u[k].JobRequested? ensures Latest(u[..k], initial).senderJobUID == "" {
      if k < |t| {
        assert u[..k] == t[..k];
      } else {
        assert u[..k] == before && u == before + [u[k]];
        PatchesSnoc(before, u[k]);
      }
    }
  }

  /** Any number of reconciles, each from any view the cache may hold, with the fresh reads of the run succeeding. */
  method ReconcileAll(r: Reconciler, n: nat) returns (outcomes: seq<Outcome>)
    requires r.api.Valid() && r.api.reliable && r.api.trace == [] && |r.api.statuses| == 1
    modifies r.api
    ensures !r.api.deleted ==> |outcomes| == n && Lawful(r.api.trace)
  {
    outcomes := [];
    ghost var initial := r.api.status;
    for i := 0 to n
      invariant r.api.Valid() && r.api.statuses[0] == initial && |outcomes| == i
      invariant !r.api.deleted ==> Chain(r.api.statuses) && AskedInTime(r.api.trace, initial)
    {
      if r.api.deleted {
        return;
      }
      assert r.api.status in r.api.statuses;
      var local :| local in r.api.statuses;
      ghost var trace := r.api.trace;
      var o, stage, gate, before, sight := r.Reconcile(local);
      outcomes := outcomes + [o];
      if !r.api.deleted {
        AskedStill(trace, r.api.trace, before, gate, r.uid, r.line, initial, r.api.status);
      }
    }
    if !r.api.deleted {
      assert [initial] + Patches(r.api.trace) == r.api.statuses;
      ChainIsLawful(r.api.trace, initial);
    }
  }

  // ----- Exactly when the identity is safe -----

  /** Whatever Job the reconcile finds next, binding it keeps the recorded UID. */
  ghost predicate BindingKeeps(uid: string, local: RunStatus, read: Get<RunStatus>, server: RunStatus) {
    forall job: Get<Job>, now: int ::
      var observed := Observed(local, read);
      SenderJobFor(uid, observed, job).Sender? && observed.senderJobUID == "" ==>
        Merge(local, Bound(local, SenderJobFor(uid, observed, job).job.meta.uid, now), server).senderJobUID == server.senderJobUID
  }

  /** With a UID recorded, it survives every possible Job exactly when the fresh read of the run succeeded or the local
      view already carried it. A failed read with an older view lets another Job's UID overwrite it. */
  lemma IdentityKeptIff(uid: string, local: RunStatus, read: Get<RunStatus>, server: RunStatus)
    requires server.senderJobUID != "" && (local.senderJobUID == "" || local.senderJobUID == server.senderJobUID)
    requires read.Found? ==> read.value == server
    ensures BindingKeeps(uid, local, read, server) <==> read.Found? || local.senderJobUID == server.senderJobUID
  {
    if !read.Found? && local.senderJobUID == "" {
      var job := Found(Job(Meta(server.senderJobUID + "x", Some(uid), false), 0, 0));
      var observed := Observed(local, read);
      assert SenderJobFor(uid, observed, job).Sender?;
      assert server.senderJobUID + "x" != server.senderJobUID;
      assert Merge(local, Bound(local, server.senderJobUID + "x", 0), server).senderJobUID == server.senderJobUID + "x";
    }
  }
}
