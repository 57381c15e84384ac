/** What the run reconciler sees of the cluster: every read may return anything the environment has made of the store by
    then, so each answer is arbitrary, except for the run's own status, which nobody else writes. Every read and write is
    recorded in order. */
module RunApi {
  import opened Text
  import opened DestinationLock

  datatype Get<+T> = Found(value: T) | NotFound | GetFailed

  /** Identity, controlling owner and deletion mark of a child object. */
  datatype Meta = Meta(uid: string, owner: Option<string>, deleting: bool)

  datatype Secret = Secret(meta: Meta, publicKey: string, knownHosts: string)

  datatype TaskPhase = TaskUnset | TaskPending | TaskReady | TaskCompleted | TaskFailed

  predicate TaskTerminal(phase: TaskPhase) {
    phase == TaskCompleted || phase == TaskFailed
  }

  datatype Task = Task(
    meta: Meta,
    publicKey: string,
    expiresAt: int,
    phase: TaskPhase,
    error: string,
    host: string,
    port: int,
    hostKey: string,
    podName: string,
    podUID: string)

  datatype Job = Job(meta: Meta, failed: nat, succeeded: nat)

  datatype Pod = Pod(uid: string, deleting: bool, ready: bool)

  datatype Child = SecretChild | TaskChild | JobChild

  datatype Reason =
    | NoReason
    | SpecInvalid
    | WaitingFor(name: string)
    | JobMissing
    | JobReplaced
    | NotControlled(child: Child)
    | BeingDeleted(child: Child)
    | SecretMissing
    | PublicKeyMissing
    | PublicKeyMismatch
    | TaskReported(error: string)
    | TaskIsTerminal
    | LeaseHasExpired
    | TaskWithoutUID
    | NoEndpointHost
    | NoEndpointPort
    | NoHostKey
    | NoPodName
    | NoPodUID
    | SenderFailed(message: string)

  datatype RunStatus = RunStatus(
    phase: Phase,
    receiverPodName: string,
    receiverPodIP: string,
    senderJobName: bool,
    senderJobUID: string,
    startedAt: Option<int>,
    completedAt: Option<int>,
    lastError: Reason)

  datatype Event =
    | ListedRuns(runs: seq<Run>)
    | FreshRun(run: Get<RunStatus>)
    | CachedSecret(secret: Get<Secret>)
    | CachedTask(task: Get<Task>)
    | FreshTask(task: Get<Task>)
    | CachedJob(job: Get<Job>)
    | FreshPod(name: string, pod: Get<Pod>)
    | Clock(now: int)
    | SecretCreated
    | SecretUpdated(knownHosts: string)
    | SecretDeleted
    | TaskCreated(publicKey: string, expiresAt: int)
    | TaskRenewed(expiresAt: int)
    | TaskMarked(phase: TaskPhase, message: string)
    | RunPatched(status: RunStatus)
    | JobRequested(host: string, port: int)

  /** A merge patch carries the fields in which `mutated` differs from the local copy, and only those. */
  function Merge(local: RunStatus, mutated: RunStatus, server: RunStatus): (merged: RunStatus) {
    RunStatus(
      if mutated.phase != local.phase then mutated.phase else server.phase,
      if mutated.receiverPodName != local.receiverPodName then mutated.receiverPodName else server.receiverPodName,
      if mutated.receiverPodIP != local.receiverPodIP then mutated.receiverPodIP else server.receiverPodIP,
      if mutated.senderJobName != local.senderJobName then mutated.senderJobName else server.senderJobName,
      if mutated.senderJobUID != local.senderJobUID then mutated.senderJobUID else server.senderJobUID,
      if mutated.startedAt != local.startedAt then mutated.startedAt else server.startedAt,
      if mutated.completedAt != local.completedAt then mutated.completedAt else server.completedAt,
      if mutated.lastError != local.lastError then mutated.lastError else server.lastError)
  }

  /** The statuses a trace wrote, in order. */
  ghost function Patches(trace: seq<Event>): (statuses: seq<RunStatus>) {
    if trace == [] then []
    else
      var earlier, last := Patches(trace[..|trace| - 1]), trace[|trace| - 1];
      if last.RunPatched? then earlier + [last.status] else earlier
  }

  lemma PatchesSnoc(trace: seq<Event>, e: Event)
    ensures Patches(trace + [e]) == if e.RunPatched? then Patches(trace) + [e.status] else Patches(trace)
  {
    assert (trace + [e])[..|trace|] == trace;
  }

  /** A store at rest: every read finds this, in the cache or past it, and every write succeeds. `failure` is what the
      failed sender's Pods and conditions say, if that can be read. */
  datatype World = World(
    secret: Get<Secret>,
    cachedTask: Get<Task>,
    task: Get<Task>,
    job: Get<Job>,
    failure: Option<string>,
    pods: string -> Get<Pod>,
    runs: Option<seq<Run>>,
    now: int)

  class Api {
    /** The run's status on the server. */
    var status: RunStatus
    var deleted: bool
    /** Whether fresh reads of the run never fail. */
    const reliable: bool
    /** The store when it is at rest; none when the environment may do as it likes. */
    const world: Option<World>
    /** Every status the server has held, oldest first. */
    var statuses: seq<RunStatus>
    ghost var trace: seq<Event>

    ghost predicate Valid()
      reads this
    {
      && statuses != [] && statuses[|statuses| - 1] == status
      && Patches(trace) == statuses[1..]
      && (world.Some? ==> reliable && !deleted)
    }

    constructor (reliable: bool, world: Option<World>, initial: RunStatus)
      requires world.Some? ==> reliable
      ensures Valid() && status == initial && statuses == [initial] && trace == [] && !deleted
      ensures this.reliable == reliable && this.world == world
    {
      this.reliable, this.world := reliable, world;
      status, statuses, deleted, trace := initial, [initial], false, [];
    }

    method Note(ghost e: Event)
      requires Valid()
      requires !e.RunPatched?
      modifies this`trace
      ensures Valid() && trace == old(trace) + [e]
    {
      PatchesSnoc(trace, e);
      trace := trace + [e];
    }

    /** A read past the cache: the server's own status, if the run still exists and the read succeeds. */
    method ReadFreshRun() returns (r: Get<RunStatus>)
      requires Valid()
      modifies this`trace, this`deleted
      ensures Valid() && trace == old(trace) + [FreshRun(r)]
      ensures r.Found? ==> r.value == status
      ensures r.GetFailed? ==> !reliable
      ensures r.NotFound? <==> !r.GetFailed? && deleted
      ensures old(deleted) ==> deleted
    {
      var gone: bool := *;
      if gone && world.None? {
        deleted := true;
      }
      var failing: bool := *;
      r := if failing && !reliable then GetFailed else if deleted then NotFound else Found(status);
      Note(FreshRun(r));
    }

    method ListRuns() returns (r: Option<seq<Run>>)
      requires Valid()
      modifies this`trace
      ensures Valid() && trace == old(trace) + if r.Some? then [ListedRuns(r.value)] else []
      ensures world.Some? ==> r == world.value.runs
    {
      r := *;
      if world.Some? {
        r := world.value.runs;
      }
      if r.Some? {
        Note(ListedRuns(r.value));
      }
    }

    method ReadSecret() returns (r: Get<Secret>)
      requires Valid()
      modifies this`trace
      ensures Valid() && trace == old(trace) + [CachedSecret(r)]
      ensures world.Some? ==> r == world.value.secret
    {
      r := *;
      if world.Some? {
        r := world.value.secret;
      }
      Note(CachedSecret(r));
    }

    method ReadTask() returns (r: Get<Task>)
      requires Valid()
      modifies this`trace
      ensures Valid() && trace == old(trace) + [CachedTask(r)]
      ensures world.Some? ==> r == world.value.cachedTask
    {
      r := *;
      if world.Some? {
        r := world.value.cachedTask;
      }
      Note(CachedTask(r));
    }

    method ReadFreshTask() returns (r: Get<Task>)
      requires Valid()
      modifies this`trace
      ensures Valid() && trace == old(trace) + [FreshTask(r)]
      ensures world.Some? ==> r == world.value.task
    {
      r := *;
      if world.Some? {
        r := world.value.task;
      }
      Note(FreshTask(r));
    }

    method ReadJob() returns (r: Get<Job>)
      requires Valid()
      modifies this`trace
      ensures Valid() && trace == old(trace) + [CachedJob(r)]
      ensures world.Some? ==> r == world.value.job
    {
      r := *;
      if world.Some? {
        r := world.value.job;
      }
      Note(CachedJob(r));
    }

    method ReadFreshPod(name: string) returns (r: Get<Pod>)
      requires Valid()
      modifies this`trace
      ensures Valid() && trace == old(trace) + [FreshPod(name, r)]
      ensures world.Some? ==> r == world.value.pods(name)
    {
      r := *;
      if world.Some? {
        r := world.value.pods(name);
      }
      Note(FreshPod(name, r));
    }

    method Now() returns (now: int)
      requires Valid()
      modifies this`trace
      ensures Valid() && trace == old(trace) + [Clock(now)]
      ensures world.Some? ==> now == world.value.now
    {
      now := *;
      if world.Some? {
        now := world.value.now;
      }
      Note(Clock(now));
    }

    /** A write of a child object: recorded whether or not it succeeds. */
    method Write(ghost e: Event) returns (ok: bool)
      requires Valid() && !e.RunPatched?
      modifies this`trace
      ensures Valid() && trace == old(trace) + [e]
      ensures world.Some? ==> ok
    {
      ok := *;
      ok := ok || world.Some?;
      Note(e);
    }

    method PatchRunStatus(local: RunStatus, mutated: RunStatus) returns (ok: bool)
      requires Valid()
      modifies this
      ensures Valid() && deleted == old(deleted)
      ensures ok ==> status == Merge(local, mutated, old(status)) && statuses == old(statuses) + [status]
      ensures ok ==> trace == old(trace) + [RunPatched(status)]
      ensures !ok ==> status == old(status) && statuses == old(statuses) && trace == old(trace)
      ensures world.Some? ==> ok
    {
      hide Patches, Merge;
      ok := *;
      ok := ok || world.Some?;
      if !ok || deleted {
        return false;
      }
      status := Merge(local, mutated, status);
      PatchesSnoc(trace, RunPatched(status));
      statuses := statuses + [status];
      trace := trace + [RunPatched(status)];
    }
  }
}
