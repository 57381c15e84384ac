/** The authorization lease over time: renewal by the controller, and what the receiver makes of the expiry it finds
    (internal/controller/zfsreplication_run_controller.go, internal/receiverauthorization/grant.go). */
module LeaseTiming {
  import opened Text
  import opened Datasets
  import opened Compression
  import opened DestinationLock
  import opened RunApi
  import opened RunReconciler
  import SyncoidContract
  import Grants

  // ----- One renewal -----

  /** A lease is held or renewed exactly while it is live; a renewal moves the expiry strictly forward, a refusal and a
      hold leave it alone. */
  lemma RenewalMovesForward(task: Task, now: int)
    ensures Lease(task, now).LeaseRefused? <==> !Live(task, now)
    ensures Lease(task, now).LeaseRenewed? <==> Live(task, now) && task.expiresAt <= now + 10 * MINUTE
    ensures Lease(task, now).LeaseRenewed? ==> After(task, now).expiresAt == now + 30 * MINUTE
    ensures Lease(task, now).LeaseRenewed? ==> After(task, now).expiresAt > task.expiresAt
    ensures !Lease(task, now).LeaseRenewed? ==> After(task, now) == task
    ensures Live(task, now) ==> Delay(task, now) > 0 && Delay(task, now) == After(task, now).expiresAt - now - 10 * MINUTE
  {
  }

  /** The lease outlives the next reconcile exactly when that reconcile comes less than ten minutes after the instant the
      lease called for. */
  lemma OutlivesIff(task: Task, now: int, next: int)
    requires Live(task, now)
    ensures Live(After(task, now), next) <==> next - (now + Delay(task, now)) < 10 * MINUTE
  {
  }

  // ----- What reconciles ask for -----

  /** One reconcile that reached the lease: the task and the clock it read, whether it then created children, and what it
      returned. */
  datatype Round = Round(task: Task, now: int, created: bool, o: Outcome)

  /** What `Reconciler.Reconcile` guarantees of every such reconcile. */
  predicate Honest(r: Round) {
    WaitsFor(AtLease(r.task, r.now, r.created), r.o)
  }

  /** A reconcile comes "in time" when it is less than ten minutes later than was asked for. */
  predicate InTime(r: Round, next: int) {
    r.o.Requeue? && r.now <= next < r.now + r.o.after + AUTHORIZATION_RENEW_LEAD
  }

  /** Every reconcile in time finds the lease live, exactly when this one did not take the branch that creates children
      with less than five seconds of the lease's own delay left. */
  lemma InTimeIsLiveIff(r: Round)
    requires Honest(r) && r.o.Requeue?
    ensures (forall next :: InTime(r, next) ==> Live(After(r.task, r.now), next)) <==> !ShortCut(r.task, r.now, r.created)
  {
    var limit := r.now + Delay(r.task, r.now) + AUTHORIZATION_RENEW_LEAD;
    RenewalMovesForward(r.task, r.now);
    forall next ensures Live(After(r.task, r.now), next) <==> next < limit {
      OutlivesIff(r.task, r.now, next);
    }
    hide ShortCut, Delay, After, Live;
    if ShortCut(r.task, r.now, r.created) {
      assert InTime(r, limit);
    }
  }

  /** The next reconcile comes in time and finds the lease as this one left it, on a task that has not ended. */
  predicate Follows(a: Round, b: Round) {
    && InTime(a, b.now) && !ShortCut(a.task, a.now, a.created)
    && b.task.expiresAt == After(a.task, a.now).expiresAt && !TaskTerminal(b.task.phase)
  }

  predicate Consecutive(rounds: seq<Round>) {
    forall i :: 0 <= i < |rounds| - 1 ==> Follows(rounds[i], rounds[i + 1])
  }

  predicate LiveThroughout(rounds: seq<Round>) {
    && (forall i :: 0 <= i < |rounds| ==> Live(rounds[i].task, rounds[i].now))
    && forall i :: 0 <= i < |rounds| - 1 ==> rounds[i].task.expiresAt <= rounds[i + 1].task.expiresAt
  }

  lemma StillLive(a: Round, b: Round)
    requires Honest(a) && Follows(a, b)
    ensures Live(b.task, b.now) && a.task.expiresAt <= b.task.expiresAt
  {
    InTimeIsLiveIff(a);
    RenewalMovesForward(a.task, a.now);
    assert Live(After(a.task, a.now), b.now);
  }

  /** Over any run of reconciles, each in time and none taking that branch: a lease live at the first is live at every one,
      the last included, and its expiry never goes back. */
  lemma {:induction false} LeaseNeverLapses(rounds: seq<Round>)
    requires (forall r :: r in rounds ==> Honest(r)) && Consecutive(rounds)
    requires rounds != [] ==> Live(rounds[0].task, rounds[0].now)
    ensures LiveThroughout(rounds)
    decreases |rounds|
  {
    if |rounds| > 1 {
      var n := |rounds| - 1;
      var a, b := rounds[n - 1], rounds[n];
      assert Consecutive(rounds[..n]);
      LeaseNeverLapses(rounds[..n]);
      assert a in rounds && Follows(a, b);
      assert Live(rounds[..n][n - 1].task, rounds[..n][n - 1].now);
      StillLive(a, b);
      hide Live, Follows, Honest;
      forall i | 0 <= i < n - 1 ensures rounds[i].task.expiresAt <= rounds[i + 1].task.expiresAt {
        assert rounds[..n][i] == rounds[i] && rounds[..n][i + 1] == rounds[i + 1];
      }
    }
  }

  lemma HonestRound(r: Round)
    ensures WaitsFor(AtLease(r.task, r.now, r.created), r.o) <==> Honest(r)
  {
  }

  /** The rounds of actual reconciles: any number of them, each from any view the cache may hold, until one stops short of
      the lease or does not ask to come back. */
  method ReconcileRounds(r: Reconciler, n: nat) returns (rounds: seq<Round>)
    requires r.api.Valid() && r.api.reliable && !r.api.deleted && Chain(r.api.statuses)
    modifies r.api
    ensures |rounds| <= n && forall x :: x in rounds ==> Honest(x)
    ensures Consecutive(rounds) && (rounds != [] ==> Live(rounds[0].task, rounds[0].now)) ==> LiveThroughout(rounds)
  {
    hide Honest, Live, Consecutive, LiveThroughout, WaitsFor, Chain, Gated;
    rounds := [];
    for i := 0 to n
      invariant |rounds| <= i && forall x :: x in rounds ==> Honest(x)
      invariant r.api.Valid() && !r.api.deleted && Chain(r.api.statuses)
    {
      assert r.api.status in r.api.statuses;
      var local :| local in r.api.statuses;
      var o, stage, gate, before, sight := r.Reconcile(local);
      if stage.AtLease? {
        var round := Round(stage.task, stage.now, stage.created, o);
        HonestRound(round);
        rounds := rounds + [round];
      }
      if r.api.deleted || !stage.AtLease? || !o.Requeue? {
        break;
      }
    }
    if Consecutive(rounds) && (rounds != [] ==> Live(rounds[0].task, rounds[0].now)) {
      LeaseNeverLapses(rounds);
    }
  }

  // ----- The branch that waits too long -----

  const WITNESS_TASK := Task(Meta("t", Some("u"), false), "key", 10 * MINUTE + 2 * SECOND, TaskUnset, "", "", 0, "", "", "")

  /** The cache does not show the task yet; creating it again answers that it exists; and 10 minutes 2 seconds are left. */
  const WITNESS_WORLD := World(
    Found(Secret(Meta("s", Some("u"), false), "key", "")), NotFound, Found(WITNESS_TASK), NotFound,
    None, (name: string) => NotFound, Some([]), 0)

  const FRESH_STATUS := RunStatus(Unset, "", "", false, "", None, None, NoReason)

  lemma WitnessTakesTheBranch()
    ensures CreatesIn("u", WITNESS_WORLD, FRESH_STATUS)
    ensures Delay(WITNESS_TASK, 0) == 2 * SECOND && Live(WITNESS_TASK, 0)
  {
  }

  /** A reconcile in that store asks to come back in five seconds; one that comes 9 minutes 59 seconds later than that finds
      the lease lapsed. */
  method ShortCutLapses(line: HostLine, wording: Reason -> string) returns (round: Round, next: int)
    ensures Honest(round) && ShortCut(round.task, round.now, round.created)
    ensures Live(round.task, round.now) && InTime(round, next) && !Live(After(round.task, round.now), next)
  {
    var api := new Api(true, Some(WITNESS_WORLD), FRESH_STATUS);
    var r := new Reconciler(api, "u", Run("run", 1, "node", "t", Unset), true, line, wording);
    WitnessTakesTheBranch();
    assert FRESH_STATUS in api.statuses && Chain(api.statuses);
    assert FreeIn([], r.self.(phase := Unset));
    var o, stage, gate, before, sight := r.Reconcile(FRESH_STATUS);
    round := Round(stage.task, stage.now, stage.created, o);
    next := 5 * SECOND + 9 * MINUTE + 59 * SECOND;
  }

  // ----- Two clocks -----

  const CLOCK_TOLERANCE := 5 * Grants.MINUTE

  lemma HorizonExact(written: int, receiverNow: int, g: Grants.Grant, canon: Grants.KeyReader)
    requires g.expiresAt == written + AUTHORIZATION_LEASE
    ensures g.expiresAt <= receiverNow + Grants.MAXIMUM_LEASE_HORIZON <==> written - receiverNow <= CLOCK_TOLERANCE
    ensures written - receiverNow <= CLOCK_TOLERANCE ==> Grants.GrantError(receiverNow, g, canon) != Some(Grants.LeaseTooLong)
  {
    hide ValidDatasetName, CompressionSupported, SyncoidContract.ValidIdentifier;
  }

  lemma ExpiryFollowsClock(t: seq<Event>, u: seq<Event>, before: seq<Event>, gate: Option<Evidence>, uid: string, line: HostLine, k: nat)
    requires Gated(t, u, before, gate, uid, line)
    requires |t| <= k < |u| && (u[k].TaskCreated? || u[k].TaskRenewed?)
    ensures k > |t| && u[k - 1] == Clock(u[k].expiresAt - AUTHORIZATION_LEASE)
  {
    hide Licenses, Shows;
    if gate.Some? {
      assert k < |before| && u[k] == before[k] && u[k - 1] == before[k - 1];
    }
  }

  /** Every expiry a reconcile writes, at a task's creation or renewal, was one lease after the clock it had just read; and
      the receiver finds it within its horizon exactly when its own clock is at most five minutes behind that one. */
  lemma HorizonToleratesFiveMinutes(
      t: seq<Event>, u: seq<Event>, before: seq<Event>, gate: Option<Evidence>, uid: string, line: HostLine, k: nat,
      receiverNow: int, g: Grants.Grant, canon: Grants.KeyReader)
    requires Gated(t, u, before, gate, uid, line)
    requires |t| <= k < |u| && (u[k].TaskCreated? || u[k].TaskRenewed?) && g.expiresAt == u[k].expiresAt
    ensures k > |t| && u[k - 1].Clock? && u[k].expiresAt == u[k - 1].now + AUTHORIZATION_LEASE
    ensures g.expiresAt <= receiverNow + Grants.MAXIMUM_LEASE_HORIZON <==> u[k - 1].now - receiverNow <= CLOCK_TOLERANCE
    ensures u[k - 1].now - receiverNow <= CLOCK_TOLERANCE ==> Grants.GrantError(receiverNow, g, canon) != Some(Grants.LeaseTooLong)
  {
    hide *;
    ExpiryFollowsClock(t, u, before, gate, uid, line, k);
    HorizonExact(u[k].expiresAt - AUTHORIZATION_LEASE, receiverNow, g, canon);
  }
}
