/** Scheduled runs: which tick is due, and what a reconcile does about it (internal/controller/cron.go,
    internal/controller/zfsreplication_schedule_controller.go). */
module Schedule {
  import opened Text
  import opened DestinationLock

  // ----- Ticks -----

  /** The next tick after an instant, if there is one. */
  type Cron = int -> Option<int>

  /** `cron` finds the least tick after every instant. */
  ghost predicate Finds(cron: Cron, tick: int -> bool) {
    forall t :: match cron(t)
      case None => forall u :: u > t ==> !tick(u)
      case Some(next) => next > t && tick(next) && forall u :: t < u < next ==> !tick(u)
  }

  /** The last tick in (after, now]. */
  ghost predicate LastTick(tick: int -> bool, after: int, now: int, due: Option<int>) {
    match due
    case None => forall u :: after < u <= now ==> !tick(u)
    case Some(d) => after < d <= now && tick(d) && forall u :: d < u <= now ==> !tick(u)
  }

  /** The first tick after an instant. */
  ghost predicate FirstTick(tick: int -> bool, after: int, next: Option<int>) {
    match next
    case None => forall u :: u > after ==> !tick(u)
    case Some(n) => n > after && tick(n) && forall u :: after < u < n ==> !tick(u)
  }

  function Max(a: int, b: int): (m: int) {
    if a < b then b else a
  }

  method DueAndNext(cron: Cron, last: int, now: int, ghost tick: int -> bool) returns (due: Option<int>, next: Option<int>)
    requires Finds(cron, tick)
    ensures LastTick(tick, last, now, due)
    ensures FirstTick(tick, Max(last, now), next)
  {
    due := None;
    next := cron(last);
    while next.Some? && next.value <= now
      invariant FirstTick(tick, if due.Some? then due.value else last, next)
      invariant due.Some? ==> last < due.value <= now && tick(due.value)
      decreases if next.Some? then now - next.value else -1
    {
      due := next;
      next := cron(next.value);
    }
  }

  /** The tick found due does not depend on how far back the search started, once anything is due. */
  lemma DueIsDetermined(tick: int -> bool, a: int, b: int, now: int, due: Option<int>, other: Option<int>)
    requires LastTick(tick, a, now, due) && LastTick(tick, b, now, other)
    ensures due.Some? && other.Some? ==> due == other
    ensures due.Some? && due.value > b ==> other == due
  {
    if due.Some? && other.Some? {
      assert tick(due.value) && tick(other.value);
    }
    if due.Some? {
      assert tick(due.value);
    }
  }

  // ----- Reconciling a schedule -----

  datatype ConcurrencyPolicy = Allow | Forbid

  /** What validation makes of the schedule's own spec. */
  datatype Spec = Invalid | Suspended | Ticking

  /** `tick` is the instant a run was created for, when this schedule created it. */
  datatype ScheduledRun = ScheduledRun(labelled: bool, tick: Option<int>, phase: Phase, created: int, completed: Option<int>)

  type Runs = map<string, ScheduledRun>

  type RunName = int -> string

  predicate AnyActive(runs: Runs) {
    exists name :: name in runs && runs[name].labelled && !Terminal(runs[name].phase)
  }

  /** Every run this schedule created bears the name its tick gives it. */
  predicate NamedByTick(runs: Runs, nameOf: RunName) {
    forall name :: name in runs && runs[name].tick.Some? ==> name == nameOf(runs[name].tick.value)
  }

  predicate NewFor(run: ScheduledRun, due: int) {
    run.labelled && run.tick == Some(due) && run.phase == Unset
  }

  /** A reconcile may add the run of the due tick, if it has none, and drop ended runs of this schedule; nothing else. */
  ghost predicate Reconciled(before: Runs, after: Runs, due: Option<int>, nameOf: RunName) {
    && (forall name :: name in after && name in before ==> after[name] == before[name])
    && (forall name :: name in after && name !in before ==>
          due.Some? && name == nameOf(due.value) && NewFor(after[name], due.value))
    && (forall name :: name in before && name !in after ==> before[name].labelled && Terminal(before[name].phase))
  }

  // ----- History -----

  /** The zero time. */
  const ZERO := 0

  function HistoryTime(run: ScheduledRun): (t: int) {
    if run.completed.Some? then run.completed.value else run.created
  }

  predicate TerminalRunOlder(a: ScheduledRun, aName: string, b: ScheduledRun, bName: string) {
    var s, t := HistoryTime(a), HistoryTime(b);
    if s != t then s == ZERO || (t != ZERO && s < t)
    else if a.created != b.created then a.created < b.created
    else Before(aName, bName)
  }

  /** Of two ended runs, the one with no time at all is the older, then the one that completed earlier, then the one created
      earlier, and then the one first by name. A run without a completion time counts as completed when it was created. */
  lemma OlderByTimes(a: ScheduledRun, aName: string, b: ScheduledRun, bName: string, s: int, t: int)
    requires a.completed == Some(s) || (a.completed.None? && a.created == s)
    requires b.completed == Some(t) || (b.completed.None? && b.created == t)
    ensures s == ZERO && t != ZERO ==> TerminalRunOlder(a, aName, b, bName) && !TerminalRunOlder(b, bName, a, aName)
    ensures s != ZERO && t != ZERO && s < t ==> TerminalRunOlder(a, aName, b, bName) && !TerminalRunOlder(b, bName, a, aName)
    ensures s == t && a.created < b.created ==> TerminalRunOlder(a, aName, b, bName) && !TerminalRunOlder(b, bName, a, aName)
    ensures s == t && a.created == b.created ==> (TerminalRunOlder(a, aName, b, bName) <==> Before(aName, bName))
  {
  }

  /** Being older is a strict total order on runs of different names, so the oldest are determined. */
  lemma OlderIsStrictOrder(
      a: ScheduledRun, aName: string, b: ScheduledRun, bName: string, c: ScheduledRun, cName: string)
    ensures !TerminalRunOlder(a, aName, a, aName)
    ensures aName != bName ==> TerminalRunOlder(a, aName, b, bName) || TerminalRunOlder(b, bName, a, aName)
    ensures !(TerminalRunOlder(a, aName, b, bName) && TerminalRunOlder(b, bName, a, aName))
    ensures TerminalRunOlder(a, aName, b, bName) && TerminalRunOlder(b, bName, c, cName) ==> TerminalRunOlder(a, aName, c, cName)
  {
    BeforeIsTotal(aName, aName);
    BeforeIsTotal(aName, bName);
    if Before(aName, bName) && Before(bName, cName) {
      BeforeIsTransitive(aName, bName, cName);
    }
    if Before(aName, bName) && Before(bName, aName) {
      BeforeIsTransitive(aName, bName, aName);
    }
  }

  predicate OlderIn(runs: Runs, a: string, b: string) {
    a in runs && b in runs && TerminalRunOlder(runs[a], a, runs[b], b)
  }

  lemma {:induction false} OldestOf(runs: Runs, names: set<string>) returns (oldest: string)
    requires names != {} && names <= runs.Keys
    ensures oldest in names && forall name :: name in names && name != oldest ==> OlderIn(runs, oldest, name)
    decreases names
  {
    var x :| x in names;
    var rest := names - {x};
    oldest := x;
    assert forall name :: name in names <==> name == x || name in rest;
    if rest != {} {
      var y := OldestOf(runs, rest);
      BeforeIsTotal(x, y);
      if OlderIn(runs, y, x) {
        oldest := y;
      } else {
        forall name | name in rest ensures OlderIn(runs, x, name) {
          if name != y && Before(x, y) && Before(y, name) {
            BeforeIsTransitive(x, y, name);
          }
        }
      }
    }
  }

  /** The ended runs of one kind that this schedule keeps in its history. */
  function Ended(runs: Runs, phase: Phase): (names: set<string>) {
    set name | name in runs && runs[name].labelled && runs[name].phase == phase
  }

  /** Of one kind of ended run some are gone, each older than every one that stays; everything else is as it was. */
  ghost predicate Pruned(before: Runs, after: Runs, phase: Phase) {
    && (forall name :: name in after ==> name in before && after[name] == before[name])
    && (forall name :: name in before && name !in Ended(before, phase) ==> name in after)
    && (forall gone, kept :: gone in Ended(before, phase) && gone !in after && kept in Ended(before, phase) && kept in after ==>
          OlderIn(before, gone, kept))
  }

  /** Of the ended runs of one kind only the newest are left. */
  ghost predicate OldestGone(before: Runs, after: Runs, phase: Phase) {
    && Ended(after, phase) <= Ended(before, phase)
    && forall gone, kept :: gone in Ended(before, phase) && gone !in Ended(after, phase) && kept in Ended(after, phase) ==>
         OlderIn(before, gone, kept)
  }

  /** Exactly as many ended runs of one kind are left as the limit allows. */
  ghost predicate DownTo(before: Runs, after: Runs, phase: Phase, limit: nat) {
    |Ended(after, phase)| == if |Ended(before, phase)| > limit then limit else |Ended(before, phase)|
  }

  /** Pruning one kind leaves the newest of it and all of the other. */
  lemma PrunedKeepsNewest(before: Runs, after: Runs, phase: Phase, other: Phase)
    requires Pruned(before, after, phase) && phase != other
    ensures OldestGone(before, after, phase)
    ensures Ended(after, other) == Ended(before, other)
    ensures forall name :: name in after ==> name in before && after[name] == before[name]
  {
    hide OlderIn;
  }

  lemma PrunedLeaves(before: Runs, after: Runs, phase: Phase)
    requires Pruned(before, after, phase)
    ensures forall name :: name in after ==> name in before && after[name] == before[name]
    ensures forall name :: name in before && name !in after ==> before[name].labelled && before[name].phase == phase
  {
  }

  /** Pruning one kind after the other. */
  lemma PrunedInTurn(before: Runs, between: Runs, after: Runs)
    requires Pruned(before, between, Succeeded) && Pruned(between, after, Failed)
    ensures OldestGone(before, after, Succeeded) && OldestGone(before, after, Failed)
    ensures Ended(between, Failed) == Ended(before, Failed) && Ended(after, Succeeded) == Ended(between, Succeeded)
  {
    hide TerminalRunOlder, Pruned;
    PrunedKeepsNewest(before, between, Succeeded, Failed);
    PrunedKeepsNewest(between, after, Failed, Succeeded);
  }

  lemma NewRunDoesNotCount(before: Runs, name: string, run: ScheduledRun, after: Runs, phase: Phase)
    requires name !in before && run.phase == Unset && (phase == Succeeded || phase == Failed)
    ensures OldestGone(before[name := run], after, phase) ==> OldestGone(before, after, phase)
    ensures Ended(before[name := run], phase) == Ended(before, phase)
  {
    hide TerminalRunOlder;
    assert Ended(before[name := run], phase) == Ended(before, phase);
  }

  lemma NothingGone(runs: Runs, phase: Phase)
    ensures OldestGone(runs, runs, phase)
  {
  }

  lemma NothingPruned(runs: Runs, phase: Phase)
    ensures Pruned(runs, runs, phase)
  {
  }

  /** Dropping the oldest of what is left. */
  lemma PruneStep(before: Runs, runs: Runs, phase: Phase, oldest: string)
    requires Pruned(before, runs, phase) && oldest in Ended(runs, phase)
    requires forall name :: name in Ended(runs, phase) && name != oldest ==> OlderIn(runs, oldest, name)
    ensures Pruned(before, runs - {oldest}, phase) && Ended(runs - {oldest}, phase) == Ended(runs, phase) - {oldest}
  {
    hide TerminalRunOlder;
    var after := runs - {oldest};
    forall gone, kept | gone in Ended(before, phase) && gone !in after && kept in Ended(before, phase) && kept in after
      ensures OlderIn(before, gone, kept)
    {
      if gone == oldest {
        assert OlderIn(runs, oldest, kept);
      }
    }
  }

  // ----- The reconciler -----

  /** What the API does during one reconcile: anything; everything asked of it; or everything but the status write. */
  datatype Weather = AnyWeather | Fine | StatusLost

  datatype Outcome = ApiError | Stopped | RequeueAt(next: Option<int>)

  class Scheduler {
    const cron: Cron
    const nameOf: RunName
    const spec: Spec
    const policy: ConcurrencyPolicy
    const created: Option<int>
    const successfulLimit: nat
    const failedLimit: nat
    var lastScheduleTime: Option<int>
    var runs: Runs
    ghost const tick: int -> bool

    ghost predicate Valid()
      reads this
    {
      Finds(cron, tick) && NamedByTick(runs, nameOf)
    }

    constructor (cron: Cron, nameOf: RunName, spec: Spec, policy: ConcurrencyPolicy, created: Option<int>,
                 successfulLimit: nat, failedLimit: nat, ghost tick: int -> bool)
      requires Finds(cron, tick)
      ensures Valid() && lastScheduleTime == None && runs == map[]
      ensures this.tick == tick && this.nameOf == nameOf && this.spec == spec && this.policy == policy && this.created == created
    {
      this.cron, this.nameOf, this.spec, this.policy, this.created, this.tick := cron, nameOf, spec, policy, created, tick;
      this.successfulLimit, this.failedLimit := successfulLimit, failedLimit;
      lastScheduleTime, runs := None, map[];
    }

    /** Meanwhile, elsewhere: runs change phase or go, and others appear; none is made for a tick of this schedule. */
    method Elsewhere(next: Runs)
      requires Valid()
      requires forall name :: name in next && next[name].tick.Some? ==> name in runs && runs[name].tick == next[name].tick
      modifies this`runs
      ensures Valid() && runs == next
    {
      runs := next;
    }

    /** Whether a run of this schedule is active, as far as `listed`, the cached list, knows. */
    method HasActiveRun(listed: Runs, weather: Weather) returns (active: Option<bool>)
      ensures active.Some? ==> (active.value <==> AnyActive(listed))
      ensures active.None? ==> weather == AnyWeather
    {
      var failing: bool := *;
      if failing && weather == AnyWeather {
        return None;
      }
      var left := listed.Keys;
      while left != {}
        invariant left <= listed.Keys
        invariant forall name :: name in listed && name !in left ==> !(listed[name].labelled && !Terminal(listed[name].phase))
        decreases left
      {
        var name :| name in left;
        left := left - {name};
        if listed[name].labelled && !Terminal(listed[name].phase) {
          return Some(true);
        }
      }
      return Some(false);
    }

    /** Creates the run of a tick unless it exists; `stamp` is the creation time the server gives it. */
    method EnsureScheduledRun(due: int, stamp: int, weather: Weather) returns (ok: bool)
      requires Valid()
      modifies this`runs
      ensures Valid()
      ensures nameOf(due) in old(runs) ==> runs == old(runs)
      ensures runs == old(runs) || runs == old(runs)[nameOf(due) := ScheduledRun(true, Some(due), Unset, stamp, None)]
      ensures ok ==> nameOf(due) in runs
      ensures !ok ==> weather == AnyWeather
    {
      ok := *;
      ok := ok || weather != AnyWeather;
      if !ok {
        return false;
      }
      if nameOf(due) in runs {
        return true;
      }
      ok := *;
      ok := ok || weather != AnyWeather;
      if ok {
        runs := runs[nameOf(due) := ScheduledRun(true, Some(due), Unset, stamp, None)];
      }
    }

    /** Deletes the oldest ended runs of one kind until no more than `limit` are left. */
    method PruneTerminalRuns(phase: Phase, limit: nat, weather: Weather) returns (ok: bool)
      requires Valid()
      modifies this`runs
      ensures Valid() && Pruned(old(runs), runs, phase)
      ensures ok && |Ended(old(runs), phase)| <= limit ==> runs == old(runs)
      ensures ok && |Ended(old(runs), phase)| > limit ==> |Ended(runs, phase)| == limit
      ensures !ok ==> weather == AnyWeather
    {
      var left := Ended(runs, phase);
      hide OlderIn, TerminalRunOlder, Pruned;
      NothingPruned(runs, phase);
      while |left| > limit
        invariant Valid() && Pruned(old(runs), runs, phase) && left == Ended(runs, phase)
        invariant |left| >= limit || runs == old(runs)
        invariant |Ended(old(runs), phase)| <= limit ==> runs == old(runs)
        decreases left
      {
        ghost var first := OldestOf(runs, left);
        var oldest :| oldest in left && forall name :: name in left && name != oldest ==> OlderIn(runs, oldest, name);
        var failing: bool := *;
        if failing && weather == AnyWeather {
          return false;
        }
        PruneStep(old(runs), runs, phase, oldest);
        runs := runs - {oldest};
        left := left - {oldest};
      }
      return true;
    }

    method PatchScheduleStatus(due: Option<int>, weather: Weather) returns (ok: bool)
      requires Valid()
      modifies this`lastScheduleTime
      ensures Valid()
      ensures lastScheduleTime == old(lastScheduleTime) || (due.Some? && lastScheduleTime == due)
      ensures ok && due.Some? ==> lastScheduleTime == due
      ensures !ok ==> lastScheduleTime == old(lastScheduleTime)
      ensures ok == (weather == Fine) || weather == AnyWeather
    {
      ok := *;
      ok := if weather == AnyWeather then ok else weather == Fine;
      if ok && due.Some? {
        lastScheduleTime := due;
      }
    }

    method PatchScheduleStatusAndPruneHistory(due: Option<int>, after: Outcome, weather: Weather) returns (o: Outcome)
      requires Valid()
      modifies this
      ensures Valid()
      ensures lastScheduleTime == old(lastScheduleTime) || (due.Some? && lastScheduleTime == due)
      ensures o != ApiError && due.Some? ==> lastScheduleTime == due
      ensures o == ApiError || o == after
      ensures forall name :: name in runs ==> name in old(runs) && runs[name] == old(runs)[name]
      ensures forall name :: name in old(runs) && name !in runs ==> old(runs)[name].labelled && Terminal(old(runs)[name].phase)
      ensures weather == Fine ==> o == after
      ensures OldestGone(old(runs), runs, Succeeded) && OldestGone(old(runs), runs, Failed)
      ensures weather == Fine ==>
        DownTo(old(runs), runs, Succeeded, successfulLimit) && DownTo(old(runs), runs, Failed, failedLimit)
      ensures weather == StatusLost ==> o == ApiError && lastScheduleTime == old(lastScheduleTime) && runs == old(runs)
    {
      hide Pruned, OldestGone, OlderIn, TerminalRunOlder;
      NothingGone(runs, Succeeded);
      NothingGone(runs, Failed);
      var written := PatchScheduleStatus(due, weather);
      if !written {
        return ApiError;
      }
      var first := PruneTerminalRuns(Succeeded, successfulLimit, weather);
      ghost var between := runs;
      var second := PruneTerminalRuns(Failed, failedLimit, weather);
      PrunedInTurn(old(runs), between, runs);
      PrunedLeaves(old(runs), between, Succeeded);
      PrunedLeaves(between, runs, Failed);
      o := if first && second then after else ApiError;
    }

    function Base(view: Option<int>, now: int): (last: int) {
      if view.Some? then view.value else if created.Some? then created.value else now
    }

    /** The run of a due tick, unless it exists, then the status and the history. */
    method CreateAndRecord(due: int, next: Option<int>, stamp: int, weather: Weather) returns (o: Outcome)
      requires Valid()
      modifies this
      ensures Valid() && Reconciled(old(runs), runs, Some(due), nameOf)
      ensures lastScheduleTime == old(lastScheduleTime) || lastScheduleTime == Some(due)
      ensures o != ApiError ==> lastScheduleTime == Some(due)
      ensures o == ApiError || o == RequeueAt(next)
      ensures o != ApiError ==> nameOf(due) in runs || nameOf(due) in old(runs)
      ensures weather != AnyWeather && nameOf(due) !in old(runs) ==> nameOf(due) in runs
      ensures weather == Fine ==> o != ApiError
      ensures weather == StatusLost ==> o == ApiError && lastScheduleTime == old(lastScheduleTime)
      ensures OldestGone(old(runs), runs, Succeeded) && OldestGone(old(runs), runs, Failed)
      ensures weather == Fine ==>
        DownTo(old(runs), runs, Succeeded, successfulLimit) && DownTo(old(runs), runs, Failed, failedLimit)
    {
      hide OldestGone, OlderIn, TerminalRunOlder, Ended;
      NothingGone(runs, Succeeded);
      NothingGone(runs, Failed);
      ghost var name, created := nameOf(due), ScheduledRun(true, Some(due), Unset, stamp, None);
      var ok := EnsureScheduledRun(due, stamp, weather);
      if ok {
        o := PatchScheduleStatusAndPruneHistory(Some(due), RequeueAt(next), weather);
      } else {
        o := ApiError;
        NothingGone(runs, Succeeded);
        NothingGone(runs, Failed);
      }
      if name !in old(runs) {
        NewRunDoesNotCount(old(runs), name, created, runs, Succeeded);
        NewRunDoesNotCount(old(runs), name, created, runs, Failed);
      }
    }

    /** One reconcile from `view`, the schedule's last time as the cache has it, and `listed`, its runs as the cache lists them;
        `skipped` when Forbid held it back. */
    method Reconcile(view: Option<int>, listed: Runs, now: int, stamp: int, weather: Weather)
      returns (o: Outcome, due: Option<int>, skipped: bool)
      requires Valid()
      modifies this
      ensures Valid() && Reconciled(old(runs), runs, due, nameOf)
      ensures spec == Ticking ==> LastTick(tick, Base(view, now), now, due)
      ensures spec == Ticking && view.Some? ==> LastTick(tick, view.value, now, due)
      ensures spec == Ticking && view.None? && created.Some? ==> LastTick(tick, created.value, now, due)
      ensures view.None? && created.None? ==> due.None?
      ensures spec != Ticking ==> due.None? && !o.RequeueAt?
      ensures spec == Invalid ==> runs == old(runs)
      ensures o.RequeueAt? ==> FirstTick(tick, Max(Base(view, now), now), o.next)
      ensures lastScheduleTime == old(lastScheduleTime) || (due.Some? && lastScheduleTime == due)
      ensures o.RequeueAt? && due.Some? ==> lastScheduleTime == due
      ensures policy == Forbid && AnyActive(listed) ==> runs.Keys <= old(runs).Keys
      ensures spec == Ticking ==> !o.Stopped?
      ensures skipped ==> policy == Forbid && AnyActive(listed) && due.Some?
      ensures o.RequeueAt? && due.Some? && policy == Forbid && AnyActive(listed) ==> skipped
      ensures o.RequeueAt? && due.Some? ==> skipped || nameOf(due.value) in runs || nameOf(due.value) in old(runs)
      ensures due.Some? && weather != AnyWeather ==>
        (skipped <==> policy == Forbid && AnyActive(listed))
        && (!skipped && nameOf(due.value) !in old(runs) ==> nameOf(due.value) in runs)
      ensures weather == Fine ==> o != ApiError
      ensures weather == StatusLost ==> o == ApiError && lastScheduleTime == old(lastScheduleTime)
      ensures weather == StatusLost && skipped ==> runs == old(runs)
      ensures OldestGone(old(runs), runs, Succeeded) && OldestGone(old(runs), runs, Failed)
      ensures weather == Fine && spec != Invalid ==>
        DownTo(old(runs), runs, Succeeded, successfulLimit) && DownTo(old(runs), runs, Failed, failedLimit)
    {
      hide OldestGone, OlderIn, TerminalRunOlder, Ended, DownTo;
      NothingGone(runs, Succeeded);
      NothingGone(runs, Failed);
      skipped, due := false, None;
      if spec == Invalid {
        var written := PatchScheduleStatus(None, weather);
        return if written then Stopped else ApiError, due, skipped;
      }
      if spec == Suspended {
        o := PatchScheduleStatusAndPruneHistory(None, Stopped, weather);
        return;
      }
      var next;
      due, next := DueAndNext(cron, Base(view, now), now, tick);
      if due.None? {
        o := PatchScheduleStatusAndPruneHistory(None, RequeueAt(next), weather);
        return;
      }
      if policy == Forbid {
        var active := HasActiveRun(listed, weather);
        if active.None? {
          return ApiError, due, false;
        }
        if active.value {
          skipped := true;
          o := PatchScheduleStatusAndPruneHistory(due, RequeueAt(next), weather);
          return;
        }
      }
      o := CreateAndRecord(due.value, next, stamp, weather);
    }
  }

  // ----- Whole runs -----

  /** Whatever the view, a write never moves the last schedule time back, as long as the clock has reached it; from a
      current view it moves strictly forward on any clock. */
  lemma LastTimeNeverGoesBack(tick: int -> bool, view: Option<int>, base: int, server: int, now: int, due: int)
    requires LastTick(tick, base, now, Some(due)) && tick(server)
    requires view.Some? ==> base == view.value
    ensures server <= now ==> server <= due
    ensures view == Some(server) ==> server < due
  {
  }

  /** No run of this tick is there. */
  predicate TickIsFree(runs: Runs, due: int) {
    forall name :: name in runs ==> runs[name].tick != Some(due)
  }

  /** A tick has at most one run. */
  predicate OneRunPerTick(runs: Runs) {
    forall a, b :: a in runs && b in runs && runs[a].tick.Some? && runs[a].tick == runs[b].tick ==> a == b
  }

  ghost predicate Recorded(runs: Runs, made: seq<(int, Runs)>) {
    forall name :: name in runs && runs[name].tick.Some? ==>
      exists k :: 0 <= k < |made| && made[k].0 == runs[name].tick.value
  }

  lemma NamedOnce(runs: Runs, nameOf: RunName)
    requires NamedByTick(runs, nameOf)
    ensures OneRunPerTick(runs)
    ensures forall due :: nameOf(due) !in runs ==> TickIsFree(runs, due)
  {
  }

  method Log(before: Runs, after: Runs, due: Option<int>, nameOf: RunName, made: seq<(int, Runs)>)
    returns (more: seq<(int, Runs)>)
    requires Reconciled(before, after, due, nameOf) && NamedByTick(before, nameOf) && Recorded(before, made)
    requires forall k :: 0 <= k < |made| ==> OneRunPerTick(made[k].1) && TickIsFree(made[k].1, made[k].0)
    ensures Recorded(after, more)
    ensures forall k :: 0 <= k < |more| ==> OneRunPerTick(more[k].1) && TickIsFree(more[k].1, more[k].0)
  {
    NamedOnce(before, nameOf);
    more := made;
    if due.Some? && nameOf(due.value) in after && nameOf(due.value) !in before {
      more := made + [(due.value, before)];
      assert more[|made|].0 == due.value;
    }
    forall name | name in after && after[name].tick.Some?
      ensures exists k :: 0 <= k < |more| && more[k].0 == after[name].tick.value
    {
      if name in before {
        var k :| 0 <= k < |made| && made[k].0 == before[name].tick.value;
        assert more[k].0 == after[name].tick.value;
      }
    }
  }

  /** Every reconcile at a clock that does not run back, each from any view and any list the cache may hold, in any weather, with
      runs changing in between: the last schedule time never goes back, no tick ever has two runs, and `made` lists every
      run created, with the runs there were before it: none of them for its tick. */
  method ReconcileAll(s: Scheduler, nows: seq<int>)
    returns (times: seq<Option<int>>, made: seq<(int, Runs)>)
    requires s.Valid() && s.lastScheduleTime.None? && s.runs == map[]
    requires forall i, j :: 0 <= i <= j < |nows| ==> nows[i] <= nows[j]
    modifies s
    ensures s.Valid() && |times| == |nows| + 1 && times[|nows|] == s.lastScheduleTime
    ensures forall a, b :: 0 <= a <= b < |times| && times[a].Some? ==> times[b].Some? && times[a].value <= times[b].value
    ensures OneRunPerTick(s.runs)
    ensures forall k :: 0 <= k < |made| ==> OneRunPerTick(made[k].1) && TickIsFree(made[k].1, made[k].0)
    ensures forall name :: name in s.runs && s.runs[name].tick.Some? ==>
      exists k :: 0 <= k < |made| && made[k].0 == s.runs[name].tick.value
  {
    times, made := [s.lastScheduleTime], [];
    for i := 0 to |nows|
      invariant s.Valid() && |times| == i + 1 && times[i] == s.lastScheduleTime
      invariant s.lastScheduleTime.Some? ==> s.tick(s.lastScheduleTime.value) && i > 0 && s.lastScheduleTime.value <= nows[i - 1]
      invariant forall a, b :: 0 <= a <= b < |times| && times[a].Some? ==> times[b].Some? && times[a].value <= times[b].value
      invariant forall k :: 0 <= k < |made| ==> OneRunPerTick(made[k].1) && TickIsFree(made[k].1, made[k].0)
      invariant Recorded(s.runs, made)
    {
      var k: nat :| k <= i;
      var before, runs := s.lastScheduleTime, s.runs;
      var stamp: int := *;
      var weather: Weather := *;
      var listed: Runs := *;
      var o, due, skipped := s.Reconcile(times[k], listed, nows[i], stamp, weather);
      if before.Some? && due.Some? {
        LastTimeNeverGoesBack(s.tick, times[k], s.Base(times[k], nows[i]), before.value, nows[i], due.value);
      }
      times := times + [s.lastScheduleTime];
      NamedOnce(runs, s.nameOf);
      made := Log(runs, s.runs, due, s.nameOf, made);
      var next: Runs := *;
      if forall name :: name in next && next[name].tick.Some? ==> name in s.runs && s.runs[name].tick == next[name].tick {
        s.Elsewhere(next);
      }
    }
    NamedOnce(s.runs, s.nameOf);
  }

  // ----- A retry that skips its own run -----

  function Minute(t: int): (next: Option<int>) {
    Some((t / 60 + 1) * 60)
  }

  predicate OnTheMinute(t: int) {
    t % 60 == 0
  }

  lemma NoMinuteBetween(t: int, u: int)
    requires t < u < (t / 60 + 1) * 60
    ensures u % 60 != 0
  {
    assert u / 60 == t / 60;
  }

  lemma MinuteFinds()
    ensures Finds(Minute, OnTheMinute)
  {
    forall t, u | t < u < Minute(t).value ensures !OnTheMinute(u) {
      NoMinuteBetween(t, u);
    }
  }

  /** A schedule for every full minute under Forbid, reconciled once, at 125: the run of tick 120 is there. */
  method ReconciledOnce(nameOf: RunName, weather: Weather) returns (s: Scheduler, skipped: bool)
    requires weather != AnyWeather
    ensures s.Valid() && fresh(s) && s.tick == OnTheMinute && s.nameOf == nameOf && s.spec == Ticking && s.policy == Forbid
    ensures s.created == Some(61) && !skipped
    ensures s.runs.Keys == {nameOf(120)} && NewFor(s.runs[nameOf(120)], 120)
  {
    MinuteFinds();
    s := new Scheduler(Minute, nameOf, Ticking, Forbid, Some(61), 3, 1, OnTheMinute);
    assert OnTheMinute(120);
    var o, due;
    o, due, skipped := s.Reconcile(None, map[], 125, 125, weather);
    assert due == Some(120);
  }

  /** The status write of the first reconcile is lost; the second, under Forbid, finds the run the first one created still
      active, creates nothing and records the tick as skipped. */
  method RetrySkipsItsOwnRun(nameOf: RunName) returns (s: Scheduler, first: bool, second: bool)
    ensures s.runs.Keys == {nameOf(120)} && NewFor(s.runs[nameOf(120)], 120)
    ensures !first && second && s.lastScheduleTime == Some(120)
  {
    s, first := ReconciledOnce(nameOf, StatusLost);
    assert OnTheMinute(120);
    var o, due;
    o, due, second := s.Reconcile(None, s.runs, 126, 126, Fine);
  }

  // ----- A list that is behind -----

  /** Under Forbid, with nothing going wrong: the second reconcile's list does not show the run of the first tick yet, and a second
      run is created beside it, both active. */
  method StaleListCreatesBeside(nameOf: RunName) returns (s: Scheduler)
    requires nameOf(120) != nameOf(180)
    ensures s.policy == Forbid && s.runs.Keys == {nameOf(120), nameOf(180)}
    ensures NewFor(s.runs[nameOf(120)], 120) && NewFor(s.runs[nameOf(180)], 180)
  {
    var skipped;
    s, skipped := ReconciledOnce(nameOf, Fine);
    assert OnTheMinute(180);
    var o, due;
    o, due, skipped := s.Reconcile(Some(120), map[], 185, 185, Fine);
    assert due == Some(180);
  }
}
