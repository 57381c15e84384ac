/** The destination lock: which replication run may proceed when several want overlapping targets
    (internal/controller/zfsreplication_run_controller.go). One namespace; each run is known by an ID of its own. */
module DestinationLock {
  import opened Text
  import opened Datasets

  datatype Phase = Unset | Pending | StartingReceiver | ReceiverReady | Running | Succeeded | Failed

  predicate Terminal(phase: Phase) {
    phase == Succeeded || phase == Failed
  }

  predicate Started(phase: Phase) {
    phase == StartingReceiver || phase == ReceiverReady || phase == Running
  }

  /** `created` is the creation timestamp, zero when there is none. */
  datatype Run = Run(name: string, created: int, targetNode: string, targetDataset: string, phase: Phase)

  // ----- The decision -----

  predicate Earlier(other: Run, run: Run) {
    if run.created == 0 || other.created == 0 || run.created == other.created then Before(other.name, run.name)
    else other.created < run.created
  }

  predicate ShouldWaitForDestinationRun(run: Run, other: Run) {
    (other.phase != Unset && other.phase != Pending) || Earlier(other, run)
  }

  predicate Compete(a: Run, b: Run) {
    a.targetNode == b.targetNode && TargetDatasetsOverlap(a.targetDataset, b.targetDataset)
  }

  predicate Blocks(other: Run, run: Run) {
    && other.name != run.name && !Terminal(other.phase)
    && Compete(other, run) && ShouldWaitForDestinationRun(run, other)
  }

  lemma OverlapIsSymmetric()
    ensures forall a, b :: TargetDatasetsOverlap(a, b) <==> TargetDatasetsOverlap(b, a)
  {
    hide DatasetOrChild;
  }

  /** The first listed run that holds this one back. */
  /** A run holds another back exactly when it is another run that has not ended, receives on the same node into the same
      subtree, and has started, or else was created earlier; without two different creation times the names decide. */
  lemma BlocksIff(other: Run, run: Run)
    ensures Blocks(other, run) <==>
      && other.name != run.name && other.phase != Succeeded && other.phase != Failed
      && other.targetNode == run.targetNode
      && ValidDatasetName(other.targetDataset) && ValidDatasetName(run.targetDataset)
      && (Components(other.targetDataset) <= Components(run.targetDataset)
          || Components(run.targetDataset) <= Components(other.targetDataset))
      && (other.phase == StartingReceiver || other.phase == ReceiverReady || other.phase == Running
          || if other.created != 0 && run.created != 0 && other.created != run.created then other.created < run.created
             else Before(other.name, run.name))
  {
    OverlapIsPathPrefix(other.targetDataset, run.targetDataset);
    hide ValidDatasetName, TargetDatasetsOverlap, Components;
  }

  method DestinationLocked(run: Run, runs: seq<Run>) returns (blocker: Option<Run>)
    ensures blocker.None? <==> forall other :: other in runs ==> !Blocks(other, run)
    ensures blocker.Some? ==> blocker.value in runs && Blocks(blocker.value, run)
  {
    hide TargetDatasetsOverlap, Before;
    OverlapIsSymmetric();
    for i := 0 to |runs|
      invariant forall j :: 0 <= j < i ==> !Blocks(runs[j], run)
    {
      var other := runs[i];
      if other.name == run.name || Terminal(other.phase) {
        continue;
      }
      if other.targetNode != run.targetNode || !TargetDatasetsOverlap(run.targetDataset, other.targetDataset) {
        continue;
      }
      if ShouldWaitForDestinationRun(run, other) {
        assert other in runs && Blocks(other, run);
        return Some(other);
      }
    }
    return None;
  }

  // ----- All interleavings of reconciles -----

  datatype Decision = Go | Wait

  /** `deciding` holds each reconcile that has read the list and not yet patched its run; `passed` the runs that some
      reconcile has let past the lock. */
  datatype State = State(runs: map<nat, Run>, deciding: map<nat, Decision>, passed: set<nat>)

  const EMPTY := State(map[], map[], {})

  datatype Step =
    | Create(id: nat, run: Run)
    | Delete(id: nat)
    | Decide(id: nat)
    | Patch(id: nat, phase: Phase)
    | Abandon(id: nat)
    | Reject(id: nat)

  predicate Locked(s: State, id: nat)
    requires id in s.runs
  {
    exists o :: o in s.runs && Blocks(s.runs[o], s.runs[id])
  }

  predicate Fits(decision: Decision, phase: Phase) {
    match decision
    case Wait => phase == Pending
    case Go => phase != Unset && phase != Pending
  }

  predicate Enabled(s: State, step: Step) {
    match step
    case Create(id, run) =>
      id !in s.runs && run.phase == Unset && forall o :: o in s.runs ==> s.runs[o].name != run.name
    case Delete(id) => id in s.runs
    case Decide(id) => id in s.runs && !Terminal(s.runs[id].phase) && id !in s.deciding
    case Patch(id, phase) => id in s.runs && id in s.deciding && Fits(s.deciding[id], phase)
    case Abandon(id) => id in s.deciding
    case Reject(id) => id in s.runs && id !in s.deciding && !Terminal(s.runs[id].phase)
  }

  function Next(s: State, step: Step): (t: State)
    requires Enabled(s, step)
  {
    match step
    case Create(id, run) => s.(runs := s.runs[id := run])
    case Delete(id) => State(s.runs - {id}, s.deciding - {id}, s.passed - {id})
    case Decide(id) =>
      if Locked(s, id) then s.(deciding := s.deciding[id := Wait])
      else s.(deciding := s.deciding[id := Go], passed := s.passed + {id})
    case Patch(id, phase) => s.(runs := s.runs[id := s.runs[id].(phase := phase)], deciding := s.deciding - {id})
    case Abandon(id) => s.(deciding := s.deciding - {id})
    case Reject(id) => s.(runs := s.runs[id := s.runs[id].(phase := Failed)])
  }

  // ----- What holds in every state -----

  predicate Dated(s: State) {
    && (forall a :: a in s.runs ==> s.runs[a].created != 0)
    && forall a, b :: a in s.runs && b in s.runs && a != b ==> s.runs[a].name != s.runs[b].name
  }

  predicate Contend(s: State, a: nat, b: nat) {
    && a in s.runs && b in s.runs && a != b
    && !Terminal(s.runs[a].phase) && !Terminal(s.runs[b].phase)
    && Compete(s.runs[a], s.runs[b])
  }

  ghost predicate Inv(s: State) {
    && Dated(s)
    && s.passed <= s.runs.Keys && s.deciding.Keys <= s.runs.Keys
    && (forall a :: a in s.runs && Started(s.runs[a].phase) ==> a in s.passed)
    && (forall a :: a in s.deciding ==> (s.deciding[a] == Go <==> a in s.passed) && !Terminal(s.runs[a].phase))
    && forall a, b :: Contend(s, a, b) && Earlier(s.runs[a], s.runs[b]) ==> b !in s.passed
  }

  lemma EarlierIsTotal(a: Run, b: Run)
    requires a.name != b.name
    ensures Earlier(a, b) <==> !Earlier(b, a)
  {
    BeforeIsTotal(a.name, b.name);
  }

  lemma EarlierIsTransitive(a: Run, b: Run, c: Run)
    requires a.created != 0 && b.created != 0 && c.created != 0
    requires Earlier(a, b) && Earlier(b, c)
    ensures Earlier(a, c)
  {
    if a.created == b.created == c.created {
      BeforeIsTransitive(a.name, b.name, c.name);
    }
  }

  /** Never two contenders past the lock. */
  lemma MutualExclusion(s: State, a: nat, b: nat)
    requires Inv(s) && Contend(s, a, b)
    ensures !(a in s.passed && b in s.passed)
  {
    EarlierIsTotal(s.runs[a], s.runs[b]);
    assert Contend(s, b, a);
  }

  /** A run past the lock is never told to wait again. */
  lemma PassedStaysUnlocked(s: State, id: nat)
    requires Inv(s) && id in s.passed && !Terminal(s.runs[id].phase)
    ensures !Locked(s, id)
  {
    forall o | o in s.runs ensures !Blocks(s.runs[o], s.runs[id]) {
      if Blocks(s.runs[o], s.runs[id]) {
        assert o != id && Contend(s, o, id) && Contend(s, id, o);
        MutualExclusion(s, o, id);
      }
    }
  }

  /** The new run does not come before any contender that is already past the lock. */
  predicate Respects(s: State, run: Run) {
    run.created != 0
    && forall o :: o in s.passed && o in s.runs && !Terminal(s.runs[o].phase) && Compete(s.runs[o], run) ==>
         Earlier(s.runs[o], run)
  }

  /** Exactly which creations keep the invariant. */
  lemma CreationKeepsInvIff(s: State, id: nat, run: Run)
    requires Inv(s) && Enabled(s, Create(id, run))
    ensures Inv(Next(s, Create(id, run))) <==> Respects(s, run)
  {
    var t := Next(s, Create(id, run));
    forall o | o in s.runs ensures Earlier(s.runs[o], run) <==> !Earlier(run, s.runs[o]) {
      EarlierIsTotal(s.runs[o], run);
    }
    if Inv(t) {
      assert t.runs[id].created != 0;
      forall o | o in s.passed && o in s.runs && !Terminal(s.runs[o].phase) && Compete(s.runs[o], run)
        ensures Earlier(s.runs[o], run)
      {
        assert Contend(t, id, o);
      }
    }
    if Respects(s, run) {
      forall a, b | Contend(t, a, b) && Earlier(t.runs[a], t.runs[b]) ensures b !in t.passed {
        assert a != id && b != id ==> Contend(s, a, b);
      }
    }
  }

  /** Creation in order of (timestamp, name), as an ordinary clock gives it, is safe. */
  lemma LaterCreationIsSafe(s: State, run: Run)
    requires run.created != 0
    requires forall o :: o in s.runs ==>
      0 != s.runs[o].created < run.created || (s.runs[o].created == run.created && Before(s.runs[o].name, run.name))
    ensures Respects(s, run)
  {
  }

  lemma DecidingKeepsInv(s: State, id: nat)
    requires Inv(s) && Enabled(s, Decide(id))
    ensures Inv(Next(s, Decide(id)))
  {
    var t := Next(s, Decide(id));
    if Locked(s, id) {
      if id in s.passed {
        PassedStaysUnlocked(s, id);
      }
      assert forall a, b :: Contend(t, a, b) <==> Contend(s, a, b);
    } else {
      forall a, b | Contend(t, a, b) && Earlier(t.runs[a], t.runs[b]) ensures b !in t.passed {
        assert Contend(s, a, b);
        if b == id {
          assert Blocks(s.runs[a], s.runs[id]);
        }
      }
    }
  }

  lemma StillContend(s: State, t: State, a: nat, b: nat)
    requires Contend(t, a, b) && s.runs.Keys == t.runs.Keys
    requires forall c :: c in s.runs ==> t.runs[c] == s.runs[c].(phase := t.runs[c].phase)
    requires forall c :: c in s.runs && !Terminal(t.runs[c].phase) ==> !Terminal(s.runs[c].phase)
    ensures Contend(s, a, b) && (Earlier(s.runs[a], s.runs[b]) <==> Earlier(t.runs[a], t.runs[b]))
  {
    hide TargetDatasetsOverlap, Before;
  }

  lemma StillExclusive(s: State, t: State)
    requires Inv(s) && s.runs.Keys == t.runs.Keys && t.passed == s.passed
    requires forall c :: c in s.runs ==> t.runs[c] == s.runs[c].(phase := t.runs[c].phase)
    requires forall c :: c in s.runs && !Terminal(t.runs[c].phase) ==> !Terminal(s.runs[c].phase)
    ensures Dated(t) && forall a, b :: Contend(t, a, b) && Earlier(t.runs[a], t.runs[b]) ==> b !in t.passed
  {
    forall a, b | Contend(t, a, b) && Earlier(t.runs[a], t.runs[b]) ensures b !in t.passed {
      StillContend(s, t, a, b);
    }
    hide Contend, Earlier;
  }

  lemma PhaseKeepsInv(s: State, id: nat, phase: Phase, deciding: map<nat, Decision>)
    requires Inv(s) && id in s.runs && !Terminal(s.runs[id].phase) && (Started(phase) ==> id in s.passed)
    requires deciding == s.deciding - {id}
    ensures Inv(s.(runs := s.runs[id := s.runs[id].(phase := phase)], deciding := deciding))
  {
    hide Contend, Earlier, Dated;
    StillExclusive(s, s.(runs := s.runs[id := s.runs[id].(phase := phase)], deciding := deciding));
  }

  predicate Allowed(s: State, step: Step) {
    Enabled(s, step) && (step.Create? ==> Respects(s, step.run))
  }

  lemma StepKeepsInv(s: State, step: Step)
    requires Inv(s) && Allowed(s, step)
    ensures Inv(Next(s, step))
  {
    match step
    case Create(id, run) => CreationKeepsInvIff(s, id, run);
    case Delete(id) =>
      assert forall a, b :: Contend(Next(s, step), a, b) ==> Contend(s, a, b);
    case Decide(id) => DecidingKeepsInv(s, id);
    case Patch(id, phase) => PhaseKeepsInv(s, id, phase, s.deciding - {id});
    case Abandon(id) =>
      assert forall a, b :: Contend(Next(s, step), a, b) ==> Contend(s, a, b);
    case Reject(id) =>
      assert s.deciding - {id} == s.deciding;
      PhaseKeepsInv(s, id, Failed, s.deciding);
  }

  /** A run that has started is never put back to waiting. */
  lemma NeverPushedBack(s: State, step: Step, id: nat)
    requires Inv(s) && Allowed(s, step)
    requires id in s.runs && Started(s.runs[id].phase) && id in Next(s, step).runs
    ensures Started(Next(s, step).runs[id].phase) || Terminal(Next(s, step).runs[id].phase)
    ensures id in Next(s, step).passed
  {
  }

  // ----- Whole executions -----

  function Execute(steps: seq<Step>): (s: Option<State>) {
    if steps == [] then Some(EMPTY)
    else match Execute(steps[..|steps| - 1])
      case None => None
      case Some(s) => if Allowed(s, steps[|steps| - 1]) then Some(Next(s, steps[|steps| - 1])) else None
  }

  lemma {:induction false} ExecutionKeepsInv(steps: seq<Step>)
    ensures Execute(steps).Some? ==> Inv(Execute(steps).value)
  {
    if steps != [] {
      ExecutionKeepsInv(steps[..|steps| - 1]);
      var before := Execute(steps[..|steps| - 1]);
      if before.Some? && Allowed(before.value, steps[|steps| - 1]) {
        StepKeepsInv(before.value, steps[|steps| - 1]);
      }
    }
  }

  /** In every state of every interleaving, no two contenders are past the lock and none past it is locked. */
  lemma LockIsSafe(steps: seq<Step>, a: nat, b: nat)
    requires Execute(steps).Some?
    ensures var s := Execute(steps).value;
      && (Contend(s, a, b) ==> !(a in s.passed && b in s.passed))
      && (a in s.runs && a in s.passed && !Terminal(s.runs[a].phase) ==> !Locked(s, a))
  {
    ExecutionKeepsInv(steps);
    var s := Execute(steps).value;
    if Contend(s, a, b) {
      MutualExclusion(s, a, b);
    }
    if a in s.runs && a in s.passed && !Terminal(s.runs[a].phase) {
      PassedStaysUnlocked(s, a);
    }
  }

  // ----- No deadlock -----

  /** Waiting always points backwards in (timestamp, name), so it has no cycles. */
  lemma WaitingPointsBack(s: State, a: nat, b: nat)
    requires Inv(s) && Contend(s, a, b) && Blocks(s.runs[b], s.runs[a])
    ensures Earlier(s.runs[b], s.runs[a])
    ensures s.runs[b].created < s.runs[a].created
      || (s.runs[b].created == s.runs[a].created && Before(s.runs[b].name, s.runs[a].name))
  {
    EarlierIsTotal(s.runs[a], s.runs[b]);
  }

  lemma {:induction false} EarliestOf(s: State, ids: set<nat>) returns (least: nat)
    requires Dated(s) && ids != {} && ids <= s.runs.Keys
    ensures least in ids && forall a :: a in ids && a != least ==> Earlier(s.runs[least], s.runs[a])
    decreases ids
  {
    var x :| x in ids;
    var rest := ids - {x};
    least := x;
    assert forall a :: a in ids <==> a == x || a in rest;
    if rest != {} {
      hide Earlier;
      var y := EarliestOf(s, rest);
      assert s.runs[x].name != s.runs[y].name;
      EarlierIsTotal(s.runs[x], s.runs[y]);
      if Earlier(s.runs[y], s.runs[x]) {
        least := y;
      } else {
        forall a | a in rest && a != y ensures Earlier(s.runs[x], s.runs[a]) {
          EarlierIsTransitive(s.runs[x], s.runs[y], s.runs[a]);
        }
      }
    }
  }

  /** The earliest waiting run is held back only by runs past the lock; and while any run is active, some active run is
      not held back at all. */
  lemma SomeRunIsFree(s: State) returns (waiting: Option<nat>, free: nat)
    requires Inv(s) && exists a :: a in s.runs && !Terminal(s.runs[a].phase)
    ensures waiting.None? ==> forall a :: a in s.runs && !Terminal(s.runs[a].phase) ==> a in s.passed
    ensures waiting.Some? ==>
      && waiting.value in s.runs && waiting.value !in s.passed && !Terminal(s.runs[waiting.value].phase)
      && forall b :: b in s.runs && Blocks(s.runs[b], s.runs[waiting.value]) ==> b in s.passed
    ensures free in s.runs && !Terminal(s.runs[free].phase) && !Locked(s, free)
  {
    var active := set a | a in s.runs && !Terminal(s.runs[a].phase);
    var held := active - s.passed;
    var some :| some in s.runs && !Terminal(s.runs[some].phase);
    assert some in active;
    if held == {} {
      waiting, free := None, some;
      assert forall a :: a in active ==> a in s.passed by {
        assert active <= s.passed + held;
      }
      PassedStaysUnlocked(s, free);
      return;
    }
    var least := EarliestOf(s, held);
    waiting := Some(least);
    forall b | b in s.runs && Blocks(s.runs[b], s.runs[least]) ensures b in s.passed {
      assert b in active;
      WaitingPointsBack(s, least, b);
      EarlierIsTotal(s.runs[b], s.runs[least]);
    }
    if Locked(s, least) {
      free :| free in s.runs && Blocks(s.runs[free], s.runs[least]);
      PassedStaysUnlocked(s, free);
    } else {
      free := least;
    }
  }

  // ----- Why the order matters -----

  /** Some run past the lock, and not ended, would be told to wait. */
  ghost predicate Displaced(s: State) {
    exists o :: o in s.passed && o in s.runs && !Terminal(s.runs[o].phase) && Locked(s, o)
  }

  /** A contender past the lock that the new run comes before. */
  ghost predicate Overtakes(s: State, run: Run) {
    exists o :: o in s.passed && o in s.runs && !Terminal(s.runs[o].phase) && Compete(s.runs[o], run) && Earlier(run, s.runs[o])
  }

  lemma CompeteIsSymmetric(a: Run, b: Run)
    ensures Compete(a, b) <==> Compete(b, a)
  {
    OverlapIsSymmetric();
    hide TargetDatasetsOverlap;
  }

  lemma NewcomerBlocks(run: Run, o: Run)
    requires run.phase == Unset && run.name != o.name
    ensures Blocks(run, o) <==> Compete(o, run) && Earlier(run, o)
  {
    CompeteIsSymmetric(run, o);
    hide Compete, Earlier;
  }

  lemma LockedByNewcomer(s: State, id: nat, run: Run, o: nat)
    requires Inv(s) && Enabled(s, Create(id, run)) && o in s.passed && o in s.runs && !Terminal(s.runs[o].phase)
    ensures Locked(Next(s, Create(id, run)), o) <==> Compete(s.runs[o], run) && Earlier(run, s.runs[o])
  {
    var t := Next(s, Create(id, run));
    PassedStaysUnlocked(s, o);
    NewcomerBlocks(run, s.runs[o]);
    hide Inv, Blocks, Compete, Earlier;
    assert t.runs[id] == run && t.runs[o] == s.runs[o];
    forall p | p in s.runs ensures t.runs[p] == s.runs[p] && !Blocks(t.runs[p], t.runs[o]) {
    }
  }

  /** From any state of an execution, a creation displaces a run past the lock exactly when it overtakes one: whatever
      its timestamp, zero or not. Nothing was displaced before. */
  lemma CreationDisplacesIff(s: State, id: nat, run: Run)
    requires Inv(s) && Enabled(s, Create(id, run))
    ensures !Displaced(s)
    ensures Displaced(Next(s, Create(id, run))) <==> Overtakes(s, run)
  {
    var t := Next(s, Create(id, run));
    forall o | o in s.passed && o in s.runs && !Terminal(s.runs[o].phase)
      ensures !Locked(s, o)
      ensures Locked(t, o) <==> Compete(s.runs[o], run) && Earlier(run, s.runs[o])
    {
      PassedStaysUnlocked(s, o);
      LockedByNewcomer(s, id, run, o);
    }
    assert s.passed <= s.runs.Keys;
    assert t.passed == s.passed && forall o :: o in s.runs ==> t.runs[o] == s.runs[o];
    hide Inv, Compete, Earlier, Locked, Blocks;
  }

  /** Two runs on overlapping targets of one node, created at the same instant. */
  predicate Twins(started: Run, newcomer: Run) {
    && started.phase == Unset && newcomer.phase == Unset && started.name != newcomer.name
    && Compete(started, newcomer) && started.created == newcomer.created != 0
  }

  lemma StartSteps(started: Run, s1: State, s2: State, s3: State)
    requires started.phase == Unset && started.created != 0
    requires s1 == EMPTY.(runs := map[0 := started]) && s2 == s1.(deciding := map[0 := Go], passed := {0})
    requires s3 == State(map[0 := started.(phase := Running)], map[], {0})
    ensures Allowed(EMPTY, Create(0, started)) && Next(EMPTY, Create(0, started)) == s1
    ensures Allowed(s1, Decide(0)) && Next(s1, Decide(0)) == s2
    ensures Allowed(s2, Patch(0, Running)) && Next(s2, Patch(0, Running)) == s3
  {
    hide Compete, Earlier;
    assert !Blocks(started, started);
    assert !Locked(s1, 0);
  }

  lemma TwinCanCome(started: Run, newcomer: Run)
    requires Twins(started, newcomer)
    ensures Enabled(State(map[0 := started.(phase := Running)], map[], {0}), Create(1, newcomer))
  {
    hide Compete;
  }

  lemma TwinStarts(started: Run, newcomer: Run)
    requires Twins(started, newcomer)
    ensures started.phase == Unset && started.created != 0
  {
    hide Compete;
  }

  lemma StartTwin(started: Run, newcomer: Run) returns (s1: State, s2: State, s3: State)
    requires Twins(started, newcomer)
    ensures Allowed(EMPTY, Create(0, started)) && Next(EMPTY, Create(0, started)) == s1
    ensures Allowed(s1, Decide(0)) && Next(s1, Decide(0)) == s2
    ensures Allowed(s2, Patch(0, Running)) && Next(s2, Patch(0, Running)) == s3
    ensures s3 == State(map[0 := started.(phase := Running)], map[], {0}) && Enabled(s3, Create(1, newcomer))
  {
    hide Allowed, Compete, Next, Before, Enabled, Twins;
    TwinCanCome(started, newcomer);
    TwinStarts(started, newcomer);
    s1 := EMPTY.(runs := map[0 := started]);
    s2 := s1.(deciding := map[0 := Go], passed := {0});
    s3 := State(map[0 := started.(phase := Running)], map[], {0});
    StartSteps(started, s1, s2, s3);
  }

  lemma TwinOvertakes(started: Run, newcomer: Run, s: State)
    requires Twins(started, newcomer) && s == State(map[0 := started.(phase := Running)], map[], {0})
    ensures Overtakes(s, newcomer) <==> Before(newcomer.name, started.name)
  {
    var o := s.runs[0];
    assert Compete(o, newcomer) == Compete(started, newcomer);
    assert Earlier(newcomer, o) <==> Before(newcomer.name, started.name);
    hide Compete, Earlier, Before;
    assert 0 in s.passed;
  }

  lemma ExecuteThree(steps: seq<Step>, s1: State, s2: State, s3: State)
    requires |steps| == 3
    requires Allowed(EMPTY, steps[0]) && Next(EMPTY, steps[0]) == s1
    requires Allowed(s1, steps[1]) && Next(s1, steps[1]) == s2
    requires Allowed(s2, steps[2]) && Next(s2, steps[2]) == s3
    ensures Execute(steps) == Some(s3)
  {
    hide Allowed, Next;
    assert steps[..1][..0] == [] && steps[..2][..1] == steps[..1] && steps[..3] == steps;
    assert Execute(steps[..1]) == Some(s1);
    assert Execute(steps[..2]) == Some(s2);
  }

  /** It does happen: after the execution that starts `started`, its twin displaces it exactly when its name is the
      smaller. */
  lemma EqualTimestampDisplaces(started: Run, newcomer: Run)
    requires Twins(started, newcomer)
    ensures var s := Execute([Create(0, started), Decide(0), Patch(0, Running)]);
      && s.Some? && Enabled(s.value, Create(1, newcomer))
      && s.value.runs == map[0 := started.(phase := Running)]
      && (Displaced(Next(s.value, Create(1, newcomer))) <==> Before(newcomer.name, started.name))
  {
    hide *;
    var s1, s2, s3 := StartTwin(started, newcomer);
    var steps := [Create(0, started), Decide(0), Patch(0, Running)];
    assert steps[0] == Create(0, started) && steps[1] == Decide(0) && steps[2] == Patch(0, Running);
    ExecuteThree(steps, s1, s2, s3);
    ExecutionKeepsInv(steps);
    CreationDisplacesIff(s3, 1, newcomer);
    TwinOvertakes(started, newcomer, s3);
  }
}
